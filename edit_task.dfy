/**
 * The edit modal: a working copy of one task, edited field by field, checked
 * and sent to the server on save, discarded on close.
 */
module Edit {
  import opened Tasks
  import opened Dates
  import Form

  const MaxEditTaskNameLength: nat := 30
  const MaxEditCommentLength: nat := 120

  const PastDateMessage: string := "Please select a future date."

  /** `getCurrentDate`: the date in `YYYY-MM-DD` form, month and day padded to two digits. */
  function CurrentDate(year: nat, monthIndex: nat, day: nat): (today: string)
    requires 1000 <= year <= 9999 && monthIndex < 12 && 1 <= day <= 31
    ensures IsIsoDate(today)
    ensures Year(today) == year && Month(today) == monthIndex + 1 && Day(today) == day
  {
    FormatDateIsIsoDate(year, monthIndex, day);
    FormatDate(year, monthIndex, day)
  }

  /** `selectedDate < currentDate` on the date strings, as JavaScript compares them. */
  predicate IsPastDate(selectedDate: string, today: string)
  {
    LexLess(selectedDate, today)
  }

  /**
   * For a well-formed selected date the string test is the day order: a day
   * before today is refused, today and later days are taken.
   */
  lemma PastDateIsEarlierDay(selectedDate: string, year: nat, monthIndex: nat, day: nat)
    requires 1000 <= year <= 9999 && monthIndex < 12 && 1 <= day <= 31
    requires IsIsoDate(selectedDate)
    ensures IsPastDate(selectedDate, CurrentDate(year, monthIndex, day)) <==>
      DayKey(selectedDate) < year * 10000 + (monthIndex + 1) * 100 + day
  {
    var today := CurrentDate(year, monthIndex, day);
    IsoOrderIsDayOrder(selectedDate, today);
  }

  /** Emptying the date field is a "past" date: the empty string sorts before any date. */
  lemma EmptyDateIsPast(year: nat, monthIndex: nat, day: nat)
    requires 1000 <= year <= 9999 && monthIndex < 12 && 1 <= day <= 31
    ensures IsPastDate("", CurrentDate(year, monthIndex, day))
  {
  }

  /** What a save request leads to: sent and accepted, or the error shown. */
  function SaveResult(updatedTask: Task, reply: Reply): (r: Result)
    ensures r.Saved? <==> MandatoryFieldsSet(updatedTask.taskName, updatedTask.dueDate, updatedTask.category, updatedTask.importance) && reply == Ok
    ensures r.Saved? ==> r.task == updatedTask
  {
    if !MandatoryFieldsSet(updatedTask.taskName, updatedTask.dueDate, updatedTask.category, updatedTask.importance) then
      Refused(MandatoryFieldsMessage)
    else match reply
      case Ok => Saved(updatedTask)
      case NotOk => Refused("Failed to update the task.")
      case Threw => Refused("Error updating the task.")
  }

  datatype Result = Saved(task: Task) | Refused(message: string)

  /** A refused save never shows an empty error, and a missing field stops it before any request. */
  lemma RefusedSaveExplains(updatedTask: Task, reply: Reply)
    ensures SaveResult(updatedTask, reply).Refused? ==> SaveResult(updatedTask, reply).message != ""
    ensures !MandatoryFieldsSet(updatedTask.taskName, updatedTask.dueDate, updatedTask.category, updatedTask.importance) ==>
      forall other: Reply :: SaveResult(updatedTask, other) == SaveResult(updatedTask, reply)
  {
  }

  /**
   * The add form and the edit modal apply the same mandatory-field check: a
   * task the form emits is saved by the modal when the server accepts it, and
   * a task the modal saves would have been emitted by the form.
   */
  lemma SubmittedTaskSaves(taskName: string, dueDate: string, category: string, importance: string, comments: string)
    ensures var emitted := Form.Submitted(taskName, dueDate, category, importance, comments);
      emitted.Some? ==> SaveResult(emitted.value, Ok) == Saved(emitted.value)
    ensures forall t: Task :: SaveResult(t, Ok).Saved? ==>
      Form.Submitted(t.taskName, t.dueDate, t.category, t.importance, t.comments).Some?
  {
  }

  class EditTaskModal {
    /** The task the modal was opened on (`props.task`). */
    const task: Task
    var updatedTask: Task
    var error: string

    constructor (task: Task)
      ensures this.task == task && updatedTask == task && error == ""
    {
      this.task := task;
      updatedTask := task;
      error := "";
    }

    method TaskNameChange(value: string)
      requires |value| <= MaxEditTaskNameLength
      modifies this`updatedTask
      ensures updatedTask == old(updatedTask).(taskName := value)
    {
      updatedTask := updatedTask.(taskName := value);
    }

    method CategoryChange(value: string)
      modifies this`updatedTask
      ensures updatedTask == old(updatedTask).(category := value)
    {
      updatedTask := updatedTask.(category := value);
    }

    method ImportanceChange(value: string)
      modifies this`updatedTask
      ensures updatedTask == old(updatedTask).(importance := value)
    {
      updatedTask := updatedTask.(importance := value);
    }

    method CommentsChange(value: string)
      requires |value| <= MaxEditCommentLength
      modifies this`updatedTask
      ensures updatedTask == old(updatedTask).(comments := value)
    {
      updatedTask := updatedTask.(comments := value);
    }

    /** `closeModal`: drop the edits and the error. */
    method CloseModal()
      modifies this`updatedTask, this`error
      ensures updatedTask == task && error == ""
    {
      updatedTask := task;
      error := "";
    }

    /**
     * `handleDueDateChange` on the day `getCurrentDate` reads: a date before
     * today is refused with an error and the working copy kept; otherwise it
     * becomes the due date and the error is cleared.
     */
    method DueDateChange(selectedDate: string, year: nat, monthIndex: nat, day: nat)
      requires 1000 <= year <= 9999 && monthIndex < 12 && 1 <= day <= 31
      modifies this`updatedTask, this`error
      ensures IsPastDate(selectedDate, CurrentDate(year, monthIndex, day)) ==>
        updatedTask == old(updatedTask) && error == PastDateMessage
      ensures !IsPastDate(selectedDate, CurrentDate(year, monthIndex, day)) ==>
        updatedTask == old(updatedTask).(dueDate := selectedDate) && error == ""
    {
      var currentDate := CurrentDate(year, monthIndex, day);
      if IsPastDate(selectedDate, currentDate) {
        error := PastDateMessage;
      } else {
        updatedTask := updatedTask.(dueDate := selectedDate);
        error := "";
      }
    }

    /**
     * `handleSaveTask`: the edited task is handed to the page only when every
     * mandatory field is set and the server accepted it, and then the modal
     * closes, restoring the working copy; otherwise the error says why.
     */
    method HandleSaveTask(reply: Reply) returns (saved: Option<Task>)
      modifies this`updatedTask, this`error
      ensures SaveResult(old(updatedTask), reply).Saved? ==>
        saved == Some(old(updatedTask)) && updatedTask == task && error == ""
      ensures SaveResult(old(updatedTask), reply).Refused? ==>
        saved == None && updatedTask == old(updatedTask) && error == SaveResult(old(updatedTask), reply).message
    {
      var result := SaveResult(updatedTask, reply);
      match result
      case Saved(t) =>
        saved := Some(t);
        CloseModal();
      case Refused(message) =>
        saved := None;
        error := message;
    }
  }
}

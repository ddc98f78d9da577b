/**
 * The "add task" form: five input fields, an error line, and the submit and
 * close actions.
 */
module Form {
  import opened Tasks

  const MaxTaskNameLength: nat := 30
  const MaxCommentLength: nat := 130

  /** What a submitted form produces: the entered fields with `status: 'Active'`. */
  function Submitted(taskName: string, dueDate: string, category: string, importance: string, comments: string): (t: Option<Task>)
    ensures t.Some? <==> MandatoryFieldsSet(taskName, dueDate, category, importance)
    ensures t.Some? ==> (
      && t.value.status == Active && t.value.taskId == NoId
      && t.value.taskName == taskName && t.value.dueDate == dueDate && t.value.category == category
      && t.value.importance == importance && t.value.comments == comments)
  {
    if MandatoryFieldsSet(taskName, dueDate, category, importance) then
      Some(Task(NoId, taskName, dueDate, category, importance, comments, Active))
    else None
  }

  class TaskForm {
    var taskName: string
    var dueDate: string
    var category: string
    var importance: string
    var comments: string
    var error: string

    /** The inputs' `maxLength` bounds. */
    predicate Valid()
      reads this
    {
      |taskName| <= MaxTaskNameLength && |comments| <= MaxCommentLength
    }

    predicate Empty()
      reads this
    {
      taskName == "" && dueDate == "" && category == "" && importance == "" && comments == ""
    }

    constructor ()
      ensures Valid() && Empty() && error == ""
    {
      taskName := "";
      dueDate := "";
      category := "";
      importance := "";
      comments := "";
      error := "";
    }

    method TaskNameChange(value: string)
      requires Valid() && |value| <= MaxTaskNameLength
      modifies this`taskName
      ensures Valid() && taskName == value
    {
      taskName := value;
    }

    method DueDateChange(value: string)
      requires Valid()
      modifies this`dueDate
      ensures Valid() && dueDate == value
    {
      dueDate := value;
    }

    method CategoryChange(value: string)
      requires Valid()
      modifies this`category
      ensures Valid() && category == value
    {
      category := value;
    }

    method ImportanceChange(value: string)
      requires Valid()
      modifies this`importance
      ensures Valid() && importance == value
    {
      importance := value;
    }

    method CommentsChange(value: string)
      requires Valid() && |value| <= MaxCommentLength
      modifies this`comments
      ensures Valid() && comments == value
    {
      comments := value;
    }

    /**
     * `handleSubmit`: with a mandatory field empty, show the error and emit
     * nothing; otherwise emit the entered fields as an Active task without an
     * id, clear the error and empty the form.
     */
    method HandleSubmit() returns (emitted: Option<Task>)
      requires Valid()
      modifies this
      ensures Valid()
      ensures emitted == Submitted(old(taskName), old(dueDate), old(category), old(importance), old(comments))
      ensures emitted.None? ==>
        && error == MandatoryFieldsMessage
        && taskName == old(taskName) && dueDate == old(dueDate) && category == old(category)
        && importance == old(importance) && comments == old(comments)
      ensures emitted.Some? ==> error == "" && Empty()
    {
      emitted := Submitted(taskName, dueDate, category, importance, comments);
      if emitted.None? {
        error := MandatoryFieldsMessage;
        return;
      }
      error := "";
      taskName := "";
      dueDate := "";
      category := "";
      importance := "";
      comments := "";
    }

    /** `handleClose`: empty the form and clear the error. */
    method HandleClose()
      modifies this
      ensures Valid() && Empty() && error == ""
    {
      taskName := "";
      dueDate := "";
      category := "";
      importance := "";
      comments := "";
      error := "";
    }
  }
}

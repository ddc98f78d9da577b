/**
 * One task row of the by-category page: its status colour, which actions it
 * offers, and the updaters its edit, delete and complete handlers pass to the
 * page's `setTasks`. Each updater copies the table (`{ ...prevTasks }`) and
 * reassigns buckets key by key.
 */
module TaskItem {
  import opened Tasks

  /** `getStatusColor`: a switch on the status string with gray as the default. */
  function StatusColor(status: Status): (color: string)
    ensures color == "bg-green-500" <==> status == Active
    ensures color == "bg-red-500" <==> status == NotFinished
    ensures color == "bg-gray-500" <==> status == Done
  {
    match status
    case Active => "bg-green-500"
    case NotFinished => "bg-red-500"
    case _ => "bg-gray-500"
  }

  /** The edit and complete buttons are rendered only for a task that is not done. */
  predicate OffersEditAndComplete(t: Task)
  {
    t.status != Done
  }

  // ---------------------------------------------------------------------------
  // Bucket updaters: `map` and `filter` over one category's array

  /** `tasks.map(prev => prev.taskId === updated.taskId ? updated : prev)`. */
  function ReplaceById(tasks: seq<Task>, updated: Task): seq<Task>
  {
    if |tasks| == 0 then []
    else [if tasks[0].taskId == updated.taskId then updated else tasks[0]] + ReplaceById(tasks[1..], updated)
  }

  /** `tasks.filter(task => task.taskId !== id)`. */
  function RemoveById(tasks: seq<Task>, id: TaskId): seq<Task>
  {
    if |tasks| == 0 then []
    else if tasks[0].taskId == id then RemoveById(tasks[1..], id)
    else [tasks[0]] + RemoveById(tasks[1..], id)
  }

  /** `tasks.map(task => task.taskId === id ? { ...task, status: 'Done' } : task)`. */
  function MarkDone(tasks: seq<Task>, id: TaskId): seq<Task>
  {
    if |tasks| == 0 then []
    else [if tasks[0].taskId == id then tasks[0].(status := Done) else tasks[0]] + MarkDone(tasks[1..], id)
  }

  /**
   * After completing `id`, no task with that id offers the edit and complete
   * buttons any more, while every other task keeps its buttons; a task offers
   * them exactly when its status colour is not gray.
   */
  lemma CompletedTaskOffersNothing(tasks: seq<Task>, id: TaskId)
    ensures |MarkDone(tasks, id)| == |tasks|
    ensures forall i :: 0 <= i < |tasks| ==>
      (OffersEditAndComplete(MarkDone(tasks, id)[i]) <==> tasks[i].taskId != id && OffersEditAndComplete(tasks[i]))
    ensures forall t :: t in MarkDone(tasks, id) && t.taskId == id ==> !OffersEditAndComplete(t)
    ensures forall t: Task :: OffersEditAndComplete(t) <==> StatusColor(t.status) != "bg-gray-500"
  {
    MarkDoneAt(tasks, id);
  }

  /** Replacing keeps the length and the order; only elements with the id become `updated`. */
  lemma {:induction false} ReplaceByIdAt(tasks: seq<Task>, updated: Task)
    ensures |ReplaceById(tasks, updated)| == |tasks|
    ensures forall i :: 0 <= i < |tasks| ==>
      ReplaceById(tasks, updated)[i] == if tasks[i].taskId == updated.taskId then updated else tasks[i]
  {
    if |tasks| > 0 { ReplaceByIdAt(tasks[1..], updated); }
  }

  /**
   * Deleting keeps, in their order, exactly the tasks without the id, each as
   * often as before, and drops every task with it.
   */
  lemma {:induction false} RemoveByIdKeepsOthers(tasks: seq<Task>, id: TaskId)
    ensures IsSubsequence(RemoveById(tasks, id), tasks)
    ensures forall t :: multiset(RemoveById(tasks, id))[t] == if t.taskId == id then 0 else multiset(tasks)[t]
  {
    if |tasks| > 0 {
      RemoveByIdKeepsOthers(tasks[1..], id);
      assert tasks == [tasks[0]] + tasks[1..];
      var r := RemoveById(tasks[1..], id);
      if tasks[0].taskId != id {
        assert RemoveById(tasks, id) == [tasks[0]] + r;
        assert ([tasks[0]] + r)[1..] == r;
      } else {
        SubsequenceOfTail(r, tasks);
      }
    }
  }

  /** After a delete no task with the id is left. */
  lemma RemoveByIdRemovesAll(tasks: seq<Task>, id: TaskId)
    ensures forall t :: t in RemoveById(tasks, id) ==> t.taskId != id
  {
    RemoveByIdKeepsOthers(tasks, id);
  }

  /** Completing sets `status` to Done on the tasks with the id and changes nothing else. */
  lemma {:induction false} MarkDoneAt(tasks: seq<Task>, id: TaskId)
    ensures |MarkDone(tasks, id)| == |tasks|
    ensures forall i :: 0 <= i < |tasks| ==>
      MarkDone(tasks, id)[i] == if tasks[i].taskId == id then tasks[i].(status := Done) else tasks[i]
  {
    if |tasks| > 0 { MarkDoneAt(tasks[1..], id); }
  }

  /** Completing the same task twice is completing it once. */
  lemma {:induction false} MarkDoneIdempotent(tasks: seq<Task>, id: TaskId)
    ensures MarkDone(MarkDone(tasks, id), id) == MarkDone(tasks, id)
  {
    if |tasks| > 0 {
      MarkDoneIdempotent(tasks[1..], id);
      assert MarkDone(tasks, id)[1..] == MarkDone(tasks[1..], id);
    }
  }

  // ---------------------------------------------------------------------------
  // Table updaters

  /** The delete updater: `Object.keys(updatedTasks).forEach(...)` filtering every bucket. */
  method DeleteFromAll(prev: Table, id: TaskId) returns (next: Table)
    requires prev.Valid()
    ensures next.Valid() && next.order == prev.order && next.buckets.Keys == prev.buckets.Keys
    ensures forall k :: k in prev.buckets ==> next.buckets[k] == RemoveById(prev.buckets[k], id)
  {
    next := prev;
    var keys := prev.order;
    var i := 0;
    while i < |keys|
      invariant 0 <= i <= |keys|
      invariant next.order == prev.order && next.buckets.Keys == prev.buckets.Keys
      invariant forall k :: k in keys[..i] ==> next.buckets[k] == RemoveById(prev.buckets[k], id)
      invariant forall k :: k in keys[i..] ==> next.buckets[k] == prev.buckets[k]
    {
      var k := keys[i];
      assert keys[..i + 1] == keys[..i] + [k];
      next := next.(buckets := next.buckets[k := RemoveById(next.buckets[k], id)]);
      i := i + 1;
    }
    assert keys[..i] == keys;
  }

  /** The complete updater: `for (const category of categories)` mapping every bucket. */
  method CompleteInAll(prev: Table, id: TaskId) returns (next: Table)
    requires prev.Valid()
    ensures next.Valid() && next.order == prev.order && next.buckets.Keys == prev.buckets.Keys
    ensures forall k :: k in prev.buckets ==> next.buckets[k] == MarkDone(prev.buckets[k], id)
  {
    next := prev;
    var categories := prev.order;
    var i := 0;
    while i < |categories|
      invariant 0 <= i <= |categories|
      invariant next.order == prev.order && next.buckets.Keys == prev.buckets.Keys
      invariant forall k :: k in categories[..i] ==> next.buckets[k] == MarkDone(prev.buckets[k], id)
      invariant forall k :: k in categories[i..] ==> next.buckets[k] == prev.buckets[k]
    {
      var k := categories[i];
      assert categories[..i + 1] == categories[..i] + [k];
      next := next.(buckets := next.buckets[k := MarkDone(next.buckets[k], id)]);
      i := i + 1;
    }
    assert categories[..i] == categories;
  }

  /**
   * The edit updater for a task shown under `prevCategory`: replace it in place
   * when the category is unchanged, otherwise take it out of the old bucket and
   * append it to the new one, creating that bucket if needed.
   */
  function SaveEdit(prev: Table, prevCategory: string, updated: Task): (next: Table)
    requires prev.Valid()
    ensures next.Valid()
  {
    var newCategory := updated.category;
    if prevCategory == newCategory then
      if prevCategory in prev.buckets then
        prev.(buckets := prev.buckets[prevCategory := ReplaceById(prev.buckets[prevCategory], updated)])
      else prev
    else
      var removed :=
        if prevCategory in prev.buckets then prev.buckets[prevCategory := RemoveById(prev.buckets[prevCategory], updated.taskId)]
        else prev.buckets;
      if newCategory in prev.buckets then
        Table(prev.order, removed[newCategory := prev.buckets[newCategory] + [updated]])
      else
        Table(prev.order + [newCategory], removed[newCategory := [updated]])
  }

  /** An edit within one category keeps every key and every other bucket, and the bucket's length. */
  lemma SaveEditSameCategory(prev: Table, updated: Task)
    requires prev.Valid() && updated.category in prev.buckets
    ensures SaveEdit(prev, updated.category, updated).order == prev.order
    ensures SaveEdit(prev, updated.category, updated).buckets ==
      prev.buckets[updated.category := ReplaceById(prev.buckets[updated.category], updated)]
    ensures |SaveEdit(prev, updated.category, updated).buckets[updated.category]| == |prev.buckets[updated.category]|
  {
    ReplaceByIdAt(prev.buckets[updated.category], updated);
  }

  /**
   * An edit that changes the category takes the task out of the old bucket
   * (whose key stays, even when it empties), appends it to the new bucket, and
   * leaves every other bucket as it was.
   */
  lemma SaveEditMovesTask(prev: Table, prevCategory: string, updated: Task)
    requires prev.Valid() && prevCategory in prev.buckets && prevCategory != updated.category
    ensures var next := SaveEdit(prev, prevCategory, updated);
      && prevCategory in next.buckets
      && next.buckets[prevCategory] == RemoveById(prev.buckets[prevCategory], updated.taskId)
      && (forall t :: t in next.buckets[prevCategory] ==> t.taskId != updated.taskId)
      && next.buckets[updated.category] ==
           (if updated.category in prev.buckets then prev.buckets[updated.category] else []) + [updated]
      && (forall k :: k in prev.buckets && k != prevCategory && k != updated.category ==>
            next.buckets[k] == prev.buckets[k])
      && next.order == (if updated.category in prev.buckets then prev.order else prev.order + [updated.category])
  {
    RemoveByIdRemovesAll(prev.buckets[prevCategory], updated.taskId);
  }

  // ---------------------------------------------------------------------------
  // The category of the row being edited

  /** `String(props.category)`: a row rendered without the prop reads "undefined". */
  function CategoryPropString(categoryProp: Option<string>): string
  {
    match categoryProp
    case None => "undefined"
    case Some(c) => c
  }

  /**
   * The edit updater as written: it takes the previous category from the row's
   * `category` prop, which the search-results list does not pass.
   */
  function SaveEditAsWritten(prev: Table, categoryProp: Option<string>, updated: Task): Table
    requires prev.Valid()
  {
    SaveEdit(prev, CategoryPropString(categoryProp), updated)
  }

  /** The edit updater as intended: the previous category is that of the task being edited. */
  function SaveEditOf(prev: Table, edited: Task, updated: Task): Table
    requires prev.Valid()
  {
    SaveEdit(prev, edited.category, updated)
  }

  /** No bucket other than `category`'s holds a task with this id. */
  predicate IdOnlyIn(t: Table, id: TaskId, category: string)
  {
    forall k :: k in t.buckets && k != category ==> forall x :: x in t.buckets[k] ==> x.taskId != id
  }

  /**
   * Editing from the search results duplicates the task: with the task in its
   * category's bucket and the row given no `category` prop, the save leaves the
   * old copy in place and appends the edited one.
   */
  lemma EditFromSearchDuplicates()
    ensures var t := Task(Id("1"), "report", "2024-05-01", "work", "low", "", Active);
      var updated := t.(taskName := "final report");
      var prev := Table(["work"], map["work" := [t]]);
      && SaveEditAsWritten(prev, None, updated).buckets["work"] == [t, updated]
      && SaveEditOf(prev, t, updated).buckets["work"] == [updated]
  {
    var t := Task(Id("1"), "report", "2024-05-01", "work", "low", "", Active);
    var prev := Table(["work"], map["work" := [t]]);
    assert prev.Valid();
  }

  /**
   * Saving an edit of a task that lives only in its own category's bucket
   * leaves the edited task there, and the id in no other bucket.
   */
  lemma SaveEditOfKeepsTaskInOneBucket(prev: Table, edited: Task, updated: Task)
    requires prev.Valid()
    requires updated.taskId == edited.taskId
    requires edited.category in prev.buckets && edited in prev.buckets[edited.category]
    requires IdOnlyIn(prev, edited.taskId, edited.category)
    ensures var next := SaveEditOf(prev, edited, updated);
      && updated.category in next.buckets
      && updated in next.buckets[updated.category]
      && IdOnlyIn(next, updated.taskId, updated.category)
  {
    var next := SaveEditOf(prev, edited, updated);
    var bucket := prev.buckets[edited.category];
    if edited.category == updated.category {
      ReplaceByIdAt(bucket, updated);
      var i :| 0 <= i < |bucket| && bucket[i] == edited;
      assert next.buckets[updated.category][i] == updated;
    } else {
      SaveEditMovesTask(prev, edited.category, updated);
    }
  }
}

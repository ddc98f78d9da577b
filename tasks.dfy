/**
 * The task record and the by-category table that the client's components share.
 */
module Tasks {

  datatype Option<T> = None | Some(value: T)

  /** A task's status; the client compares the strings "Active", "Not Finished" and "Done". */
  datatype Status = Active | NotFinished | Done

  function StatusName(s: Status): string
  {
    match s
    case Active => "Active"
    case NotFinished => "Not Finished"
    case Done => "Done"
  }

  /**
   * A task read back from the store carries a `taskId`; one that the add-task
   * path inserts locally is the form's data, which has none (`undefined`).
   */
  datatype TaskId = NoId | Id(value: string)

  datatype Task = Task(
    taskId: TaskId,
    taskName: string,
    dueDate: string,
    category: string,
    importance: string,
    comments: string,
    status: Status)

  /** The four fields both forms refuse to send empty. */
  predicate MandatoryFieldsSet(taskName: string, dueDate: string, category: string, importance: string)
  {
    taskName != "" && dueDate != "" && category != "" && importance != ""
  }

  const MandatoryFieldsMessage: string := "Please fill in all the mandatory fields."

  /** How a `fetch` to the server ends: `response.ok`, a non-ok response, or a rejected promise. */
  datatype Reply = Ok | NotOk | Threw

  /** The status labels the filter offers; they are the status strings themselves. */
  const StatusOptions: seq<string> := ["Active", "Done", "Not Finished"]

  /** The importance labels the filter offers. */
  const ImportanceOptions: seq<string> := ["Low", "Medium", "High"]

  predicate Distinct<T(==)>(s: seq<T>)
  {
    forall i, j :: 0 <= i < j < |s| ==> s[i] != s[j]
  }

  /** `sub` is `s` with some elements left out and the rest in their order. */
  predicate IsSubsequence<T(==)>(sub: seq<T>, s: seq<T>)
  {
    if |sub| == 0 then true
    else if |s| == 0 then false
    else if sub[0] == s[0] then IsSubsequence(sub[1..], s[1..])
    else IsSubsequence(sub, s[1..])
  }

  /**
   * The object `tasksByCategory`: its keys in insertion order (the order of
   * `Object.keys` and `Object.entries`) and the array of tasks under each.
   */
  datatype Table = Table(order: seq<string>, buckets: map<string, seq<Task>>)
  {
    predicate Valid()
    {
      Distinct(order) && buckets.Keys == set k | k in order
    }
  }

  /** One `[category, tasks]` pair of `Object.entries`. */
  datatype Entry = Entry(category: string, tasks: seq<Task>)

  /** `Object.entries(table)`. */
  function Entries(t: Table): seq<Entry>
    requires t.Valid()
  {
    seq(|t.order|, i requires 0 <= i < |t.order| => Entry(t.order[i], t.buckets[t.order[i]]))
  }

  /** `indexOf`: the position of the first occurrence of `x` in `s`. */
  function FirstIndex(s: seq<string>, x: string): (i: nat)
    requires x in s
    ensures i < |s| && s[i] == x && x !in s[..i]
  {
    if s[0] == x then 0 else 1 + FirstIndex(s[1..], x)
  }

  lemma StatusNameInjective(a: Status, b: Status)
    ensures StatusName(a) == StatusName(b) ==> a == b
  {
  }

  /** A subsequence of the tail is a subsequence of the whole. */
  lemma {:induction false} SubsequenceOfTail(sub: seq<Task>, s: seq<Task>)
    requires |s| > 0 && IsSubsequence(sub, s[1..])
    ensures IsSubsequence(sub, s)
    decreases |sub| + |s|
  {
    if |sub| > 0 && sub[0] == s[0] {
      SubsequenceShrink(sub, s[1..]);
    }
  }

  lemma {:induction false} SubsequenceShrink(sub: seq<Task>, s: seq<Task>)
    requires |sub| > 0 && IsSubsequence(sub, s)
    ensures IsSubsequence(sub[1..], s)
    decreases |sub| + |s|
  {
    if sub[0] == s[0] {
      if |sub| > 1 { SubsequenceOfTail(sub[1..], s); }
    } else {
      SubsequenceShrink(sub, s[1..]);
      if |sub| > 1 { SubsequenceOfTail(sub[1..], s); }
    }
  }

  lemma {:induction false} SubsequenceMembers<T>(sub: seq<T>, s: seq<T>)
    requires IsSubsequence(sub, s)
    ensures |sub| <= |s|
    ensures forall x :: x in sub ==> x in s
  {
    if |sub| > 0 && |s| > 0 {
      if sub[0] == s[0] {
        SubsequenceMembers(sub[1..], s[1..]);
        assert sub == [sub[0]] + sub[1..];
      }
      else { SubsequenceMembers(sub, s[1..]); }
    }
  }
}

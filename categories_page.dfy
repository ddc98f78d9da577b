/**
 * The "Tasks by Category" page: the table of buckets it holds, the order it
 * sorts each bucket in, the status / importance / date-range filter it shows
 * them through, and the actions that change the table.
 */
module CategoriesPage {
  import opened Tasks
  import opened Dates
  import Text
  import TaskItem

  // ---------------------------------------------------------------------------
  // The sort order

  function StatusRank(s: Status): nat
  {
    match s
    case Active => 0
    case NotFinished => 1
    case Done => 2
  }

  /**
   * The comparator handed to `tasks.sort`: Active first, then Not Finished,
   * then Done; within a status by due date, earliest first.
   */
  function Compare(a: Task, b: Task): int
  {
    if a.status == Active && b.status != Active then -1
    else if a.status != Active && b.status == Active then 1
    else if a.status == NotFinished && b.status == Done then -1
    else if a.status == Done && b.status == NotFinished then 1
    else DateCompare(a.dueDate, b.dueDate)
  }

  predicate HasDates(s: seq<Task>)
  {
    forall t :: t in s ==> IsIsoDate(t.dueDate)
  }

  predicate SortedByCompare(s: seq<Task>)
  {
    forall i, j :: 0 <= i < j < |s| ==> Compare(s[i], s[j]) <= 0
  }

  lemma DateCompareIsDayOrder(a: string, b: string)
    requires IsIsoDate(a) && IsIsoDate(b)
    ensures DateCompare(a, b) == if DayKey(a) < DayKey(b) then -1 else if DayKey(a) > DayKey(b) then 1 else 0
  {
    IsoOrderIsDayOrder(a, b);
    IsoOrderIsDayOrder(b, a);
  }

  /**
   * The chain of status tests in the comparator is the order by status rank,
   * then by due date.
   */
  lemma CompareIsRankThenDate(a: Task, b: Task)
    requires IsIsoDate(a.dueDate) && IsIsoDate(b.dueDate)
    ensures Compare(a, b) ==
      if StatusRank(a.status) < StatusRank(b.status) then -1
      else if StatusRank(a.status) > StatusRank(b.status) then 1
      else if DayKey(a.dueDate) < DayKey(b.dueDate) then -1
      else if DayKey(a.dueDate) > DayKey(b.dueDate) then 1
      else 0
  {
    DateCompareIsDayOrder(a.dueDate, b.dueDate);
  }

  lemma CompareAntisymmetric(a: Task, b: Task)
    ensures Compare(a, b) > 0 <==> Compare(b, a) < 0
  {
    LexLessAsymmetric(a.dueDate, b.dueDate);
  }

  lemma CompareTransitive(a: Task, b: Task, c: Task)
    requires IsIsoDate(a.dueDate) && IsIsoDate(b.dueDate) && IsIsoDate(c.dueDate)
    requires Compare(a, b) <= 0 && Compare(b, c) <= 0
    ensures Compare(a, c) <= 0
  {
    CompareIsRankThenDate(a, b);
    CompareIsRankThenDate(b, c);
    CompareIsRankThenDate(a, c);
  }

  /** Insert `x` into `s` from the back, past every element that must follow it. */
  function Insert(x: Task, s: seq<Task>): seq<Task>
  {
    if |s| == 0 then [x]
    else if Compare(s[|s| - 1], x) > 0 then Insert(x, s[..|s| - 1]) + [s[|s| - 1]]
    else s + [x]
  }

  /**
   * The bucket as `Array.prototype.sort` leaves it: a stable sort under
   * `Compare`, here insertion sort.
   */
  function SortTasks(s: seq<Task>): seq<Task>
  {
    if |s| == 0 then [] else Insert(s[|s| - 1], SortTasks(s[..|s| - 1]))
  }

  lemma {:induction false} InsertPermutation(x: Task, s: seq<Task>)
    ensures multiset(Insert(x, s)) == multiset(s) + multiset{x}
  {
    if |s| > 0 {
      assert s == s[..|s| - 1] + [s[|s| - 1]];
      if Compare(s[|s| - 1], x) > 0 { InsertPermutation(x, s[..|s| - 1]); }
    }
  }

  /** Sorting a bucket neither loses nor adds a task. */
  lemma {:induction false} SortTasksPermutation(s: seq<Task>)
    ensures multiset(SortTasks(s)) == multiset(s)
    ensures |SortTasks(s)| == |s|
  {
    if |s| > 0 {
      SortTasksPermutation(s[..|s| - 1]);
      InsertPermutation(s[|s| - 1], SortTasks(s[..|s| - 1]));
      assert s == s[..|s| - 1] + [s[|s| - 1]];
    }
    assert |multiset(SortTasks(s))| == |SortTasks(s)|;
  }

  /** Appending a task that no earlier task compares after keeps the order. */
  lemma SortedSnoc(r: seq<Task>, y: Task)
    requires SortedByCompare(r)
    requires forall i :: 0 <= i < |r| ==> Compare(r[i], y) <= 0
    ensures SortedByCompare(r + [y])
  {
    var ry := r + [y];
    forall i, j | 0 <= i < j < |ry| ensures Compare(ry[i], ry[j]) <= 0 {
      assert ry[i] == r[i];
      if j < |r| { assert ry[j] == r[j]; }
    }
  }

  /** Every task of `Insert(x, init)` compares at or before `last` when `init`'s do and `x` does not follow it. */
  lemma InsertedBefore(x: Task, init: seq<Task>, last: Task)
    requires forall i :: 0 <= i < |init| ==> Compare(init[i], last) <= 0
    requires Compare(last, x) > 0
    ensures forall i :: 0 <= i < |Insert(x, init)| ==> Compare(Insert(x, init)[i], last) <= 0
  {
    var r := Insert(x, init);
    InsertPermutation(x, init);
    forall i | 0 <= i < |r| ensures Compare(r[i], last) <= 0 {
      assert r[i] in multiset(r);
      if r[i] == x {
        CompareAntisymmetric(last, x);
      } else {
        assert r[i] in multiset(init);
        var k :| 0 <= k < |init| && init[k] == r[i];
      }
    }
  }

  lemma {:induction false} InsertSorted(x: Task, s: seq<Task>)
    requires SortedByCompare(s) && HasDates(s) && IsIsoDate(x.dueDate)
    ensures SortedByCompare(Insert(x, s))
  {
    if |s| == 0 {
      SortedSnoc([], x);
    } else {
      var init, last := s[..|s| - 1], s[|s| - 1];
      assert forall i :: 0 <= i < |init| ==> init[i] == s[i];
      if Compare(last, x) > 0 {
        assert SortedByCompare(init) && HasDates(init) by {
          assert forall t :: t in init ==> t in s;
        }
        InsertSorted(x, init);
        InsertedBefore(x, init, last);
        SortedSnoc(Insert(x, init), last);
      } else {
        assert last in s;
        forall i | 0 <= i < |s| ensures Compare(s[i], x) <= 0 {
          if i < |s| - 1 { assert s[i] in s; CompareTransitive(s[i], last, x); }
        }
        SortedSnoc(s, x);
      }
    }
  }

  /** A bucket of well-formed due dates comes out of the sort in comparator order. */
  lemma {:induction false} SortTasksSorted(s: seq<Task>)
    requires HasDates(s)
    ensures SortedByCompare(SortTasks(s))
    ensures HasDates(SortTasks(s))
  {
    SortTasksPermutation(s);
    if |s| > 0 {
      var init := s[..|s| - 1];
      assert forall t :: t in init ==> t in s;
      SortTasksSorted(init);
      InsertSorted(s[|s| - 1], SortTasks(init));
    }
    forall t | t in SortTasks(s) ensures IsIsoDate(t.dueDate) {
      assert t in multiset(SortTasks(s));
    }
  }

  /** Sorting a bucket that is already in order leaves it as it is. */
  lemma {:induction false} SortTasksOfSorted(s: seq<Task>)
    requires SortedByCompare(s)
    ensures SortTasks(s) == s
  {
    if |s| > 0 {
      var init := s[..|s| - 1];
      SortTasksOfSorted(init);
      assert s == init + [s[|s| - 1]];
    }
  }

  /** Re-sorting on every render does not reorder a bucket again. */
  lemma SortTasksIdempotent(s: seq<Task>)
    requires HasDates(s)
    ensures SortTasks(SortTasks(s)) == SortTasks(s)
  {
    SortTasksSorted(s);
    SortTasksOfSorted(SortTasks(s));
  }

  /**
   * In a sorted bucket every Active task precedes every other task, every Not
   * Finished task precedes every Done task, and tasks of one status are by due
   * date, earliest first.
   */
  lemma SortedOrderFacts(s: seq<Task>, i: int, j: int)
    requires SortedByCompare(s) && HasDates(s) && 0 <= i < j < |s|
    ensures s[j].status == Active ==> s[i].status == Active
    ensures s[i].status == Done ==> s[j].status == Done
    ensures s[i].status == s[j].status ==> DayKey(s[i].dueDate) <= DayKey(s[j].dueDate)
  {
    assert s[i] in s && s[j] in s;
    CompareIsRankThenDate(s[i], s[j]);
  }

  predicate HasKey(t: Task, status: Status, dueDate: string)
  {
    t.status == status && t.dueDate == dueDate
  }

  /** The tasks of `s` with the given status and due date, in their order in `s`. */
  function WithKey(s: seq<Task>, status: Status, dueDate: string): seq<Task>
  {
    if |s| == 0 then []
    else WithKey(s[..|s| - 1], status, dueDate) + (if HasKey(s[|s| - 1], status, dueDate) then [s[|s| - 1]] else [])
  }

  lemma WithKeySnoc(r: seq<Task>, t: Task, status: Status, dueDate: string)
    ensures WithKey(r + [t], status, dueDate) == WithKey(r, status, dueDate) + (if HasKey(t, status, dueDate) then [t] else [])
  {
    assert (r + [t])[..|r|] == r;
  }

  /** Two tasks with the same status and due date compare equal, so neither follows the other. */
  lemma SameKeyNotAfter(a: Task, b: Task, status: Status, dueDate: string)
    ensures HasKey(a, status, dueDate) && HasKey(b, status, dueDate) ==> Compare(a, b) <= 0
  {
  }

  /** `x` is never moved past a task with its own status and due date, which compares equal to it. */
  lemma {:induction false} InsertStable(x: Task, s: seq<Task>, status: Status, dueDate: string)
    ensures WithKey(Insert(x, s), status, dueDate) ==
      WithKey(s, status, dueDate) + (if HasKey(x, status, dueDate) then [x] else [])
  {
    if |s| == 0 {
      WithKeySnoc([], x, status, dueDate);
    } else {
      var init, last := s[..|s| - 1], s[|s| - 1];
      assert s == init + [last];
      if Compare(last, x) > 0 {
        InsertStable(x, init, status, dueDate);
        SameKeyNotAfter(last, x, status, dueDate);
        assert Insert(x, s) == Insert(x, init) + [last];
        SnocPastStable(Insert(x, init), init, x, last, status, dueDate);
      } else {
        assert Insert(x, s) == s + [x];
        WithKeySnoc(s, x, status, dueDate);
      }
    }
  }

  /**
   * The step of `InsertStable` where `x` moves back past `last`: `r` is
   * `init` with `x` inserted, and `last` does not share `x`'s key.
   */
  lemma SnocPastStable(r: seq<Task>, init: seq<Task>, x: Task, last: Task, status: Status, dueDate: string)
    requires !(HasKey(x, status, dueDate) && HasKey(last, status, dueDate))
    requires WithKey(r, status, dueDate) == WithKey(init, status, dueDate) + (if HasKey(x, status, dueDate) then [x] else [])
    ensures WithKey(r + [last], status, dueDate) ==
      WithKey(init + [last], status, dueDate) + (if HasKey(x, status, dueDate) then [x] else [])
  {
    WithKeySnoc(r, last, status, dueDate);
    WithKeySnoc(init, last, status, dueDate);
  }

  /**
   * The sort is stable: tasks with the same status and the same due date,
   * which the comparator ranks as equal, keep their relative order.
   */
  lemma {:induction false} SortTasksStable(s: seq<Task>, status: Status, dueDate: string)
    ensures WithKey(SortTasks(s), status, dueDate) == WithKey(s, status, dueDate)
  {
    if |s| > 0 {
      SortTasksStable(s[..|s| - 1], status, dueDate);
      InsertStable(s[|s| - 1], SortTasks(s[..|s| - 1]), status, dueDate);
    }
  }

  /** One swap of the inner loop moves the insertion point one place back. */
  lemma InsertStepBack(x: Task, p: seq<Task>, j: int)
    requires 0 < j <= |p| && Compare(p[j - 1], x) > 0
    ensures Insert(x, p[..j]) + p[j..] == Insert(x, p[..j - 1]) + p[j - 1..]
  {
    assert p[..j][..j - 1] == p[..j - 1];
    assert p[j - 1..] == [p[j - 1]] + p[j..];
  }

  /** Where the inner loop stops, `x` goes right after the prefix. */
  lemma InsertStop(x: Task, p: seq<Task>, j: int)
    requires 0 <= j <= |p| && (j == 0 || Compare(p[j - 1], x) <= 0)
    ensures Insert(x, p[..j]) + p[j..] == p[..j] + [x] + p[j..]
  {
  }

  /** The two writes of one swap move `x` one place back in the array's shape. */
  lemma SwapShape(prefix: seq<Task>, x: Task, rest: seq<Task>, j: int)
    requires 0 < j <= |prefix|
    ensures (prefix[..j] + [x] + prefix[j..] + rest)[j - 1 := x][j := prefix[j - 1]]
         == prefix[..j - 1] + [x] + prefix[j - 1..] + rest
  {
    var s := (prefix[..j] + [x] + prefix[j..] + rest)[j - 1 := x][j := prefix[j - 1]];
    var t := prefix[..j - 1] + [x] + prefix[j - 1..] + rest;
    assert |s| == |t|;
    forall k | 0 <= k < |s| ensures s[k] == t[k] {
      if k < j - 1 {
      } else if k == j - 1 {
      } else if k == j {
      } else if k <= |prefix| {
        assert t[k] == prefix[k - 1];
      } else {
        assert t[k] == rest[k - |prefix| - 1];
      }
    }
  }

  /**
   * The inner loop of the sort: the task at `i` moves back past every earlier
   * task that the comparator puts after it.
   */
  method InsertAt(a: array<Task>, i: int)
    requires 0 <= i < a.Length
    modifies a
    ensures a[..i + 1] == Insert(old(a[i]), old(a[..i]))
    ensures a[i + 1..] == old(a[i + 1..])
  {
    ghost var prefix, rest := a[..i], a[i + 1..];
    var x := a[i];
    assert prefix[..i] == prefix && prefix[i..] == [];
    assert a[..] == prefix[..i] + [x] + prefix[i..] + rest;
    var j := i;
    while j > 0 && Compare(a[j - 1], a[j]) > 0
      invariant 0 <= j <= i && a.Length == |prefix| + 1 + |rest|
      invariant a[..] == prefix[..j] + [x] + prefix[j..] + rest
      invariant Insert(x, prefix) == Insert(x, prefix[..j]) + prefix[j..]
    {
      assert a[j - 1] == prefix[j - 1] && a[j] == x;
      InsertStepBack(x, prefix, j);
      SwapShape(prefix, x, rest, j);
      a[j - 1], a[j] := a[j], a[j - 1];
      j := j - 1;
    }
    assert j > 0 ==> a[j - 1] == prefix[j - 1] && a[j] == x;
    InsertStop(x, prefix, j);
    assert a[..i + 1] == a[..][..i + 1] && a[i + 1..] == a[..][i + 1..];
  }

  /** `tasks.sort(Compare)` on the bucket's array, in place. */
  method SortInPlace(a: array<Task>)
    modifies a
    ensures a[..] == SortTasks(old(a[..]))
  {
    ghost var input := a[..];
    var i := 0;
    while i < a.Length
      invariant 0 <= i <= a.Length
      invariant a[..i] == SortTasks(input[..i])
      invariant a[i..] == input[i..]
    {
      assert a[i] == input[i] && a[i + 1..] == input[i + 1..] by {
        assert a[i..][0] == a[i] && input[i..][0] == input[i];
        assert a[i + 1..] == a[i..][1..] && input[i + 1..] == input[i..][1..];
      }
      InsertAt(a, i);
      assert input[..i + 1][..i] == input[..i];
      i := i + 1;
    }
    assert a[..] == a[..a.Length] && input[..a.Length] == input;
  }

  // ---------------------------------------------------------------------------
  // The filter

  /** The status test: the task's status is selected, or no status option is. */
  predicate StatusMatch(t: Task, selected: seq<string>)
  {
    || StatusName(t.status) in selected
    || |selected| == 0
    || ("Active" !in selected && "Not Finished" !in selected && "Done" !in selected)
  }

  /**
   * The importance test as written: the task's importance string is itself
   * selected, or no importance option is.
   */
  predicate ImportanceMatchAsWritten(t: Task, selected: seq<string>)
  {
    || t.importance in selected
    || |selected| == 0
    || !(exists f :: f in selected && f in ImportanceOptions)
  }

  /**
   * The importance test as intended: a selected option also matches the
   * lower-case value the forms store ("Low" selects "low").
   */
  predicate ImportanceMatch(t: Task, selected: seq<string>)
  {
    || t.importance in selected
    || (exists f :: f in selected && f in ImportanceOptions && Text.ToLower(f) == t.importance)
    || |selected| == 0
    || !(exists f :: f in selected && f in ImportanceOptions)
  }

  /** The date tests: an empty bound sets no limit; a set bound is inclusive. */
  predicate DateMatch(t: Task, startDate: string, endDate: string)
  {
    && (startDate == "" || DateLe(startDate, t.dueDate))
    && (endDate == "" || DateLe(t.dueDate, endDate))
  }

  predicate Matches(t: Task, selected: seq<string>, startDate: string, endDate: string)
  {
    StatusMatch(t, selected) && ImportanceMatch(t, selected) && DateMatch(t, startDate, endDate)
  }

  /** `sortedTasks.filter(...)`. */
  function FilterTasks(s: seq<Task>, selected: seq<string>, startDate: string, endDate: string): seq<Task>
  {
    if |s| == 0 then []
    else if Matches(s[0], selected, startDate, endDate) then [s[0]] + FilterTasks(s[1..], selected, startDate, endDate)
    else FilterTasks(s[1..], selected, startDate, endDate)
  }

  /**
   * The filtered bucket is a subsequence of the sorted one: it keeps, in order
   * and with their multiplicity, exactly the tasks that pass every test.
   */
  lemma {:induction false} FilterTasksKeepsMatches(s: seq<Task>, selected: seq<string>, startDate: string, endDate: string)
    ensures IsSubsequence(FilterTasks(s, selected, startDate, endDate), s)
    ensures forall t :: (multiset(FilterTasks(s, selected, startDate, endDate))[t] ==
                          if Matches(t, selected, startDate, endDate) then multiset(s)[t] else 0)
  {
    if |s| > 0 {
      var r := FilterTasks(s[1..], selected, startDate, endDate);
      FilterTasksKeepsMatches(s[1..], selected, startDate, endDate);
      assert s == [s[0]] + s[1..];
      if Matches(s[0], selected, startDate, endDate) {
        assert ([s[0]] + r)[1..] == r;
      } else {
        SubsequenceOfTail(r, s);
      }
    }
  }

  /** With nothing selected and no dates set, the filter keeps the whole bucket. */
  lemma {:induction false} NoFiltersKeepAll(s: seq<Task>)
    ensures FilterTasks(s, [], "", "") == s
  {
    if |s| > 0 {
      NoFiltersKeepAll(s[1..]);
      assert s == [s[0]] + s[1..];
    }
  }

  /** A selection holding no status option puts no constraint on the status. */
  lemma NoStatusOptionPassesStatus(t: Task, selected: seq<string>)
    requires forall f :: f in selected ==> f !in StatusOptions
    ensures StatusMatch(t, selected)
  {
    assert "Active" in StatusOptions && "Not Finished" in StatusOptions && "Done" in StatusOptions;
  }

  /** A selection holding no importance option puts no constraint on the importance. */
  lemma NoImportanceOptionPassesImportance(t: Task, selected: seq<string>)
    requires forall f :: f in selected ==> f !in ImportanceOptions
    ensures ImportanceMatch(t, selected)
  {
  }

  /** Both date bounds are inclusive: a task due on a bound's day passes it. */
  lemma DateBoundsInclusive(t: Task)
    requires IsIsoDate(t.dueDate)
    ensures DateMatch(t, t.dueDate, "") && DateMatch(t, "", t.dueDate) && DateMatch(t, t.dueDate, t.dueDate)
  {
    LexLessIrreflexive(t.dueDate);
  }

  /** A set bound excludes exactly the days on its far side. */
  lemma DateMatchIsDayRange(t: Task, startDate: string, endDate: string)
    requires IsIsoDate(startDate) && IsIsoDate(endDate)
    ensures DateMatch(t, startDate, endDate) <==>
      IsIsoDate(t.dueDate) && DayKey(startDate) <= DayKey(t.dueDate) <= DayKey(endDate)
  {
    DateLeIsDayOrder(startDate, t.dueDate);
    DateLeIsDayOrder(t.dueDate, endDate);
  }

  /** The selection holds only the labels the filter offers. */
  predicate OnlyOptions(selected: seq<string>)
  {
    forall f :: f in selected ==> f in StatusOptions || f in ImportanceOptions
  }

  /**
   * As written, once any importance option is selected the importance test
   * fails for every task the forms create, whose importance is "low",
   * "medium" or "high".
   */
  lemma ImportanceAsWrittenHidesFormTasks(t: Task, selected: seq<string>)
    requires OnlyOptions(selected)
    requires t.importance in ["low", "medium", "high"]
    requires exists f :: f in selected && f in ImportanceOptions
    ensures !ImportanceMatchAsWritten(t, selected)
  {
  }

  /**
   * As intended, with an importance option selected a form-created task passes
   * exactly when the option for its importance is among those selected.
   */
  lemma ImportanceSelectsStoredValue(t: Task, selected: seq<string>, option: string)
    requires OnlyOptions(selected)
    requires option in ImportanceOptions && t.importance == Text.ToLower(option)
    requires exists f :: f in selected && f in ImportanceOptions
    ensures ImportanceMatch(t, selected) <==> option in selected
  {
    assert Text.ToLower("Low") == "low";
    assert Text.ToLower("Medium") == "medium";
    assert Text.ToLower("High") == "high";
    if t.importance in selected {
      assert t.importance in StatusOptions || t.importance in ImportanceOptions;
    }
  }

  // ---------------------------------------------------------------------------
  // The page's view and its table

  /**
   * `filteredTasks`: for every category, in the table's key order, its sorted
   * bucket passed through the filter.
   */
  function FilteredTasks(table: Table, selected: seq<string>, startDate: string, endDate: string): seq<Entry>
    requires table.Valid()
  {
    seq(|table.order|, i requires 0 <= i < |table.order| =>
      Entry(table.order[i], FilterTasks(SortTasks(table.buckets[table.order[i]]), selected, startDate, endDate)))
  }

  /**
   * Every category appears in the view exactly once, in key order, even when
   * its filtered list is empty, and each list is drawn from its own bucket.
   */
  lemma FilteredTasksCoversCategories(table: Table, selected: seq<string>, startDate: string, endDate: string)
    requires table.Valid()
    ensures var view := FilteredTasks(table, selected, startDate, endDate);
      && |view| == |table.order|
      && (forall i :: 0 <= i < |view| ==> view[i].category == table.order[i])
      && (forall i, j :: 0 <= i < j < |view| ==> view[i].category != view[j].category)
      && (forall i, t :: 0 <= i < |view| && t in view[i].tasks ==> t in table.buckets[view[i].category])
  {
    var view := FilteredTasks(table, selected, startDate, endDate);
    forall i, t | 0 <= i < |view| && t in view[i].tasks
      ensures t in table.buckets[view[i].category]
    {
      var bucket := table.buckets[table.order[i]];
      FilterTasksKeepsMatches(SortTasks(bucket), selected, startDate, endDate);
      SubsequenceMembers(view[i].tasks, SortTasks(bucket));
      SortTasksPermutation(bucket);
      assert t in multiset(SortTasks(bucket));
    }
  }

  /** The table with every bucket sorted, as the render's in-place sort leaves it. */
  function SortAll(table: Table): Table
  {
    table.(buckets := map k | k in table.buckets :: SortTasks(table.buckets[k]))
  }

  /** The add-task updater: push onto the category's bucket, or create it. */
  function AddTask(prev: Table, formData: Task): (next: Table)
    requires prev.Valid()
    ensures next.Valid()
  {
    var category := formData.category;
    if category in prev.buckets then
      prev.(buckets := prev.buckets[category := prev.buckets[category] + [formData]])
    else
      Table(prev.order + [category], prev.buckets[category := [formData]])
  }

  /**
   * Adding a task appends it to its category's bucket, creating a one-task
   * bucket at the end of the key order when the category is new, and leaves
   * every other bucket unchanged.
   */
  lemma AddTaskAppends(prev: Table, formData: Task)
    requires prev.Valid()
    ensures var next := AddTask(prev, formData);
      && next.buckets.Keys == prev.buckets.Keys + {formData.category}
      && next.buckets[formData.category] ==
           (if formData.category in prev.buckets then prev.buckets[formData.category] else []) + [formData]
      && (forall k :: k in prev.buckets && k != formData.category ==> next.buckets[k] == prev.buckets[k])
      && next.order == if formData.category in prev.buckets then prev.order else prev.order + [formData.category]
  {
  }

  /** A bucket's tasks copied into an array and sorted there. */
  method SortedCopy(tasks: seq<Task>) returns (sorted: seq<Task>)
    ensures sorted == SortTasks(tasks)
  {
    var bucket := new Task[|tasks|](j requires 0 <= j < |tasks| => tasks[j]);
    assert bucket[..] == tasks;
    SortInPlace(bucket);
    sorted := bucket[..];
  }

  /** A table whose every key's bucket has been sorted is `SortAll` of the original. */
  lemma SortedEverywhere(start: Table, table: Table)
    requires start.Valid()
    requires table.order == start.order && table.buckets.Keys == start.buckets.Keys
    requires forall j :: 0 <= j < |start.order| ==>
      table.buckets[start.order[j]] == SortTasks(start.buckets[start.order[j]])
    ensures table == SortAll(start)
  {
    forall k | k in start.buckets ensures table.buckets[k] == SortTasks(start.buckets[k]) {
      var j :| 0 <= j < |start.order| && start.order[j] == k;
    }
  }

  /** The render's progress: the first `i` buckets of `start` are sorted in `table`, the rest untouched. */
  ghost predicate SortedUpTo(start: Table, table: Table, i: int)
    requires start.Valid() && 0 <= i <= |start.order|
  {
    && table.order == start.order && table.buckets.Keys == start.buckets.Keys
    && (forall j :: 0 <= j < i ==> table.buckets[start.order[j]] == SortTasks(start.buckets[start.order[j]]))
    && (forall j :: i <= j < |start.order| ==> table.buckets[start.order[j]] == start.buckets[start.order[j]])
  }

  /** Sorting the next bucket advances the render by one category. */
  lemma SortNextBucket(start: Table, table: Table, i: int, sorted: seq<Task>)
    requires start.Valid() && 0 <= i < |start.order| && SortedUpTo(start, table, i)
    requires sorted == SortTasks(start.buckets[start.order[i]])
    ensures SortedUpTo(start, table.(buckets := table.buckets[start.order[i] := sorted]), i + 1)
  {
    var next := table.(buckets := table.buckets[start.order[i] := sorted]);
    forall j | 0 <= j < |start.order| && j != i ensures next.buckets[start.order[j]] == table.buckets[start.order[j]] {
      assert start.order[j] != start.order[i];
    }
  }

  /** The page component's state. */
  class CategoriesPage {
    var tasksByCategory: Table
    var showTaskForm: bool
    var successMessage: string
    var errorMessage: string

    predicate Valid()
      reads this
    {
      tasksByCategory.Valid()
    }

    constructor ()
      ensures Valid()
      ensures tasksByCategory == Table([], map[]) && !showTaskForm
      ensures successMessage == "" && errorMessage == ""
    {
      tasksByCategory := Table([], map[]);
      showTaskForm := false;
      successMessage := "";
      errorMessage := "";
    }

    /** `fetchTasksByCategory`: the fetched object replaces the table only on an ok response. */
    method FetchTasksByCategory(reply: Reply, fetched: Table)
      requires Valid() && fetched.Valid()
      modifies this`tasksByCategory
      ensures Valid()
      ensures tasksByCategory == if reply == Ok then fetched else old(tasksByCategory)
    {
      if reply == Ok {
        tasksByCategory := fetched;
      }
    }

    /** `handleTaskFormSubmit`: the table changes only when the server accepted the task. */
    method HandleTaskFormSubmit(formData: Task, reply: Reply)
      requires Valid()
      modifies this
      ensures Valid()
      ensures reply == Ok ==>
        && tasksByCategory == AddTask(old(tasksByCategory), formData)
        && !showTaskForm && successMessage == "Task saved successfully" && errorMessage == old(errorMessage)
      ensures reply == NotOk ==>
        && tasksByCategory == old(tasksByCategory) && showTaskForm == old(showTaskForm)
        && successMessage == old(successMessage) && errorMessage == "Failed to add task"
      ensures reply == Threw ==>
        && tasksByCategory == old(tasksByCategory) && showTaskForm == old(showTaskForm)
        && successMessage == old(successMessage) && errorMessage == old(errorMessage)
    {
      match reply
      case Ok =>
        tasksByCategory := AddTask(tasksByCategory, formData);
        showTaskForm := false;
        successMessage := "Task saved successfully";
      case NotOk =>
        errorMessage := "Failed to add task";
      case Threw =>
    }

    /**
     * A row's `handleSaveTask`, called once the server accepted the edit of
     * `edited` into `updated`.
     */
    method SaveTask(edited: Task, updated: Task)
      requires Valid()
      modifies this`tasksByCategory, this`successMessage, this`errorMessage
      ensures Valid()
      ensures tasksByCategory == TaskItem.SaveEditOf(old(tasksByCategory), edited, updated)
      ensures successMessage == "Task saved successfully" && errorMessage == ""
    {
      tasksByCategory := TaskItem.SaveEditOf(tasksByCategory, edited, updated);
      successMessage := "Task saved successfully";
      errorMessage := "";
    }

    /** A row's `handleDeleteTask`: nothing changes unless confirmed and answered ok. */
    method DeleteTask(id: TaskId, confirmed: bool, reply: Reply)
      requires Valid()
      modifies this`tasksByCategory, this`successMessage, this`errorMessage
      ensures Valid()
      ensures confirmed && reply == Ok ==>
        && tasksByCategory.order == old(tasksByCategory.order)
        && tasksByCategory.buckets.Keys == old(tasksByCategory.buckets.Keys)
        && (forall k :: k in old(tasksByCategory.buckets) ==>
              tasksByCategory.buckets[k] == TaskItem.RemoveById(old(tasksByCategory.buckets[k]), id))
        && successMessage == "Task successfully deleted." && errorMessage == old(errorMessage)
      ensures !(confirmed && reply == Ok) ==>
        && tasksByCategory == old(tasksByCategory) && successMessage == old(successMessage)
        && errorMessage == (if !confirmed then old(errorMessage)
                            else if reply == NotOk then "Failed to delete the task."
                            else "Error deleting the task.")
    {
      if confirmed {
        match reply
        case Ok =>
          tasksByCategory := TaskItem.DeleteFromAll(tasksByCategory, id);
          successMessage := "Task successfully deleted.";
        case NotOk =>
          errorMessage := "Failed to delete the task.";
        case Threw =>
          errorMessage := "Error deleting the task.";
      }
    }

    /** A row's `handleCompleteTask`: nothing changes unless confirmed and answered ok. */
    method CompleteTask(id: TaskId, confirmed: bool, reply: Reply)
      requires Valid()
      modifies this`tasksByCategory, this`successMessage, this`errorMessage
      ensures Valid()
      ensures confirmed && reply == Ok ==>
        && tasksByCategory.order == old(tasksByCategory.order)
        && tasksByCategory.buckets.Keys == old(tasksByCategory.buckets.Keys)
        && (forall k :: k in old(tasksByCategory.buckets) ==>
              tasksByCategory.buckets[k] == TaskItem.MarkDone(old(tasksByCategory.buckets[k]), id))
        && successMessage == "Task marked as completed." && errorMessage == old(errorMessage)
      ensures !(confirmed && reply == Ok) ==>
        && tasksByCategory == old(tasksByCategory) && successMessage == old(successMessage)
        && errorMessage == (if !confirmed then old(errorMessage)
                            else if reply == NotOk then "Failed to mark the task as completed."
                            else "Error marking the task as completed.")
    {
      if confirmed {
        match reply
        case Ok =>
          tasksByCategory := TaskItem.CompleteInAll(tasksByCategory, id);
          successMessage := "Task marked as completed.";
        case NotOk =>
          errorMessage := "Failed to mark the task as completed.";
        case Threw =>
          errorMessage := "Error marking the task as completed.";
      }
    }

    /**
     * Computing `filteredTasks` on a render: each bucket's array is sorted in
     * place (so the table itself is left sorted), then filtered.
     */
    method RenderFilteredTasks(selected: seq<string>, startDate: string, endDate: string) returns (view: seq<Entry>)
      requires Valid()
      modifies this`tasksByCategory
      ensures Valid()
      ensures tasksByCategory == SortAll(old(tasksByCategory))
      ensures view == FilteredTasks(old(tasksByCategory), selected, startDate, endDate)
    {
      var start := tasksByCategory;
      var table := start;
      var entries := Entries(table);
      view := [];
      var i := 0;
      while i < |entries|
        invariant 0 <= i <= |entries| == |start.order|
        invariant start.Valid() && entries == Entries(start)
        invariant SortedUpTo(start, table, i)
        invariant view == FilteredTasks(start, selected, startDate, endDate)[..i]
      {
        var category, tasks := entries[i].category, entries[i].tasks;
        var sorted := SortedCopy(tasks);
        SortNextBucket(start, table, i, sorted);
        table := table.(buckets := table.buckets[category := sorted]);
        view := view + [Entry(category, FilterTasks(sorted, selected, startDate, endDate))];
        i := i + 1;
      }
      SortedEverywhere(start, table);
      tasksByCategory := table;
    }
  }
}

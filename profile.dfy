/**
 * The profile page's statistics: the per-status counts for one year, the
 * category list, the per-category counts for the bar chart and its y-axis step.
 */
module Profile {
  import opened Tasks
  import opened Dates

  /** The tasks whose due date falls in `year`, in their order. */
  function TasksInYear(tasks: seq<Task>, year: int): seq<Task>
  {
    if |tasks| == 0 then []
    else
      var last := tasks[|tasks| - 1];
      TasksInYear(tasks[..|tasks| - 1], year) + (if InYear(last.dueDate, year) then [last] else [])
  }

  /** The number of tasks with the given status. */
  function CountStatus(tasks: seq<Task>, status: Status): nat
  {
    if |tasks| == 0 then 0
    else CountStatus(tasks[..|tasks| - 1], status) + (if tasks[|tasks| - 1].status == status then 1 else 0)
  }

  /** `[...new Set(list)]`: each value once, at its first occurrence. */
  function Dedup(list: seq<string>): (d: seq<string>)
    ensures Distinct(d)
    ensures forall x :: x in d <==> x in list
  {
    if |list| == 0 then []
    else
      var init := list[..|list| - 1];
      assert list == init + [list[|list| - 1]];
      var d := Dedup(init);
      if list[|list| - 1] in d then d else d + [list[|list| - 1]]
  }

  function Categories(tasks: seq<Task>): seq<string>
  {
    seq(|tasks|, i requires 0 <= i < |tasks| => tasks[i].category)
  }

  /** The chart's category labels, taken over all tasks, not only the selected year's. */
  function DistinctCategories(tasks: seq<Task>): seq<string>
  {
    Dedup(Categories(tasks))
  }

  datatype Statistics = Statistics(active: nat, notFinished: nat, done: nat, categories: seq<string>, total: nat)

  /** `calculateStatistics(tasks)` with the year selected for the status chart. */
  function CalculateStatistics(tasks: seq<Task>, selectedYearTasks: int): (stats: Statistics)
  {
    var inYear := TasksInYear(tasks, selectedYearTasks);
    Statistics(
      CountStatus(inYear, Active),
      CountStatus(inYear, NotFinished),
      CountStatus(inYear, Done),
      DistinctCategories(tasks),
      |inYear|)
  }

  /** One bar: the tasks of `category` due in `year`. */
  function CategoryCount(tasks: seq<Task>, category: string, year: int): nat
  {
    if |tasks| == 0 then 0
    else
      var last := tasks[|tasks| - 1];
      CategoryCount(tasks[..|tasks| - 1], category, year)
      + (if last.category == category && InYear(last.dueDate, year) then 1 else 0)
  }

  /** The bar chart's data: one count per category label. */
  function CategoryChartData(tasks: seq<Task>, categories: seq<string>, year: int): seq<nat>
  {
    if |categories| == 0 then []
    else [CategoryCount(tasks, categories[0], year)] + CategoryChartData(tasks, categories[1..], year)
  }

  function Sum(data: seq<nat>): nat
  {
    if |data| == 0 then 0 else data[0] + Sum(data[1..])
  }

  /** `Math.max(...data)`. */
  function MaxOf(data: seq<nat>): (m: nat)
    requires |data| > 0
    ensures forall i :: 0 <= i < |data| ==> data[i] <= m
    ensures exists i :: 0 <= i < |data| && data[i] == m
  {
    if |data| == 1 then data[0]
    else
      var rest := MaxOf(data[1..]);
      assert forall i :: 1 <= i < |data| ==> data[i] == data[1..][i - 1];
      if data[0] >= rest then data[0] else rest
  }

  /** `Math.ceil(maxDataValue / 5)`: the least step that reaches the tallest bar in five steps. */
  function StepSize(data: seq<nat>): (step: nat)
    requires |data| > 0
    ensures 5 * step >= MaxOf(data)
    ensures step == 0 || 5 * (step - 1) < MaxOf(data)
  {
    (MaxOf(data) + 4) / 5
  }

  // ---------------------------------------------------------------------------

  /** The year filter keeps exactly the tasks due in that year, as often as they occur. */
  lemma {:induction false} TasksInYearCount(tasks: seq<Task>, year: int)
    ensures forall t :: (multiset(TasksInYear(tasks, year))[t] ==
                          if InYear(t.dueDate, year) then multiset(tasks)[t] else 0)
  {
    if |tasks| > 0 {
      TasksInYearCount(tasks[..|tasks| - 1], year);
      assert tasks == tasks[..|tasks| - 1] + [tasks[|tasks| - 1]];
    }
  }

  /** The three status counts partition the tasks: they sum to the number of tasks. */
  lemma {:induction false} StatusCountsPartition(tasks: seq<Task>)
    ensures CountStatus(tasks, Active) + CountStatus(tasks, NotFinished) + CountStatus(tasks, Done) == |tasks|
  {
    if |tasks| > 0 {
      StatusCountsPartition(tasks[..|tasks| - 1]);
    }
  }

  /**
   * The statistics count only the selected year's tasks, and the three status
   * counts add up to that year's total.
   */
  lemma StatisticsAddUp(tasks: seq<Task>, selectedYearTasks: int)
    ensures var stats := CalculateStatistics(tasks, selectedYearTasks);
      && stats.active + stats.notFinished + stats.done == stats.total
      && stats.total == |TasksInYear(tasks, selectedYearTasks)|
      && (forall t :: t in TasksInYear(tasks, selectedYearTasks) <==> t in tasks && InYear(t.dueDate, selectedYearTasks))
  {
    StatusCountsPartition(TasksInYear(tasks, selectedYearTasks));
    TasksInYearCount(tasks, selectedYearTasks);
    forall t ensures t in TasksInYear(tasks, selectedYearTasks) <==> multiset(TasksInYear(tasks, selectedYearTasks))[t] > 0 { }
  }

  /** `Dedup` lists the values in the order of their first occurrences. */
  lemma {:induction false} DedupFirstOccurrenceOrder(list: seq<string>)
    ensures forall i, j :: 0 <= i < j < |Dedup(list)| ==>
      FirstIndex(list, Dedup(list)[i]) < FirstIndex(list, Dedup(list)[j])
  {
    if |list| > 0 {
      var init, x := list[..|list| - 1], list[|list| - 1];
      var d := Dedup(init);
      DedupFirstOccurrenceOrder(init);
      forall y | y in init ensures FirstIndex(list, y) == FirstIndex(init, y) {
        FirstIndexOfPrefix(init, x, y);
      }
      if x !in d {
        assert x !in init;
        forall i | 0 <= i < |d| ensures d[i] in list && FirstIndex(list, d[i]) < FirstIndex(list, x) {
          assert d[i] in init;
          assert FirstIndex(list, x) == |init| by { assert list[|init|] == x; }
        }
      }
    }
  }

  lemma FirstIndexOfPrefix(init: seq<string>, x: string, y: string)
    requires y in init
    ensures FirstIndex(init + [x], y) == FirstIndex(init, y)
  {
    var i := FirstIndex(init, y);
    var r := init + [x];
    assert r[..i] == init[..i];
    var k := FirstIndex(r, y);
    assert r[i] == y;
  }

  /** The category labels are the categories of all tasks, each once, in first-occurrence order. */
  lemma DistinctCategoriesProperties(tasks: seq<Task>)
    ensures Distinct(DistinctCategories(tasks))
    ensures forall c :: c in DistinctCategories(tasks) <==> exists t :: t in tasks && t.category == c
  {
    forall c | c in Categories(tasks) ensures exists t :: t in tasks && t.category == c {
      var i :| 0 <= i < |tasks| && Categories(tasks)[i] == c;
      assert tasks[i] in tasks;
    }
    forall t | t in tasks ensures t.category in Categories(tasks) {
      var i :| 0 <= i < |tasks| && tasks[i] == t;
      assert Categories(tasks)[i] == t.category;
    }
  }

  /** Each bar counts exactly the tasks of its category due in the year. */
  lemma {:induction false} CategoryChartDataAt(tasks: seq<Task>, categories: seq<string>, year: int)
    ensures |CategoryChartData(tasks, categories, year)| == |categories|
    ensures forall i :: 0 <= i < |categories| ==>
      CategoryChartData(tasks, categories, year)[i] == CategoryCount(tasks, categories[i], year)
  {
    if |categories| > 0 {
      CategoryChartDataAt(tasks, categories[1..], year);
    }
  }

  /** One more task adds one to the bars' total when its category has a bar and it is due in the year. */
  lemma {:induction false} ChartTotalStep(tasks: seq<Task>, t: Task, categories: seq<string>, year: int)
    requires Distinct(categories)
    ensures Sum(CategoryChartData(tasks + [t], categories, year)) ==
      Sum(CategoryChartData(tasks, categories, year)) + (if t.category in categories && InYear(t.dueDate, year) then 1 else 0)
  {
    if |categories| > 0 {
      ChartTotalStep(tasks, t, categories[1..], year);
      assert (tasks + [t])[..|tasks|] == tasks;
      assert t.category in categories <==> t.category == categories[0] || t.category in categories[1..];
    }
  }

  lemma {:induction false} ChartOfNoTasks(categories: seq<string>, year: int)
    ensures Sum(CategoryChartData([], categories, year)) == 0
  {
    if |categories| > 0 {
      ChartOfNoTasks(categories[1..], year);
    }
  }

  /**
   * When every task's category has a bar, the bars add up to the number of
   * tasks due in the year: no task of the year is counted twice or missed.
   */
  lemma {:induction false} ChartTotalIsYearTotal(tasks: seq<Task>, categories: seq<string>, year: int)
    requires Distinct(categories)
    requires forall t :: t in tasks ==> t.category in categories
    ensures Sum(CategoryChartData(tasks, categories, year)) == |TasksInYear(tasks, year)|
  {
    if |tasks| == 0 {
      ChartOfNoTasks(categories, year);
    } else {
      var init, last := tasks[..|tasks| - 1], tasks[|tasks| - 1];
      assert forall t :: t in init ==> t in tasks;
      ChartTotalIsYearTotal(init, categories, year);
      assert tasks == init + [last];
      assert last in tasks;
      ChartTotalStep(init, last, categories, year);
      assert |TasksInYear(tasks, year)| == |TasksInYear(init, year)| + (if InYear(last.dueDate, year) then 1 else 0);
    }
  }

  /** With one year selected for both charts, the bar chart accounts for the year's total. */
  lemma ChartAccountsForYear(tasks: seq<Task>, year: int)
    ensures Sum(CategoryChartData(tasks, DistinctCategories(tasks), year)) == CalculateStatistics(tasks, year).total
  {
    DistinctCategoriesProperties(tasks);
    ChartTotalIsYearTotal(tasks, DistinctCategories(tasks), year);
  }
}

/**
 * The search box: a query, trimmed and lower-cased, matched against every
 * task's category and name.
 */
module Search {
  import opened Tasks
  import opened Text

  /** `searchQuery.trim().toLowerCase()`. */
  function Normalize(searchQuery: string): string
  {
    ToLower(Trim(searchQuery))
  }

  /** The two fields a query is matched against. */
  datatype Field = ByCategory | ByName

  function FieldText(t: Task, field: Field): string
  {
    match field
    case ByCategory => t.category
    case ByName => t.taskName
  }

  /** `task.category.toLowerCase().includes(query)`, or the same on `taskName`. */
  predicate Hit(t: Task, query: string, field: Field)
  {
    Contains(ToLower(FieldText(t, field)), query)
  }

  /** `tasks.filter(...)` with one of the two tests. */
  function Matching(tasks: seq<Task>, query: string, field: Field): seq<Task>
  {
    if |tasks| == 0 then []
    else if Hit(tasks[0], query, field) then [tasks[0]] + Matching(tasks[1..], query, field)
    else Matching(tasks[1..], query, field)
  }

  /** One bucket's contribution: its category matches, then its name matches. */
  function BucketResults(tasks: seq<Task>, query: string): seq<Task>
  {
    Matching(tasks, query, ByCategory) + Matching(tasks, query, ByName)
  }

  /** The `flatMap` over the table's entries. */
  function FlatResults(entries: seq<Entry>, query: string): seq<Task>
  {
    if |entries| == 0 then []
    else BucketResults(entries[0].tasks, query) + FlatResults(entries[1..], query)
  }

  /** Every task of the table, bucket after bucket. */
  function AllTasks(entries: seq<Entry>): seq<Task>
  {
    if |entries| == 0 then [] else entries[0].tasks + AllTasks(entries[1..])
  }

  /** What `handleSearch` passes to `handleSearchResults` and the two flags it sets. */
  datatype SearchOutcome = SearchOutcome(results: seq<Task>, emptyQueryError: bool, noResults: bool)

  function HandleSearch(table: Table, searchQuery: string): (out: SearchOutcome)
    requires table.Valid()
    ensures out.emptyQueryError ==> out.results == [] && !out.noResults
    ensures out.noResults ==> out.results == []
  {
    var query := Normalize(searchQuery);
    if query == "" then SearchOutcome([], true, false)
    else
      var results := FlatResults(Entries(table), query);
      if |results| > 0 then SearchOutcome(results, false, false)
      else SearchOutcome([], false, true)
  }

  // ---------------------------------------------------------------------------

  /** Normalising a normalised query changes nothing. */
  lemma NormalizeIdempotent(searchQuery: string)
    ensures Normalize(Normalize(searchQuery)) == Normalize(searchQuery)
  {
    var t := Trim(searchQuery);
    TrimProperties(searchQuery);
    ToLowerOfTrimmed(t);
    TrimProperties(ToLower(t));
  }

  /** The query is empty exactly when the typed text is all white space. */
  lemma NormalizeEmptyIffBlank(searchQuery: string)
    ensures Normalize(searchQuery) == "" <==> AllWhitespace(searchQuery)
  {
    TrimProperties(searchQuery);
  }

  /** A filter keeps each task as often as the bucket holds it if it hits, else never. */
  lemma {:induction false} MatchingCount(tasks: seq<Task>, query: string, field: Field)
    ensures forall t :: (multiset(Matching(tasks, query, field))[t] ==
                          if Hit(t, query, field) then multiset(tasks)[t] else 0)
  {
    if |tasks| > 0 {
      MatchingCount(tasks[1..], query, field);
      assert tasks == [tasks[0]] + tasks[1..];
    }
  }

  /**
   * In the flattened results a task occurs once for each of its copies in the
   * table that hits on the category, plus once for each that hits on the name.
   */
  lemma {:induction false} FlatResultsCount(entries: seq<Entry>, query: string)
    ensures forall t :: (multiset(FlatResults(entries, query))[t] ==
                          (if Hit(t, query, ByCategory) then multiset(AllTasks(entries))[t] else 0)
                          + (if Hit(t, query, ByName) then multiset(AllTasks(entries))[t] else 0))
  {
    if |entries| > 0 {
      FlatResultsCount(entries[1..], query);
      MatchingCount(entries[0].tasks, query, ByCategory);
      MatchingCount(entries[0].tasks, query, ByName);
    }
  }

  /** A filter keeps the tasks it keeps in their order in the bucket. */
  lemma {:induction false} MatchingInOrder(tasks: seq<Task>, query: string, field: Field)
    ensures IsSubsequence(Matching(tasks, query, field), tasks)
  {
    if |tasks| > 0 {
      var rest := Matching(tasks[1..], query, field);
      MatchingInOrder(tasks[1..], query, field);
      if Hit(tasks[0], query, field) {
        assert ([tasks[0]] + rest)[1..] == rest;
      } else {
        SubsequenceOfTail(rest, tasks);
      }
    }
  }

  lemma {:induction false} FlatResultsAppend(a: seq<Entry>, b: seq<Entry>, query: string)
    ensures FlatResults(a + b, query) == FlatResults(a, query) + FlatResults(b, query)
  {
    if |a| > 0 {
      assert (a + b)[1..] == a[1..] + b;
      FlatResultsAppend(a[1..], b, query);
    } else {
      assert a + b == b;
    }
  }

  /**
   * The results are built entry by entry in key order: everything from the
   * entries before entry `i`, then entry `i`'s category matches, then its name
   * matches, then everything from the entries after it.
   */
  lemma FlatResultsOrder(entries: seq<Entry>, query: string, i: int)
    requires 0 <= i < |entries|
    ensures FlatResults(entries, query) ==
      FlatResults(entries[..i], query)
      + Matching(entries[i].tasks, query, ByCategory) + Matching(entries[i].tasks, query, ByName)
      + FlatResults(entries[i + 1..], query)
  {
    assert entries == entries[..i] + ([entries[i]] + entries[i + 1..]);
    FlatResultsAppend(entries[..i], [entries[i]] + entries[i + 1..], query);
    FlatResultsAppend([entries[i]], entries[i + 1..], query);
    assert FlatResults([entries[i]], query) == BucketResults(entries[i].tasks, query) by {
      assert [entries[i]][1..] == [];
    }
  }

  /** `AllTasks` of the table's entries holds exactly the tasks of its buckets. */
  lemma {:induction false} AllTasksMembers(entries: seq<Entry>)
    ensures forall t :: t in AllTasks(entries) <==> exists i :: 0 <= i < |entries| && t in entries[i].tasks
  {
    if |entries| > 0 {
      var rest := entries[1..];
      AllTasksMembers(rest);
      forall t ensures t in AllTasks(entries) <==> exists i :: 0 <= i < |entries| && t in entries[i].tasks {
        assert t in AllTasks(entries) <==> t in entries[0].tasks || t in AllTasks(rest);
        if t in AllTasks(rest) {
          var i :| 0 <= i < |rest| && t in rest[i].tasks;
          assert t in entries[i + 1].tasks;
        }
        if exists i :: 0 <= i < |entries| && t in entries[i].tasks {
          var i :| 0 <= i < |entries| && t in entries[i].tasks;
          if i > 0 {
            assert t in rest[i - 1].tasks;
          }
        }
      }
    }
  }

  /** The tasks of the table's entries are the tasks of its buckets. */
  lemma TableTasks(table: Table)
    requires table.Valid()
    ensures forall t :: t in AllTasks(Entries(table)) <==>
      exists k :: k in table.buckets && t in table.buckets[k]
  {
    var entries := Entries(table);
    AllTasksMembers(entries);
    forall t, k | k in table.buckets && t in table.buckets[k] ensures t in AllTasks(entries) {
      var i :| 0 <= i < |table.order| && table.order[i] == k;
      assert t in entries[i].tasks;
    }
  }

  /** A task is among the flattened results exactly when it is in the table and hits. */
  lemma FlatResultsMembers(entries: seq<Entry>, query: string)
    ensures forall t :: t in FlatResults(entries, query) <==>
      t in AllTasks(entries) && (Hit(t, query, ByCategory) || Hit(t, query, ByName))
    ensures forall t :: t in FlatResults(entries, query) && Hit(t, query, ByCategory) && Hit(t, query, ByName) ==>
      multiset(FlatResults(entries, query))[t] >= 2
  {
    FlatResultsCount(entries, query);
    forall t ensures t in FlatResults(entries, query) <==> multiset(FlatResults(entries, query))[t] > 0 { }
    forall t ensures t in AllTasks(entries) <==> multiset(AllTasks(entries))[t] > 0 { }
  }

  /**
   * For a query that is not blank: a task is among the results exactly when
   * it is in some bucket and its category or its name contains the query; a
   * task hitting on both appears at least twice; the no-results flag is set
   * exactly when nothing hits. Otherwise the results are the flattened
   * matches, in the order `FlatResultsOrder` describes.
   */
  lemma HandleSearchResults(table: Table, searchQuery: string)
    requires table.Valid()
    requires Normalize(searchQuery) != ""
    ensures var out := HandleSearch(table, searchQuery);
      var query := Normalize(searchQuery);
      && !out.emptyQueryError
      && (forall t :: t in out.results <==>
            (exists k :: k in table.buckets && t in table.buckets[k])
            && (Hit(t, query, ByCategory) || Hit(t, query, ByName)))
      && (forall t :: t in out.results && Hit(t, query, ByCategory) && Hit(t, query, ByName) ==>
            multiset(out.results)[t] >= 2)
      && (out.noResults <==> forall t :: t in AllTasks(Entries(table)) ==>
            !Hit(t, query, ByCategory) && !Hit(t, query, ByName))
      && (!out.noResults ==> out.results == FlatResults(Entries(table), query))
  {
    var query := Normalize(searchQuery);
    var flat := FlatResults(Entries(table), query);
    TableTasks(table);
    FlatResultsMembers(Entries(table), query);
    if |flat| > 0 {
      assert flat[0] in flat;
    }
  }

  /** A blank query sets only the empty-query flag and shows no results. */
  lemma HandleSearchBlank(table: Table, searchQuery: string)
    requires table.Valid()
    requires AllWhitespace(searchQuery)
    ensures HandleSearch(table, searchQuery) == SearchOutcome([], true, false)
  {
    NormalizeEmptyIffBlank(searchQuery);
  }
}

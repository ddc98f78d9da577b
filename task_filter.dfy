/**
 * The filter panel: the selected status and importance options and the date
 * range, with the check that keeps the range in order.
 */
module Filter {
  import opened Tasks
  import opened Dates

  /**
   * `handleOptionChange`'s update of a copy of the selection: remove the first
   * occurrence of a present option with `splice`, or `push` an absent one.
   */
  function Toggle(s: seq<string>, option: string): seq<string>
  {
    if option in s then s[..FirstIndex(s, option)] + s[FirstIndex(s, option) + 1..] else s + [option]
  }

  /** Splicing one element out of a sequence without repeats. */
  lemma SpliceMembers(s: seq<string>, i: int)
    requires Distinct(s) && 0 <= i < |s|
    ensures Distinct(s[..i] + s[i + 1..])
    ensures forall x :: x in s[..i] + s[i + 1..] <==> x in s && x != s[i]
  {
    var r := s[..i] + s[i + 1..];
    assert forall j :: 0 <= j < |r| ==> r[j] == if j < i then s[j] else s[j + 1];
    forall x | x in s && x != s[i] ensures x in r {
      var j :| 0 <= j < |s| && s[j] == x;
      if j < i { assert r[j] == x; } else { assert r[j - 1] == x; }
    }
  }

  /**
   * Toggling adds an absent option at the end and takes a present option out
   * of a selection without repeats; every other option keeps its membership,
   * and the selection stays without repeats.
   */
  lemma ToggleMembers(s: seq<string>, option: string)
    requires Distinct(s)
    ensures Distinct(Toggle(s, option))
    ensures option in Toggle(s, option) <==> option !in s
    ensures option !in s ==> Toggle(s, option) == s + [option]
    ensures forall x :: x != option ==> (x in Toggle(s, option) <==> x in s)
  {
    if option in s {
      SpliceMembers(s, FirstIndex(s, option));
    }
  }

  /**
   * Toggling the same option twice restores the selection's membership, and
   * the selection itself when the option was absent.
   */
  lemma ToggleTwice(s: seq<string>, option: string)
    requires Distinct(s)
    ensures forall x :: x in Toggle(Toggle(s, option), option) <==> x in s
    ensures option !in s ==> Toggle(Toggle(s, option), option) == s
  {
    ToggleMembers(s, option);
    ToggleMembers(Toggle(s, option), option);
    if option !in s {
      var r := s + [option];
      assert FirstIndex(r, option) == |s|;
      assert r[..|s|] == s;
    }
  }

  /** The panel's state, including the page's copies of the two dates, which the handlers set to the same values. */
  class TaskFilter {
    var selectedFilters: seq<string>
    var startDate: string
    var endDate: string
    var dateError: string

    /** No option is selected twice, and a range with both ends set is in order. */
    predicate Valid()
      reads this
    {
      && Distinct(selectedFilters)
      && (startDate != "" && endDate != "" ==> DateLe(startDate, endDate))
    }

    constructor ()
      ensures Valid()
      ensures selectedFilters == [] && startDate == "" && endDate == "" && dateError == ""
    {
      selectedFilters := [];
      startDate := "";
      endDate := "";
      dateError := "";
    }

    /** A checkbox changed: toggle the option and clear the date error. */
    method OptionChange(option: string)
      requires Valid()
      modifies this`selectedFilters, this`dateError
      ensures Valid()
      ensures selectedFilters == Toggle(old(selectedFilters), option)
      ensures dateError == ""
    {
      ToggleMembers(selectedFilters, option);
      selectedFilters := Toggle(selectedFilters, option);
      dateError := "";
    }

    /** "Clear Filters": nothing selected, no range, no error. */
    method ClearFilters()
      modifies this
      ensures Valid()
      ensures selectedFilters == [] && startDate == "" && endDate == "" && dateError == ""
    {
      selectedFilters := [];
      endDate := "";
      startDate := "";
      dateError := "";
    }

    /**
     * A new start date is taken when no end date is set or it is on or before
     * the end date; otherwise the start is cleared and the range error shown.
     */
    method StartDateChange(newStartDate: string)
      requires Valid()
      modifies this`startDate, this`dateError
      ensures Valid()
      ensures old(endDate) == "" || DateLe(newStartDate, endDate) ==> startDate == newStartDate && dateError == ""
      ensures !(old(endDate) == "" || DateLe(newStartDate, endDate)) ==> startDate == "" && dateError == "Invalid date range"
    {
      if endDate == "" || DateLe(newStartDate, endDate) {
        startDate := newStartDate;
        dateError := "";
      } else {
        startDate := "";
        dateError := "Invalid date range";
      }
    }

    /**
     * A new end date is taken when no start date is set or it is on or after
     * the start date; otherwise the end is cleared and the range error shown.
     */
    method EndDateChange(newEndDate: string)
      requires Valid()
      modifies this`endDate, this`dateError
      ensures Valid()
      ensures old(startDate) == "" || DateLe(startDate, newEndDate) ==> endDate == newEndDate && dateError == ""
      ensures !(old(startDate) == "" || DateLe(startDate, newEndDate)) ==> endDate == "" && dateError == "Invalid date range"
    {
      if startDate == "" || DateLe(startDate, newEndDate) {
        endDate := newEndDate;
        dateError := "";
      } else {
        endDate := "";
        dateError := "Invalid date range";
      }
    }
  }

  /**
   * The range check on two well-formed dates is the day order, and an empty
   * start typed while an end is set fails it, so that clearing the start
   * field shows the range error.
   */
  lemma RangeCheck(newStartDate: string, endDate: string)
    requires IsIsoDate(endDate)
    ensures IsIsoDate(newStartDate) ==> (DateLe(newStartDate, endDate) <==> DayKey(newStartDate) <= DayKey(endDate))
    ensures !DateLe("", endDate)
  {
    if IsIsoDate(newStartDate) {
      DateLeIsDayOrder(newStartDate, endDate);
    }
  }
}

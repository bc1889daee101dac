/**
 * The weekday selector (src/lib/WeekdaysPicker.tsx): a table from each
 * weekday to its checkbox state, two effects that mark listed days as
 * disabled or checked, and the toggle handler that reports the checked
 * days in ascending order.
 */
module WeekdaysPicker {
  import opened Types
  import opened Lists

  /** One checkbox: whether it is ticked, its caption, and whether it is disabled on its own. */
  datatype Weekday = Weekday(checked: bool, caption: string, disabled: bool)

  type Table = map<Day, Weekday>

  /** Every weekday has an entry. */
  predicate Complete(m: Table) {
    forall d: Day :: d in m
  }

  /** The German two-letter abbreviation of a weekday. */
  function Label(d: Day): string {
    ["Mo", "Di", "Mi", "Do", "Fr", "Sa", "So"][d - 1]
  }

  /** The initial table: all seven days, none checked or disabled, labelled Mo to So. */
  function InitialTable(): (m: Table)
    ensures Complete(m) && |m| == 7
    ensures forall d: Day :: m[d] == Weekday(false, Label(d), false)
  {
    var m := map[
      1 := Weekday(false, "Mo", false),
      2 := Weekday(false, "Di", false),
      3 := Weekday(false, "Mi", false),
      4 := Weekday(false, "Do", false),
      5 := Weekday(false, "Fr", false),
      6 := Weekday(false, "Sa", false),
      7 := Weekday(false, "So", false)];
    assert m.Keys == {1, 2, 3, 4, 5, 6, 7};
    m
  }

  /**
   * The table after marking each listed day disabled, one after the other:
   * exactly the listed days become disabled, no flag is ever cleared, and
   * checked state and captions stay as they were.
   */
  function WithDisabled(m: Table, ds: seq<Day>): (r: Table)
    requires Complete(m)
    ensures Complete(r)
    ensures forall d: Day :: r[d] == if d in ds then m[d].(disabled := true) else m[d]
    decreases |ds|
  {
    if ds == [] then m
    else
      var prev := WithDisabled(m, ds[..|ds| - 1]);
      var d := ds[|ds| - 1];
      assert forall x :: x in ds <==> x in ds[..|ds| - 1] || x == d;
      prev[d := prev[d].(disabled := true)]
  }

  /**
   * The table after marking each listed day checked: exactly the listed
   * days become checked, no day is ever unchecked, and disabled flags and
   * captions stay as they were.
   */
  function WithChecked(m: Table, ds: seq<Day>): (r: Table)
    requires Complete(m)
    ensures Complete(r)
    ensures forall d: Day :: r[d] == if d in ds then m[d].(checked := true) else m[d]
    decreases |ds|
  {
    if ds == [] then m
    else
      var prev := WithChecked(m, ds[..|ds| - 1]);
      var d := ds[|ds| - 1];
      assert forall x :: x in ds <==> x in ds[..|ds| - 1] || x == d;
      prev[d := prev[d].(checked := true)]
  }

  /**
   * The checked days from `d` on, in the ascending order in which integer
   * keys of an object are enumerated (section 10.1.11.1 of ECMA-262):
   * strictly ascending, and holding exactly the checked days not below `d`.
   */
  function CheckedFrom(m: Table, d: int): (r: seq<Day>)
    requires Complete(m) && 1 <= d <= 8
    ensures Increasing(r)
    ensures forall k :: 0 <= k < |r| ==> d <= r[k]
    ensures forall x: Day :: x in r <==> d <= x && m[x].checked
    decreases 8 - d
  {
    if d == 8 then []
    else (if m[d].checked then [d as Day] else []) + CheckedFrom(m, d + 1)
  }

  /** The list the toggle handler reports: every checked day, ascending, each once. */
  function CheckedDays(m: Table): (r: seq<Day>)
    requires Complete(m)
    ensures Increasing(r) && NoDuplicates(r)
    ensures forall x: Day :: x in r <==> m[x].checked
  {
    CheckedFrom(m, 1)
  }

  /**
   * A checkbox accepts input unless the whole selector or the day itself is
   * disabled: the global lock switches every day off, and without it
   * exactly the days without their own lock accept input.
   */
  predicate Interactive(m: Table, globalDisabled: bool, d: Day)
    requires Complete(m)
    ensures globalDisabled ==> !Interactive(m, globalDisabled, d)
    ensures !globalDisabled ==> (Interactive(m, globalDisabled, d) <==> !m[d].disabled)
  {
    !(globalDisabled || m[d].disabled)
  }

  class Weekdays {
    var weekdays: Table

    ghost predicate Valid()
      reads this
    {
      Complete(weekdays)
    }

    constructor ()
      ensures Valid() && weekdays == InitialTable()
    {
      weekdays := InitialTable();
    }

    /** The `disabledDays` effect: marks every listed day disabled. */
    method ApplyDisabledDays(disabledDays: seq<Day>)
      requires Valid()
      modifies this
      ensures Valid() && weekdays == WithDisabled(old(weekdays), disabledDays)
    {
      var copy := weekdays;
      var i := 0;
      while i < |disabledDays|
        invariant 0 <= i <= |disabledDays|
        invariant Complete(copy) && copy == WithDisabled(weekdays, disabledDays[..i])
      {
        var d := disabledDays[i];
        copy := copy[d := copy[d].(disabled := true)];
        assert disabledDays[..i + 1][..i] == disabledDays[..i];
        i := i + 1;
      }
      assert disabledDays[..i] == disabledDays;
      weekdays := copy;
    }

    /** The `checkedDays` effect: marks every listed day checked; an absent list changes nothing. */
    method ApplyCheckedDays(checkedDays: Option<seq<Day>>)
      requires Valid()
      modifies this
      ensures Valid()
      ensures weekdays == if checkedDays.Some? then WithChecked(old(weekdays), checkedDays.value) else old(weekdays)
    {
      if checkedDays.None? {
        return;
      }
      var ds := checkedDays.value;
      var copy := weekdays;
      var i := 0;
      while i < |ds|
        invariant 0 <= i <= |ds|
        invariant Complete(copy) && copy == WithChecked(weekdays, ds[..i])
      {
        var d := ds[i];
        copy := copy[d := copy[d].(checked := true)];
        assert ds[..i + 1][..i] == ds[..i];
        i := i + 1;
      }
      assert ds[..i] == ds;
      weekdays := copy;
    }

    /**
     * `handleDayChanged`: replaces the toggled day's entry by one with the new
     * checked state and the old caption (its own disabled flag is dropped),
     * leaves every other entry alone, and reports the checked days of the new
     * table in ascending order.
     */
    method DayChanged(day: Day, checked: bool) returns (changed: seq<Day>)
      requires Valid()
      modifies this
      ensures Valid()
      ensures weekdays == old(weekdays)[day := Weekday(checked, old(weekdays)[day].caption, false)]
      ensures changed == CheckedDays(weekdays)
      ensures forall x: Day :: x in changed <==> if x == day then checked else old(weekdays)[x].checked
    {
      var caption := weekdays[day].caption;
      weekdays := weekdays[day := Weekday(checked, caption, false)];
      changed := CheckedDays(weekdays);
    }
  }
}

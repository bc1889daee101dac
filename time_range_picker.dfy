/**
 * The editor of one time range (src/lib/TimeRangePicker.tsx): a start and
 * an end time, seeded from the range it edits and changed only by guarded
 * handlers that keep the start strictly before the end.
 */
module TimeRangePicker {
  import opened Types

  /** `a` is strictly earlier than `b`; a comparison with an invalid time is false. */
  predicate IsBefore(a: Clock, b: Clock) {
    a.At? && b.At? && a.minute < b.minute
  }

  /** `a` is strictly later than `b`; a comparison with an invalid time is false. */
  predicate IsAfter(a: Clock, b: Clock) {
    a.At? && b.At? && a.minute > b.minute
  }

  /**
   * What a change handler does with a picked value: ignore it (no value),
   * reject it (the user is shown a message and nothing changes), or accept
   * it, reporting the updated range to the list when the other bound is a
   * valid time.
   */
  datatype Outcome = Ignored | Rejected | Accepted(reported: Option<TimeRange>)

  /** Midnight, the value both pickers start with. */
  const Midnight := At(0)

  class Editor {
    var startDate: Option<Clock>
    var endDate: Option<Clock>

    /** Both bounds are set and valid, as every reachable state has them. */
    ghost predicate Valid()
      reads this
    {
      startDate.Some? && startDate.value.At? && endDate.Some? && endDate.value.At?
    }

    /** Start and end are set, and the start is strictly before the end. */
    ghost predicate Ordered()
      reads this
    {
      startDate.Some? && endDate.Some? && IsBefore(startDate.value, endDate.value)
    }

    constructor ()
      ensures startDate == Some(Midnight) && endDate == Some(Midnight)
      ensures Valid()
    {
      startDate := Some(Midnight);
      endDate := Some(Midnight);
    }

    /**
     * The seeding effect: takes the range's bounds only when both are
     * present and valid; otherwise leaves the editor as it is.
     */
    method Seed(range: TimeRange)
      modifies this
      ensures if range.from.Some? && range.to.Some? && range.from.value.At? && range.to.value.At?
        then startDate == range.from && endDate == range.to
        else startDate == old(startDate) && endDate == old(endDate)
      ensures old(Valid()) ==> Valid()
    {
      if range.from.None? || range.to.None? {
        return;
      }
      var fromDate := range.from.value;
      var toDate := range.to.value;
      if !fromDate.At? || !toDate.At? {
        return;
      }
      startDate := Some(fromDate);
      endDate := Some(toDate);
    }

    /**
     * `handleStartDateChanged`: no value is ignored; a start that is not
     * strictly before the current end is rejected and nothing changes;
     * otherwise the start is taken and, when the end is a valid time, the
     * range is reported with its own id, the new start and the current end.
     * An accepted start always lies strictly before the end.
     */
    method StartChanged(range: TimeRange, newDate: Option<Clock>) returns (outcome: Outcome)
      modifies this
      ensures endDate == old(endDate)
      ensures newDate.None? ==> outcome == Ignored && startDate == old(startDate)
      ensures newDate.Some? && old(endDate).Some? && !IsBefore(newDate.value, old(endDate).value) ==>
        outcome == Rejected && startDate == old(startDate)
      ensures outcome.Accepted? <==> newDate.Some? && (old(endDate).Some? ==> IsBefore(newDate.value, old(endDate).value))
      ensures outcome.Accepted? ==> startDate == newDate
      ensures outcome.Accepted? ==>
        outcome.reported == if endDate.Some? && endDate.value.At?
          then Some(TimeRange(range.id, newDate, endDate)) else None
      ensures outcome.Accepted? && endDate.Some? ==> Ordered()
      ensures old(Valid()) ==> Valid()
    {
      if newDate.None? {
        return Ignored;
      }
      if endDate.Some? && !IsBefore(newDate.value, endDate.value) {
        return Rejected;
      }
      startDate := newDate;
      if endDate.None? || !endDate.value.At? {
        return Accepted(None);
      }
      outcome := Accepted(Some(range.(from := newDate, to := endDate)));
    }

    /**
     * `handleEndDateChanged`, the mirror image: an end that is not strictly
     * after the current start is rejected; an accepted end is reported
     * together with the current start when that is a valid time.
     */
    method EndChanged(range: TimeRange, newDate: Option<Clock>) returns (outcome: Outcome)
      modifies this
      ensures startDate == old(startDate)
      ensures newDate.None? ==> outcome == Ignored && endDate == old(endDate)
      ensures newDate.Some? && old(startDate).Some? && !IsAfter(newDate.value, old(startDate).value) ==>
        outcome == Rejected && endDate == old(endDate)
      ensures outcome.Accepted? <==> newDate.Some? && (old(startDate).Some? ==> IsAfter(newDate.value, old(startDate).value))
      ensures outcome.Accepted? ==> endDate == newDate
      ensures outcome.Accepted? ==>
        outcome.reported == if startDate.Some? && startDate.value.At?
          then Some(TimeRange(range.id, startDate, newDate)) else None
      ensures outcome.Accepted? && startDate.Some? ==> Ordered()
      ensures old(Valid()) ==> Valid()
    {
      if newDate.None? {
        return Ignored;
      }
      if startDate.Some? && !IsAfter(newDate.value, startDate.value) {
        return Rejected;
      }
      endDate := newDate;
      if startDate.None? || !startDate.value.At? {
        return Accepted(None);
      }
      outcome := Accepted(Some(range.(from := startDate, to := newDate)));
    }

    /** The delete button reports the id of the range this editor shows. */
    method DeleteClicked(range: TimeRange) returns (id: Id)
      ensures id == range.id
    {
      id := range.id;
    }
  }
}

/**
 * The business-day editing dialog (src/lib/OpeningTimesDialog.tsx): a
 * create/edit session over the closed flag, an ordered list of identified
 * time ranges and the selected days, and the handlers that edit, save,
 * delete or discard it.
 */
module OpeningTimesDialog {
  import opened Types
  import opened Lists

  /** The id of a time range. */
  function RangeId(r: TimeRange): Id {
    r.id
  }

  /** No two time ranges share an id. */
  predicate UniqueRangeIds(ranges: seq<TimeRange>) {
    DistinctKeys(ranges, RangeId)
  }

  /** The ids of the ranges, in list order. */
  function RangeIds(ranges: seq<TimeRange>): seq<Id> {
    seq(|ranges|, k requires 0 <= k < |ranges| => ranges[k].id)
  }

  /**
   * The ranges of an edited record, each given a fresh id from `ids`:
   * as many ranges, each keeping its bounds, and with distinct fresh ids
   * no two ranges share an id.
   */
  function Reidentify(ranges: seq<TimeRange>, ids: seq<Id>): (r: seq<TimeRange>)
    requires |ids| == |ranges|
    ensures |r| == |ranges|
    ensures forall k :: 0 <= k < |r| ==> r[k].id == ids[k] && r[k].from == ranges[k].from && r[k].to == ranges[k].to
    ensures NoDuplicates(ids) ==> UniqueRangeIds(r)
  {
    if ranges == [] then []
    else [ranges[0].(id := ids[0])] + Reidentify(ranges[1..], ids[1..])
  }

  /** A newly added range: only an id, no bounds. */
  function Blank(id: Id): (r: TimeRange)
    ensures r.id == id && r.from.None? && r.to.None?
  {
    TimeRange(id, None, None)
  }

  /**
   * The ranges without those carrying `id`, the rest in their order: exactly
   * the ranges with other ids remain, nothing changes when no range has the
   * id, and distinct ids stay distinct.
   */
  function WithoutRange(ranges: seq<TimeRange>, id: Id): (r: seq<TimeRange>)
    ensures forall x :: x in r <==> x in ranges && x.id != id
    ensures (forall x :: x in ranges ==> x.id != id) ==> r == ranges
    ensures UniqueRangeIds(ranges) ==> UniqueRangeIds(r)
  {
    var keep := (x: TimeRange) => x.id != id;
    var r := Filter(ranges, keep);
    assert (forall x :: x in ranges ==> x.id != id) ==> r == ranges by {
      if forall x :: x in ranges ==> x.id != id {
        FilterKeepsAll(ranges, keep);
      }
    }
    assert UniqueRangeIds(ranges) ==> UniqueRangeIds(r) by {
      if UniqueRangeIds(ranges) {
        FilterKeepsKeysDistinct(ranges, keep, RangeId);
      }
    }
    r
  }

  /**
   * The ranges with the one whose id matches `changed` replaced by it: the
   * length, the order and the list of ids stay the same, every range with
   * another id is untouched, and every range with that id becomes `changed`.
   */
  function ReplaceRange(ranges: seq<TimeRange>, changed: TimeRange): (r: seq<TimeRange>)
    ensures |r| == |ranges| && RangeIds(r) == RangeIds(ranges)
    ensures forall k :: 0 <= k < |r| ==> r[k] == if ranges[k].id == changed.id then changed else ranges[k]
  {
    if ranges == [] then []
    else [if ranges[0].id == changed.id then changed else ranges[0]] + ReplaceRange(ranges[1..], changed)
  }

  /** Appending a blank range with an id not in use keeps the ids distinct. */
  lemma AddKeepsIdsUnique(ranges: seq<TimeRange>, newId: Id)
    requires UniqueRangeIds(ranges) && newId !in RangeIds(ranges)
    ensures UniqueRangeIds(ranges + [Blank(newId)])
  {
    var r := ranges + [Blank(newId)];
    forall i, j | 0 <= i < j < |r|
      ensures r[i].id != r[j].id
    {
      if j == |ranges| {
        assert RangeIds(ranges)[i] == r[i].id;
      }
    }
  }

  /**
   * With distinct ids, an update of a range that is in the list leaves
   * exactly `changed` under its id.
   */
  lemma ReplaceFindsChanged(ranges: seq<TimeRange>, changed: TimeRange, k: nat)
    requires UniqueRangeIds(ranges) && k < |ranges| && ranges[k].id == changed.id
    ensures UniqueRangeIds(ReplaceRange(ranges, changed))
    ensures ReplaceRange(ranges, changed)[k] == changed
    ensures forall x :: x in ReplaceRange(ranges, changed) && x.id == changed.id ==> x == changed
  {
    var r := ReplaceRange(ranges, changed);
    forall i, j | 0 <= i < j < |r|
      ensures r[i].id != r[j].id
    {
      assert RangeIds(r)[i] == RangeIds(ranges)[i] && RangeIds(r)[j] == RangeIds(ranges)[j];
    }
  }

  /**
   * The dialog works on an existing record: edit mode is on and a record was
   * handed over. Edit mode without a record, or a stale record outside edit
   * mode, is a create session.
   */
  predicate Editing(editMode: bool, payload: Option<BusinessDay>)
    ensures Editing(editMode, payload) ==> payload.Some?
    ensures !editMode ==> !Editing(editMode, payload)
    ensures editMode && payload.Some? ==> Editing(editMode, payload)
  {
    payload.Some? && editMode
  }

  class Dialog {
    var dayClosed: bool
    var timeRanges: seq<TimeRange>
    var days: seq<Day>

    /** The state of a fresh session: closed, no ranges, no days. */
    predicate IsDefault()
      reads this
    {
      dayClosed && timeRanges == [] && days == []
    }

    constructor ()
      ensures IsDefault()
    {
      dayClosed := true;
      timeRanges := [];
      days := [];
    }

    /**
     * The effect that runs when edit mode changes: in edit mode with a
     * record, takes its closed flag and days and its ranges under fresh ids
     * `ids`; otherwise starts a fresh session.
     */
    method Seed(editMode: bool, payload: Option<BusinessDay>, ids: seq<Id>)
      requires Editing(editMode, payload) ==> |ids| == |payload.value.timeRanges|
      modifies this
      ensures Editing(editMode, payload) ==>
        && dayClosed == payload.value.closed
        && timeRanges == Reidentify(payload.value.timeRanges, ids)
        && days == payload.value.days
      ensures !Editing(editMode, payload) ==> IsDefault()
    {
      var isEditMode := Editing(editMode, payload);
      var closed := if isEditMode then payload.value.closed else true;
      var ranges := if isEditMode then payload.value.timeRanges else [];
      var seeded := if isEditMode then payload.value.days else [];
      dayClosed := closed;
      timeRanges := Reidentify(ranges, if isEditMode then ids else []);
      days := seeded;
    }

    /** `resetState`: back to a fresh session. */
    method Reset()
      modifies this
      ensures IsDefault()
    {
      dayClosed := true;
      timeRanges := [];
      days := [];
    }

    /** The closed switch sets the flag and nothing else. */
    method ClosedChanged(checked: bool)
      modifies this
      ensures dayClosed == checked && timeRanges == old(timeRanges) && days == old(days)
    {
      dayClosed := checked;
    }

    /** Appends one blank range with the fresh id; the earlier ranges are untouched. */
    method AddTimeRange(newId: Id)
      modifies this
      ensures timeRanges == old(timeRanges) + [Blank(newId)]
      ensures dayClosed == old(dayClosed) && days == old(days)
    {
      timeRanges := timeRanges + [Blank(newId)];
    }

    /** Drops every range with the id; the others keep their order. */
    method RemoveTimeRange(id: Id)
      modifies this
      ensures timeRanges == WithoutRange(old(timeRanges), id)
      ensures dayClosed == old(dayClosed) && days == old(days)
    {
      timeRanges := WithoutRange(timeRanges, id);
    }

    /** The day selector reported a new list of checked days. */
    method DaysChanged(newDays: seq<Day>)
      modifies this
      ensures days == newDays && dayClosed == old(dayClosed) && timeRanges == old(timeRanges)
    {
      days := newDays;
    }

    /** A range editor reported a change: the range with that id is replaced in place. */
    method TimeRangeChanged(changed: TimeRange)
      modifies this
      ensures timeRanges == ReplaceRange(old(timeRanges), changed)
      ensures dayClosed == old(dayClosed) && days == old(days)
    {
      timeRanges := ReplaceRange(timeRanges, changed);
    }

    /**
     * The save button. While no day is selected it is disabled and nothing
     * happens. Otherwise the session's record is built, keeping the edited
     * record's id in edit mode and taking the fresh id otherwise, the session
     * is reset, and the record is handed to the save callback.
     */
    method Save(editMode: bool, payload: Option<BusinessDay>, newId: Id) returns (saved: Option<BusinessDay>)
      modifies this
      ensures old(days) == [] ==> saved.None? && dayClosed == old(dayClosed) && timeRanges == old(timeRanges) && days == old(days)
      ensures old(days) != [] ==>
        && saved == Some(BusinessDay(
             if Editing(editMode, payload) then payload.value.id else newId,
             old(dayClosed), old(days), old(timeRanges)))
        && IsDefault()
    {
      if |days| == 0 {
        return None;
      }
      var id := if Editing(editMode, payload) then payload.value.id else newId;
      var businessDay := BusinessDay(id, dayClosed, days, timeRanges);
      Reset();
      saved := Some(businessDay);
    }

    /** The cancel button: resets the session; no record is reported. */
    method Close()
      modifies this
      ensures IsDefault()
    {
      Reset();
    }

    /**
     * The delete button: does nothing unless an existing record is being
     * edited; then resets the session and reports that record's id.
     */
    method Delete(editMode: bool, payload: Option<BusinessDay>) returns (deleted: Option<Id>)
      modifies this
      ensures !Editing(editMode, payload) ==>
        deleted.None? && dayClosed == old(dayClosed) && timeRanges == old(timeRanges) && days == old(days)
      ensures Editing(editMode, payload) ==> deleted == Some(payload.value.id) && IsDefault()
    {
      if !Editing(editMode, payload) {
        return None;
      }
      Reset();
      deleted := Some(payload.value.id);
    }
  }
}

/**
 * The root component (src/lib/OpeningTimesPicker.tsx): it owns the ordered
 * collection of business-day records, tracks whether the dialog edits an
 * existing record and which one, reconciles what the dialog saves or
 * deletes back into the collection, and renders every record as spans on
 * the weekly grid.
 */
module OpeningTimesPicker {
  import opened Types
  import opened Lists
  import opened Spans
  import opened OpeningTimesPickerSpan
  import opened WeekdaysPicker
  import OpeningTimesDialog

  /** The id of a record. */
  function RecordId(b: BusinessDay): Id {
    b.id
  }

  /** No two records share an id. */
  predicate UniqueRecordIds(records: seq<BusinessDay>) {
    DistinctKeys(records, RecordId)
  }

  /** Some record carries the id. */
  predicate HasId(records: seq<BusinessDay>, id: Id) {
    exists k :: 0 <= k < |records| && records[k].id == id
  }

  /**
   * The records without those carrying `id`, the rest in their original
   * order: exactly the records with other ids remain, nothing changes when
   * no record has the id, and distinct ids stay distinct.
   */
  function RemoveById(records: seq<BusinessDay>, id: Id): (r: seq<BusinessDay>)
    ensures forall x :: x in r <==> x in records && x.id != id
    ensures !HasId(records, id) ==> r == records
    ensures UniqueRecordIds(records) ==> UniqueRecordIds(r)
  {
    var keep := (x: BusinessDay) => x.id != id;
    var r := Filter(records, keep);
    assert !HasId(records, id) ==> r == records by {
      if !HasId(records, id) {
        forall x | x in records
          ensures keep(x)
        {
          var k :| 0 <= k < |records| && records[k] == x;
        }
        FilterKeepsAll(records, keep);
      }
    }
    assert UniqueRecordIds(records) ==> UniqueRecordIds(r) by {
      if UniqueRecordIds(records) {
        FilterKeepsKeysDistinct(records, keep, RecordId);
      }
    }
    r
  }

  /** Removing an id splits over a concatenation, so the kept records keep their relative order. */
  lemma RemoveByIdConcat(a: seq<BusinessDay>, b: seq<BusinessDay>, id: Id)
    ensures RemoveById(a + b, id) == RemoveById(a, id) + RemoveById(b, id)
  {
    FilterConcat(a, b, (x: BusinessDay) => x.id != id);
  }

  /** Removing an id from a single record keeps it exactly when its id differs. */
  lemma RemoveByIdSingle(x: BusinessDay, id: Id)
    ensures RemoveById([x], id) == if x.id == id then [] else [x]
  {
    if x.id == id {
      assert forall y :: y in RemoveById([x], id) ==> false;
    } else {
      FilterKeepsAll([x], (b: BusinessDay) => b.id != id);
    }
  }

  /** Distinct ids stay distinct in the tail, and no later record shares the head's id. */
  lemma UniqueTail(records: seq<BusinessDay>)
    requires UniqueRecordIds(records) && records != []
    ensures UniqueRecordIds(records[1..])
    ensures !HasId(records[1..], records[0].id)
  {
    var rest := records[1..];
    forall i, j | 0 <= i < j < |rest|
      ensures rest[i].id != rest[j].id
    {
      assert rest[i] == records[i + 1] && rest[j] == records[j + 1];
    }
    forall k | 0 <= k < |rest|
      ensures rest[k].id != records[0].id
    {
      assert rest[k] == records[k + 1];
    }
  }

  /** With distinct ids, removing an id that is present removes exactly one record. */
  lemma {:induction false} RemoveUniqueId(records: seq<BusinessDay>, id: Id)
    requires UniqueRecordIds(records) && HasId(records, id)
    ensures |RemoveById(records, id)| == |records| - 1
  {
    var rest := records[1..];
    assert records == [records[0]] + rest;
    RemoveByIdConcat([records[0]], rest, id);
    RemoveByIdSingle(records[0], id);
    UniqueTail(records);
    if records[0].id != id {
      var k :| 0 <= k < |records| && records[k].id == id;
      assert rest[k - 1].id == id;
      RemoveUniqueId(rest, id);
    }
  }

  /**
   * The first record with the id, as `Array.prototype.find` returns it:
   * none exactly when no record has the id, and otherwise a record with the
   * id that no earlier record shares.
   */
  function FindById(records: seq<BusinessDay>, id: Id): (r: Option<BusinessDay>)
    ensures r.None? <==> !HasId(records, id)
    ensures r.Some? ==> (r.value.id == id &&
      exists k :: 0 <= k < |records| && records[k] == r.value && forall m :: 0 <= m < k ==> records[m].id != id)
  {
    if records == [] then None
    else if records[0].id == id then Some(records[0])
    else
      var r := FindById(records[1..], id);
      assert HasId(records, id) <==> HasId(records[1..], id) by {
        if HasId(records, id) {
          var k :| 0 <= k < |records| && records[k].id == id;
          assert records[1..][k - 1].id == id;
        }
        if HasId(records[1..], id) {
          var k :| 0 <= k < |records[1..]| && records[1..][k].id == id;
          assert records[k + 1].id == id;
        }
      }
      assert r.Some? ==> exists k :: 0 <= k < |records| && records[k] == r.value && forall m :: 0 <= m < k ==> records[m].id != id by {
        if r.Some? {
          var k :| 0 <= k < |records[1..]| && records[1..][k] == r.value && forall m :: 0 <= m < k ==> records[1..][m].id != id;
          assert records[k + 1] == r.value;
          forall m | 0 <= m < k + 1
            ensures records[m].id != id
          {
            if m > 0 {
              assert records[m] == records[1..][m - 1];
            }
          }
        }
      }
      r
  }

  /**
   * All days of all records, record after record (the list handed to the
   * dialog as its disabled days): a day is listed exactly when some record
   * holds it.
   */
  function AllDays(records: seq<BusinessDay>): (r: seq<Day>)
    ensures forall d :: d in r <==> exists k :: 0 <= k < |records| && d in records[k].days
    decreases |records|
  {
    if records == [] then []
    else
      var init := records[..|records| - 1];
      var last := records[|records| - 1];
      var r := AllDays(init) + last.days;
      assert forall d :: d in r <==> exists k :: 0 <= k < |records| && d in records[k].days by {
        forall d
          ensures d in r <==> exists k :: 0 <= k < |records| && d in records[k].days
        {
          if d in AllDays(init) {
            var k :| 0 <= k < |init| && d in init[k].days;
            assert records[k] == init[k];
          }
          if exists k :: 0 <= k < |records| && d in records[k].days {
            var k :| 0 <= k < |records| && d in records[k].days;
            if k < |init| {
              assert init[k] == records[k];
            }
          }
        }
      }
      r
  }

  /**
   * The host's records each given a fresh id from `ids`: as many records,
   * each with its own fields and the new id; distinct fresh ids make the ids
   * of the collection distinct.
   */
  function Relabel(records: seq<BusinessDay>, ids: seq<Id>): (r: seq<BusinessDay>)
    requires |ids| == |records|
    ensures |r| == |records|
    ensures forall k :: 0 <= k < |r| ==> r[k] == records[k].(id := ids[k])
    ensures NoDuplicates(ids) ==> UniqueRecordIds(r)
  {
    if records == [] then []
    else [records[0].(id := ids[0])] + Relabel(records[1..], ids[1..])
  }

  /**
   * Saving keeps the ids of the collection distinct: in edit mode the
   * records with the saved id are dropped before it is appended, and in
   * create mode the saved record carries an id no record has.
   */
  lemma SaveKeepsRecordIdsUnique(records: seq<BusinessDay>, dayResult: BusinessDay, editing: bool)
    requires UniqueRecordIds(records) && (!editing ==> !HasId(records, dayResult.id))
    ensures UniqueRecordIds((if editing then RemoveById(records, dayResult.id) else records) + [dayResult])
  {
    var kept := if editing then RemoveById(records, dayResult.id) else records;
    var r := kept + [dayResult];
    forall i, j | 0 <= i < j < |r|
      ensures r[i].id != r[j].id
    {
      assert r[i] == kept[i];
      if j == |kept| {
        assert kept[i] in kept;
      } else {
        assert r[j] == kept[j];
      }
    }
  }

  /** No weekday belongs to two records. */
  ghost predicate DaysDisjoint(records: seq<BusinessDay>) {
    forall k, l, d :: 0 <= k < |records| && 0 <= l < |records| && k != l && d in records[k].days ==> d !in records[l].days
  }

  /**
   * Saving in create mode a record whose days are all free (none is among
   * the disabled days) keeps every weekday in at most one record.
   */
  lemma CreateSaveKeepsDaysDisjoint(records: seq<BusinessDay>, dayResult: BusinessDay)
    requires DaysDisjoint(records)
    requires forall d :: d in dayResult.days ==> d !in AllDays(records)
    ensures DaysDisjoint(records + [dayResult])
  {
    var r := records + [dayResult];
    forall k, l, d | 0 <= k < |r| && 0 <= l < |r| && k != l && d in r[k].days
      ensures d !in r[l].days
    {
      if k == |records| {
        assert r[l] == records[l];
      } else if l == |records| {
        assert r[k] == records[k];
        assert d in AllDays(records);
      } else {
        assert r[k] == records[k] && r[l] == records[l];
      }
    }
  }

  /**
   * Saving in edit mode a record under the id of an existing one, with that
   * record's days (the selector is frozen while editing), keeps every weekday
   * in at most one record.
   */
  lemma EditSaveKeepsDaysDisjoint(records: seq<BusinessDay>, k: nat, dayResult: BusinessDay)
    requires DaysDisjoint(records) && UniqueRecordIds(records)
    requires k < |records| && dayResult.id == records[k].id && dayResult.days == records[k].days
    ensures DaysDisjoint(RemoveById(records, dayResult.id) + [dayResult])
  {
    var kept := RemoveById(records, dayResult.id);
    var r := kept + [dayResult];
    // Every kept record sits at some position of the old collection other than `k`.
    forall i | 0 <= i < |kept|
      ensures exists p :: 0 <= p < |records| && p != k && records[p] == kept[i]
    {
      assert kept[i] in records;
      var p :| 0 <= p < |records| && records[p] == kept[i];
    }
    forall i, j, d | 0 <= i < |r| && 0 <= j < |r| && i != j && d in r[i].days
      ensures d !in r[j].days
    {
      if i == |kept| {
        var q :| 0 <= q < |records| && q != k && records[q] == kept[j];
        assert r[j] == records[q];
      } else if j == |kept| {
        var p :| 0 <= p < |records| && p != k && records[p] == kept[i];
        assert r[i] == records[p];
      } else {
        var p :| 0 <= p < |records| && p != k && records[p] == kept[i];
        var q :| 0 <= q < |records| && q != k && records[q] == kept[j];
        assert kept[i].id != kept[j].id;
        assert r[i] == records[p] && r[j] == records[q];
      }
    }
  }

  /**
   * In create mode the selector starts from the initial table with the
   * collection's days disabled and no global lock, whatever stale record is
   * still handed over: a day can be ticked exactly when no record holds it
   * yet.
   */
  lemma CreateModeSelectableDays(records: seq<BusinessDay>, payload: Option<BusinessDay>, d: Day)
    ensures var m := WithDisabled(InitialTable(), AllDays(records));
      Interactive(m, OpeningTimesDialog.Editing(false, payload), d) <==>
        forall k :: 0 <= k < |records| ==> d !in records[k].days
  {
  }

  /**
   * In edit mode the selector is locked as a whole: it shows the edited
   * record's days ticked and no other, and no day can be changed, not even
   * the record's own.
   */
  lemma EditModeFreezesDays(records: seq<BusinessDay>, payload: BusinessDay, d: Day)
    ensures var m := WithChecked(WithDisabled(InitialTable(), AllDays(records)), payload.days);
      && (m[d].checked <==> d in payload.days)
      && !Interactive(m, OpeningTimesDialog.Editing(true, Some(payload)), d)
  {
  }

  /**
   * The blocks rendered for a record without duplicate days: every span
   * renders, the column ranges are pairwise disjoint and in ascending order,
   * and a grid column lies in some block exactly when its day belongs to
   * the record.
   */
  lemma RenderedBlocksTileDays(record: BusinessDay, sorted: seq<Day>)
    requires NoDuplicates(record.days) && Sorted(sorted) && multiset(sorted) == multiset(record.days)
    ensures var spans := SpansOf(sorted);
      && (forall k :: 0 <= k < |spans| ==> SpanBlock(spans[k].fromDay, spans[k].toDay, record, map["order" := Num(spans[k].fromDay)], None).Some?)
      && (forall k, l :: 0 <= k < l < |spans| ==> spans[k].toDay + 1 < spans[l].fromDay)
      && (forall d: Day :: d in record.days <==> exists k :: 0 <= k < |spans| && spans[k].fromDay <= d < spans[k].toDay + 1)
  {
    SortedDistinctIncreasing(sorted, record.days);
    SpansPartition(sorted);
    forall d: Day
      ensures d in sorted <==> d in record.days
    {
      assert d in sorted <==> d in multiset(sorted);
    }
  }

  class Picker {
    var openingTimes: seq<BusinessDay>
    var dialogOpen: bool
    var inEditMode: bool
    var selected: Option<BusinessDay>

    constructor ()
      ensures openingTimes == [] && !dialogOpen && !inEditMode && selected.None?
    {
      openingTimes := [];
      dialogOpen := false;
      inEditMode := false;
      selected := None;
    }

    /**
     * The effect on the host's records: when the host passes a list (even an
     * empty one), it replaces the collection, each record under a fresh id
     * from `ids`; when it passes none, nothing changes.
     */
    method Reseed(payload: Option<seq<BusinessDay>>, ids: seq<Id>)
      requires payload.Some? ==> |ids| == |payload.value|
      modifies this
      ensures openingTimes == if payload.Some? then Relabel(payload.value, ids) else old(openingTimes)
      ensures dialogOpen == old(dialogOpen) && inEditMode == old(inEditMode) && selected == old(selected)
    {
      if payload.None? {
        return;
      }
      openingTimes := Relabel(payload.value, ids);
    }

    /**
     * A click on a span: an unknown id changes nothing; otherwise the first
     * record with the id becomes the edit target, edit mode is set and the
     * dialog opens.
     */
    method TimeSpanClicked(id: Id)
      modifies this
      ensures openingTimes == old(openingTimes)
      ensures !HasId(openingTimes, id) ==>
        dialogOpen == old(dialogOpen) && inEditMode == old(inEditMode) && selected == old(selected)
      ensures HasId(openingTimes, id) ==>
        dialogOpen && inEditMode && selected == FindById(openingTimes, id) && selected.value.id == id
    {
      var found := FindById(openingTimes, id);
      if found.None? {
        return;
      }
      inEditMode := true;
      selected := found;
      dialogOpen := true;
    }

    /** The add button opens the dialog in whatever mode is current. */
    method AddTimeSpanClicked()
      modifies this
      ensures dialogOpen && openingTimes == old(openingTimes)
      ensures inEditMode == old(inEditMode) && selected == old(selected)
    {
      dialogOpen := true;
    }

    /** The dialog was cancelled: leaves edit mode and closes it; the stale edit target stays. */
    method DialogClosed()
      modifies this
      ensures !dialogOpen && !inEditMode
      ensures openingTimes == old(openingTimes) && selected == old(selected)
    {
      inEditMode := false;
      dialogOpen := false;
    }

    /**
     * The dialog saved a record. In edit mode every record with its id is
     * removed (the others keep their order) and the saved record is appended
     * last; in create mode it is appended to the unchanged collection.
     * Either way the dialog closes, edit mode ends, and the change callback
     * receives exactly the new collection.
     */
    method DialogSaved(dayResult: BusinessDay) returns (reported: seq<BusinessDay>)
      modifies this
      ensures openingTimes ==
        (if old(inEditMode) then RemoveById(old(openingTimes), dayResult.id) else old(openingTimes)) + [dayResult]
      ensures reported == openingTimes
      ensures !dialogOpen && !inEditMode && selected == old(selected)
    {
      if inEditMode {
        var filtered := RemoveById(openingTimes, dayResult.id);
        var newOpeningTimes := filtered + [dayResult];
        openingTimes := newOpeningTimes;
        reported := newOpeningTimes;
        dialogOpen := false;
      } else {
        var newOpeningTimes := openingTimes + [dayResult];
        openingTimes := newOpeningTimes;
        reported := newOpeningTimes;
        dialogOpen := false;
      }
      inEditMode := false;
    }

    /**
     * The dialog deleted a record: nothing happens outside edit mode;
     * otherwise every record with the id is removed, the others keep their
     * order, the callback receives the new collection, the dialog closes and
     * edit mode ends.
     */
    method DialogDeleted(id: Id) returns (reported: Option<seq<BusinessDay>>)
      modifies this
      ensures !old(inEditMode) ==> (reported.None? &&
        openingTimes == old(openingTimes) && dialogOpen == old(dialogOpen) && !inEditMode)
      ensures old(inEditMode) ==> (openingTimes == RemoveById(old(openingTimes), id) &&
        reported == Some(openingTimes) && !dialogOpen && !inEditMode)
      ensures selected == old(selected)
    {
      if !inEditMode {
        return None;
      }
      var filtered := RemoveById(openingTimes, id);
      openingTimes := filtered;
      reported := Some(filtered);
      dialogOpen := false;
      inEditMode := false;
    }

    /** `getDaysFromOpeningTimes`: the days of every record, concatenated in collection order. */
    method DisabledDays() returns (days: seq<Day>)
      ensures days == AllDays(openingTimes)
      ensures forall d :: d in days <==> exists k :: 0 <= k < |openingTimes| && d in openingTimes[k].days
    {
      days := [];
      var i := 0;
      while i < |openingTimes|
        invariant 0 <= i <= |openingTimes|
        invariant days == AllDays(openingTimes[..i])
      {
        days := days + openingTimes[i].days;
        assert openingTimes[..i + 1][..i] == openingTimes[..i];
        i := i + 1;
      }
      assert openingTimes[..i] == openingTimes;
    }

    /**
     * Rendering computes the spans of every record; the span computation
     * sorts each record's own day list in place, so afterwards every record
     * holds its days in ascending order and nothing else about it changed.
     */
    method Render() returns (spans: seq<seq<Span>>)
      modifies this
      ensures |openingTimes| == |old(openingTimes)| == |spans|
      ensures forall k :: 0 <= k < |openingTimes| ==>
        && openingTimes[k] == old(openingTimes)[k].(days := openingTimes[k].days)
        && Sorted(openingTimes[k].days)
        && multiset(openingTimes[k].days) == multiset(old(openingTimes)[k].days)
        && spans[k] == SpansOf(openingTimes[k].days)
      ensures dialogOpen == old(dialogOpen) && inEditMode == old(inEditMode) && selected == old(selected)
    {
      spans := [];
      var i := 0;
      while i < |openingTimes|
        invariant 0 <= i <= |openingTimes| == |old(openingTimes)|
        invariant |spans| == i
        invariant forall k :: 0 <= k < i ==>
          && openingTimes[k] == old(openingTimes)[k].(days := openingTimes[k].days)
          && Sorted(openingTimes[k].days)
          && multiset(openingTimes[k].days) == multiset(old(openingTimes)[k].days)
          && spans[k] == SpansOf(openingTimes[k].days)
        invariant forall k :: i <= k < |openingTimes| ==> openingTimes[k] == old(openingTimes)[k]
        invariant dialogOpen == old(dialogOpen) && inEditMode == old(inEditMode) && selected == old(selected)
      {
        var record := openingTimes[i];
        var days := new Day[|record.days|](k requires 0 <= k < |record.days| => record.days[k]);
        assert days[..] == record.days;
        var recordSpans := ComputeSpans(days);
        openingTimes := openingTimes[i := record.(days := days[..])];
        spans := spans + [recordSpans];
        i := i + 1;
      }
    }
  }
}

/** The yearly auto-scheduler that runs when the home page is shown: for every
    asset, look up the latest `next_due_date` among its maintenance records
    and, when there is none or it lies strictly before today, stage a new
    "scheduled" record due 365 days from today; then commit the staged
    records in one batch. */
module Scheduler {
  import opened Common
  import opened Records
  import Calendar

  const YearlyIntervalDays := 365
  const AutoKind := "maintenance"
  const AutoDescription := "Lịch bảo trì định kỳ (tự động)"
  const AutoPerson := "System"

  predicate Distinct(ids: seq<int>)
  {
    forall i, j :: 0 <= i < j < |ids| ==> ids[i] != ids[j]
  }

  /** The later of two optional dates; an absent date loses. */
  function MaxDue(a: Option<int>, b: Option<int>): Option<int>
  {
    match (a, b)
    case (None, _) => b
    case (_, None) => a
    case (Some(x), Some(y)) => if x >= y then a else b
  }

  /** `next_due_date` of `filter_by(asset_id=id).order_by(next_due_date.desc()).first()`
      under SQLite, where NULLs sort last in a descending order: the largest
      non-NULL due date among the asset's records, if any. */
  function LatestDue(records: seq<Record>, id: int): Option<int>
  {
    if records == [] then None
    else
      var n := |records| - 1;
      var prev := LatestDue(records[..n], id);
      if records[n].assetId == id then MaxDue(prev, records[n].nextDue) else prev
  }

  /** The looked-up due date is absent exactly when no record of the asset
      has one; otherwise it is the due date of one of the asset's records and
      no record of the asset is due later. */
  lemma {:induction false} LatestDueIsMax(records: seq<Record>, id: int)
    ensures var d := LatestDue(records, id);
            && (d.None? <==> forall i :: 0 <= i < |records| && records[i].assetId == id ==> records[i].nextDue.None?)
            && (d.Some? ==> exists i :: 0 <= i < |records| && records[i].assetId == id && records[i].nextDue == d)
            && (d.Some? ==> forall i :: 0 <= i < |records| && records[i].assetId == id && records[i].nextDue.Some? ==>
                              records[i].nextDue.value <= d.value)
  {
    if records != [] {
      var n := |records| - 1;
      var init := records[..n];
      LatestDueIsMax(init, id);
      assert forall i :: 0 <= i < n ==> init[i] == records[i];
      var prev := LatestDue(init, id);
      if prev.Some? {
        var i :| 0 <= i < n && init[i].assetId == id && init[i].nextDue == prev;
        assert records[i] == init[i];
      }
    }
  }

  /** `need_create`: there is no due date, or it is strictly before today. */
  predicate NeedsSchedule(records: seq<Record>, id: int, today: int)
  {
    match LatestDue(records, id)
    case None => true
    case Some(d) => d < today
  }

  /** The record the scheduler stages for asset `id`. */
  function YearlySchedule(id: int, today: int): Record
  {
    Record(
      assetId := id,
      maintenanceDate := today,
      kind := AutoKind,
      description := Some(AutoDescription),
      vendor := None,
      personInCharge := Some(AutoPerson),
      cost := 0,
      nextDue := Some(today + YearlyIntervalDays),
      status := StatusScheduled,
      deletedAt := None)
  }

  /** The records staged for `ids`, in the order the assets are visited. */
  function Plan(ids: seq<int>, records: seq<Record>, today: int): seq<Record>
  {
    if ids == [] then []
    else
      var n := |ids| - 1;
      Plan(ids[..n], records, today) + (if NeedsSchedule(records, ids[n], today) then [YearlySchedule(ids[n], today)] else [])
  }

  /** The home page's scheduling pass over every asset (`Asset.query.all()`,
      soft-deleted and disposed ones included): the per-asset query sees the
      rows staged so far (the session autoflushes), the staged rows are
      committed together, and a failed commit rolls all of them back. */
  method ScheduleYearly(ids: seq<int>, records: seq<Record>, today: int, commitSucceeds: bool)
    returns (stored: seq<Record>)
    requires Distinct(ids)
    ensures stored == if commitSucceeds then records + Plan(ids, records, today) else records
  {
    var staged: seq<Record> := [];
    var i := 0;
    while i < |ids|
      invariant 0 <= i <= |ids|
      invariant staged == Plan(ids[..i], records, today)
      invariant forall r :: r in staged ==> r.assetId in ids[..i]
    {
      var id := ids[i];
      assert id !in ids[..i];
      LatestDueIgnoresOthers(records, staged, id);
      var last := LatestDue(records + staged, id);
      var needCreate := false;
      if last.None? {
        needCreate := true;
      } else if last.value < today {
        needCreate := true;
      }
      if needCreate {
        staged := staged + [YearlySchedule(id, today)];
      }
      assert ids[..i + 1][..i] == ids[..i];
      i := i + 1;
    }
    assert ids[..i] == ids;
    if commitSucceeds {
      stored := records + staged;
    } else {
      stored := records;
    }
  }

  /** Rows of other assets do not change an asset's latest due date. */
  lemma LatestDueIgnoresOthers(records: seq<Record>, extra: seq<Record>, id: int)
    requires forall r :: r in extra ==> r.assetId != id
    ensures LatestDue(records + extra, id) == LatestDue(records, id)
  {
    LatestDueAppend(records, extra, id);
    LatestDueIsMax(extra, id);
    assert forall i :: 0 <= i < |extra| ==> extra[i] in extra;
  }

  /** The latest due date over two record lists is the later of the two. */
  lemma {:induction false} LatestDueAppend(a: seq<Record>, b: seq<Record>, id: int)
    ensures LatestDue(a + b, id) == MaxDue(LatestDue(a, id), LatestDue(b, id))
    decreases |b|
  {
    if b == [] {
      assert a + b == a;
    } else {
      var n := |b| - 1;
      assert (a + b)[..|a| + n] == a + b[..n];
      assert (a + b)[|a| + n] == b[n];
      LatestDueAppend(a, b[..n], id);
    }
  }

  /** A schedule is needed exactly when no record of the asset is due today or
      later; in particular a due date equal to today needs none. */
  lemma NeedsScheduleIff(records: seq<Record>, id: int, today: int)
    ensures NeedsSchedule(records, id, today) <==>
            forall i :: 0 <= i < |records| && records[i].assetId == id && records[i].nextDue.Some? ==>
              records[i].nextDue.value < today
  {
    var d := LatestDue(records, id);
    LatestDueIsMax(records, id);
    if d.Some? {
      var i :| 0 <= i < |records| && records[i].assetId == id && records[i].nextDue == d;
    }
  }

  /** Every staged record is the yearly schedule of a visited asset that needed one. */
  lemma {:induction false} PlanShape(ids: seq<int>, records: seq<Record>, today: int)
    ensures forall r :: r in Plan(ids, records, today) ==>
              r.assetId in ids && NeedsSchedule(records, r.assetId, today) && r == YearlySchedule(r.assetId, today)
  {
    if ids != [] {
      var n := |ids| - 1;
      PlanShape(ids[..n], records, today);
      forall r | r in Plan(ids[..n], records, today) ensures r.assetId in ids {
        assert r.assetId in ids[..n];
      }
    }
  }

  /** Each visited asset gets exactly one staged record if it needs a schedule
      and none otherwise; an asset that is not visited gets none. */
  lemma {:induction false} PlanCountPerAsset(ids: seq<int>, records: seq<Record>, today: int, id: int)
    requires Distinct(ids)
    ensures Count(Plan(ids, records, today), OfAsset(id)) ==
            if id in ids && NeedsSchedule(records, id, today) then 1 else 0
  {
    if ids != [] {
      var n := |ids| - 1;
      var prefix := ids[..n];
      assert Distinct(prefix);
      PlanCountPerAsset(prefix, records, today, id);
      var tail := if NeedsSchedule(records, ids[n], today) then [YearlySchedule(ids[n], today)] else [];
      CountAppend(Plan(prefix, records, today), tail, OfAsset(id));
      assert ids == prefix + [ids[n]];
      if id == ids[n] {
        assert id !in prefix;
      }
    }
  }

  /** The records a pass stages for the assets it visits. */
  lemma PlanLatestDue(ids: seq<int>, records: seq<Record>, today: int, id: int)
    requires Distinct(ids)
    ensures LatestDue(Plan(ids, records, today), id) ==
            if id in ids && NeedsSchedule(records, id, today) then Some(today + YearlyIntervalDays) else None
  {
    var p := Plan(ids, records, today);
    PlanShape(ids, records, today);
    PlanCountPerAsset(ids, records, today, id);
    var d := LatestDue(p, id);
    LatestDueIsMax(p, id);
    if id in ids && NeedsSchedule(records, id, today) {
      assert Count(p, OfAsset(id)) != 0;
      var i :| 0 <= i < |p| && OfAsset(id)(p[i]);
      assert p[i] in p;
    }
  }

  /** A second pass with the same `today` over the committed result stages nothing. */
  lemma {:induction false} ScheduleIdempotent(ids: seq<int>, records: seq<Record>, today: int)
    requires Distinct(ids)
    ensures Plan(ids, records + Plan(ids, records, today), today) == []
  {
    var after := records + Plan(ids, records, today);
    forall id | id in ids
      ensures !NeedsSchedule(after, id, today)
    {
      LatestDueAppend(records, Plan(ids, records, today), id);
      PlanLatestDue(ids, records, today, id);
    }
    PlanEmpty(ids, after, today);
  }

  /** Nothing is staged when no visited asset needs a schedule. */
  lemma {:induction false} PlanEmpty(ids: seq<int>, records: seq<Record>, today: int)
    requires forall id :: id in ids ==> !NeedsSchedule(records, id, today)
    ensures Plan(ids, records, today) == []
  {
    if ids != [] {
      var n := |ids| - 1;
      assert ids[n] in ids;
      forall id | id in ids[..n] ensures id in ids { }
      PlanEmpty(ids[..n], records, today);
    }
  }

  /** The staged schedule is itself due in the future, so it settles its asset. */
  lemma YearlyScheduleSettles(records: seq<Record>, id: int, today: int)
    ensures !NeedsSchedule(records + [YearlySchedule(id, today)], id, today)
  {
    LatestDueAppend(records, [YearlySchedule(id, today)], id);
  }

  /** An asset without any maintenance record always gets a schedule. */
  lemma NoHistoryNeedsSchedule(records: seq<Record>, id: int, today: int)
    requires forall r :: r in records ==> r.assetId != id
    ensures NeedsSchedule(records, id, today)
  {
    LatestDueIsMax(records, id);
    assert forall i :: 0 <= i < |records| ==> records[i] in records;
  }

  /** `today + timedelta(days=365)` is 365 days, not the same calendar date a
      year on: from 2024-01-10 (a leap year) it lands on 2025-01-09. */
  lemma YearlyScheduleIsNotCalendarYear(id: int)
    ensures YearlySchedule(id, Calendar.Ordinal(2024, 1, 10)).nextDue == Some(Calendar.Ordinal(2025, 1, 9))
    ensures Calendar.Ordinal(2025, 1, 9) != Calendar.Ordinal(2025, 1, 10)
  {
  }

  /** The latest-due lookup as PostgreSQL answers it: there NULLs sort FIRST in
      a descending order, so one record of the asset without a due date is
      the row `first()` returns, and the asset reads as having no due date. */
  predicate NeedsScheduleNullsFirst(records: seq<Record>, id: int, today: int)
  {
    if exists i :: 0 <= i < |records| && records[i].assetId == id && records[i].nextDue.None? then true
    else NeedsSchedule(records, id, today)
  }

  /** Under NULLS FIRST the pass is not idempotent: an asset with one manual
      record that has no next due date gets a fresh schedule on every visit,
      even right after today's schedule was committed, while the NULLS LAST
      lookup that the rest of the model uses is settled by it. */
  lemma NullsFirstReschedulesEveryVisit(today: int)
    ensures var manual := Record(7, today - 3, "repair", None, None, None, 0, None, StatusCompleted, None);
            var once := [manual] + [YearlySchedule(7, today)];
            && NeedsScheduleNullsFirst([manual], 7, today)
            && NeedsScheduleNullsFirst(once, 7, today)
            && !NeedsSchedule(once, 7, today)
  {
    var manual := Record(7, today - 3, "repair", None, None, None, 0, None, StatusCompleted, None);
    var once := [manual] + [YearlySchedule(7, today)];
    assert once[0].assetId == 7 && once[0].nextDue.None?;
    YearlyScheduleSettles([manual], 7, today);
  }
}

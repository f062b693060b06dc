/** One row of the `maintenance_record` table as the queries of the
    maintenance pages see it, and the row predicates those queries filter on.
    Dates are day numbers (see Calendar); `deletedAt` is an instant. */
module Records {
  import opened Common

  /** A maintenance record. A NULL `cost` is modelled as 0 and a NULL `status`
      as "", which is how every reader of these columns treats them
      (`r.cost or 0`, `(r.status or '').lower()`). */
  datatype Record = Record(
    assetId: int,
    maintenanceDate: int,
    kind: string,
    description: Option<string>,
    vendor: Option<string>,
    personInCharge: Option<string>,
    cost: nat,
    nextDue: Option<int>,
    status: string,
    deletedAt: Option<int>)

  const StatusCompleted := "completed"
  const StatusScheduled := "scheduled"
  const StatusInProgress := "in_progress"
  const StatusCancelled := "cancelled"

  /** `(r.status or '').lower() == s`. */
  predicate HasStatus(r: Record, s: string)
  {
    Lower(r.status) == s
  }

  /** `(r.cost or 0) > 0`. */
  predicate HasCost(r: Record)
  {
    r.cost > 0
  }

  /** `next_due_date != None and next_due_date < today`. */
  predicate IsOverdue(r: Record, today: int)
  {
    r.nextDue.Some? && r.nextDue.value < today
  }

  /** `next_due_date != None and next_due_date.between(lo, hi)` (inclusive). */
  predicate DueBetween(r: Record, lo: int, hi: int)
  {
    r.nextDue.Some? && lo <= r.nextDue.value <= hi
  }

  /** `next_due_date != None and next_due_date <= hi`. */
  predicate DueBy(r: Record, hi: int)
  {
    r.nextDue.Some? && r.nextDue.value <= hi
  }

  /** `lo <= maintenance_date <= hi`. */
  predicate DoneBetween(r: Record, lo: int, hi: int)
  {
    lo <= r.maintenanceDate <= hi
  }

  // The same predicates as function values, so that every query built on
  // Count, Filter and SortBy mentions one and the same term.

  function StatusIs(s: string): Record -> bool { r => HasStatus(r, s) }
  function WithCost(): Record -> bool { r => HasCost(r) }
  function OverdueAt(today: int): Record -> bool { r => IsOverdue(r, today) }
  function DueIn(lo: int, hi: int): Record -> bool { r => DueBetween(r, lo, hi) }
  function DueUpTo(hi: int): Record -> bool { r => DueBy(r, hi) }
  function DoneIn(lo: int, hi: int): Record -> bool { r => DoneBetween(r, lo, hi) }
  function OfAsset(id: int): Record -> bool { (r: Record) => r.assetId == id }

  /** Sort key of `order_by(next_due_date.asc())`; NULL sorts first under SQLite. */
  function DueKey(r: Record): int
  {
    match r.nextDue
    case Some(d) => d
    case None => -1
  }

  /** Sort key of `order_by(maintenance_date.desc())`. */
  function DateDescKey(r: Record): int
  {
    -r.maintenanceDate
  }

  /** Sum of `cost` over `rs` (SQL's `sum(cost)` with the `or 0` fallback). */
  function SumCost(rs: seq<Record>): nat
  {
    if rs == [] then 0 else rs[0].cost + SumCost(rs[1..])
  }

  lemma {:induction false} SumCostAppend(a: seq<Record>, b: seq<Record>)
    ensures SumCost(a + b) == SumCost(a) + SumCost(b)
  {
    if a == [] {
      assert a + b == b;
    } else {
      assert (a + b)[1..] == a[1..] + b;
      SumCostAppend(a[1..], b);
    }
  }
}

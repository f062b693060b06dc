/** Reporting over maintenance records: the per-period KPIs of the
    maintenance dashboard (counts by status, cost totals, positive-cost
    minimum and maximum, completion rate, average cost), the dashboard as a
    whole, and the sparse month-by-month cost report of one year. */
module Reporting {
  import opened Common
  import opened Records
  import opened Calendar
  import DueDates

  /** `maintenance_date` within [lo, hi], both ends included. */
  function InPeriod(records: seq<Record>, lo: int, hi: int): seq<Record>
  {
    Filter(records, DoneIn(lo, hi))
  }

  /** The costs of `rs` that are positive, in order: `[r.cost for r in rs if (r.cost or 0) > 0]`. */
  function PositiveCosts(rs: seq<Record>): (c: seq<nat>)
    ensures |c| == Count(rs, WithCost())
    ensures forall i :: 0 <= i < |c| ==> c[i] > 0
  {
    if rs == [] then []
    else (if rs[0].cost > 0 then [rs[0].cost] else []) + PositiveCosts(rs[1..])
  }

  /** `max(costs) if costs else 0`. */
  function MaxOrZero(c: seq<nat>): (m: nat)
    ensures c == [] ==> m == 0
    ensures c != [] ==> m in c && forall i :: 0 <= i < |c| ==> c[i] <= m
  {
    if c == [] then 0
    else
      var rest := MaxOrZero(c[1..]);
      if c[1..] == [] || c[0] >= rest then c[0] else rest
  }

  /** `min(costs) if costs else 0`. */
  function MinOrZero(c: seq<nat>): (m: nat)
    ensures c == [] ==> m == 0
    ensures c != [] ==> m in c && forall i :: 0 <= i < |c| ==> m <= c[i]
  {
    if c == [] then 0
    else
      var rest := MinOrZero(c[1..]);
      if c[1..] == [] || c[0] <= rest then c[0] else rest
  }

  /** The KPIs of one period's records. */
  datatype PeriodStats = PeriodStats(
    total: nat,
    totalCost: nat,
    completed: nat,
    scheduled: nat,
    inProgress: nat,
    cancelled: nat,
    withCost: nat,
    maxCost: nat,
    minCost: nat)

  function Stats(rs: seq<Record>): PeriodStats
  {
    var costs := PositiveCosts(rs);
    PeriodStats(
      total := |rs|,
      totalCost := SumCost(rs),
      completed := Count(rs, StatusIs(StatusCompleted)),
      scheduled := Count(rs, StatusIs(StatusScheduled)),
      inProgress := Count(rs, StatusIs(StatusInProgress)),
      cancelled := Count(rs, StatusIs(StatusCancelled)),
      withCost := Count(rs, WithCost()),
      maxCost := MaxOrZero(costs),
      minCost := MinOrZero(costs))
  }

  /** `completed / total * 100` before rounding, 0 for an empty period. */
  function CompletionRate(s: PeriodStats): real
  {
    if s.total == 0 then 0.0 else (s.completed as real / s.total as real) * 100.0
  }

  /** `total_cost / total` before rounding, 0 for an empty period. */
  function AvgCost(s: PeriodStats): real
  {
    if s.total == 0 then 0.0 else s.totalCost as real / s.total as real
  }

  /** A record's status matches at most one of the four known statuses, so the
      four counts together never exceed the number of records. */
  lemma {:induction false} StatusCountsBound(rs: seq<Record>)
    ensures Count(rs, StatusIs(StatusCompleted)) + Count(rs, StatusIs(StatusScheduled))
          + Count(rs, StatusIs(StatusInProgress)) + Count(rs, StatusIs(StatusCancelled)) <= |rs|
  {
    if rs != [] {
      StatusCountsBound(rs[1..]);
    }
  }

  /** Each status count, the positive-cost count and all four together are
      bounded by the number of records. */
  lemma StatsCountsBounded(rs: seq<Record>)
    ensures var s := Stats(rs);
            && s.completed + s.scheduled + s.inProgress + s.cancelled <= s.total
            && s.withCost <= s.total
  {
    StatusCountsBound(rs);
  }

  lemma {:induction false} PositiveCostsMembers(rs: seq<Record>, x: nat)
    ensures x in PositiveCosts(rs) <==> x > 0 && exists i :: 0 <= i < |rs| && rs[i].cost == x
  {
    if rs != [] {
      PositiveCostsMembers(rs[1..], x);
      if x > 0 && rs[0].cost != x && exists i :: 0 <= i < |rs| && rs[i].cost == x {
        var i :| 0 <= i < |rs| && rs[i].cost == x;
        assert rs[1..][i - 1].cost == x;
      }
      if exists i :: 0 <= i < |rs| - 1 && rs[1..][i].cost == x {
        var i :| 0 <= i < |rs| - 1 && rs[1..][i].cost == x;
        assert rs[i + 1].cost == x;
      }
    }
  }

  /** The positive-cost statistics: `max_cost` bounds every cost and `min_cost`
      every positive one, both are costs of some record when any record has
      a cost, both are 0 otherwise, and `min_cost <= max_cost`. */
  lemma CostStats(rs: seq<Record>)
    ensures var s := Stats(rs);
            && s.withCost == |PositiveCosts(rs)|
            && s.minCost <= s.maxCost
            && (s.withCost > 0 <==> s.minCost > 0)
            && (s.withCost > 0 <==> s.maxCost > 0)
            && (forall i :: 0 <= i < |rs| ==> rs[i].cost <= s.maxCost)
            && (forall i :: 0 <= i < |rs| && rs[i].cost > 0 ==> s.minCost <= rs[i].cost)
            && (s.withCost > 0 ==> exists i :: 0 <= i < |rs| && rs[i].cost == s.maxCost)
            && (s.withCost > 0 ==> exists i :: 0 <= i < |rs| && rs[i].cost == s.minCost)
  {
    var s := Stats(rs);
    var c := PositiveCosts(rs);
    forall i | 0 <= i < |rs| && rs[i].cost > 0
      ensures s.minCost <= rs[i].cost <= s.maxCost
    {
      PositiveCostsMembers(rs, rs[i].cost);
      var j :| 0 <= j < |c| && c[j] == rs[i].cost;
    }
    if c != [] {
      PositiveCostsMembers(rs, s.maxCost);
      PositiveCostsMembers(rs, s.minCost);
      assert c[0] in c;
    }
  }

  lemma PercentBounds(c: nat, t: nat)
    requires 0 < t && c <= t
    ensures 0.0 <= (c as real / t as real) * 100.0 <= 100.0
    ensures (c as real / t as real) * 100.0 == 100.0 <==> c == t
  {
    var q := c as real / t as real;
    assert q * t as real == c as real;
    assert q <= 1.0 by {
      if q > 1.0 {
        assert q * t as real > t as real;
      }
    }
  }

  /** The completion rate is a percentage, 0 for an empty period and 100
      exactly when every record of a non-empty period is completed. */
  lemma CompletionRateBounds(rs: seq<Record>)
    ensures var s := Stats(rs);
            && 0.0 <= CompletionRate(s) <= 100.0
            && (s.total == 0 ==> CompletionRate(s) == 0.0)
            && (s.total > 0 ==> (CompletionRate(s) == 100.0 <==> s.completed == s.total))
  {
    var s := Stats(rs);
    StatsCountsBounded(rs);
    if s.total > 0 {
      PercentBounds(s.completed, s.total);
    }
  }

  lemma {:induction false} SumCostBound(rs: seq<Record>, m: nat)
    requires forall i :: 0 <= i < |rs| ==> rs[i].cost <= m
    ensures SumCost(rs) <= |rs| * m
  {
    if rs != [] {
      assert forall i :: 0 <= i < |rs| - 1 ==> rs[1..][i] == rs[i + 1];
      SumCostBound(rs[1..], m);
    }
  }

  lemma MeanBound(sum: nat, n: nat, m: nat)
    requires 0 < n && sum <= n * m
    ensures 0.0 <= sum as real / n as real <= m as real
  {
    var a := sum as real / n as real;
    assert a * n as real == sum as real;
    assert (n * m) as real == n as real * m as real;
  }

  /** The average cost per record lies between 0 and the largest cost. */
  lemma AvgCostBounds(rs: seq<Record>)
    ensures var s := Stats(rs);
            && 0.0 <= AvgCost(s) <= s.maxCost as real
            && (s.total == 0 ==> AvgCost(s) == 0.0)
  {
    var s := Stats(rs);
    CostStats(rs);
    SumCostBound(rs, s.maxCost);
    if s.total > 0 {
      MeanBound(s.totalCost, s.total, s.maxCost);
    }
  }

  /** Splitting a period at any day splits its records' cost. */
  lemma {:induction false} PeriodCostSplit(rs: seq<Record>, a: int, b: int, c: int)
    requires a <= b + 1 && b <= c
    ensures SumCost(InPeriod(rs, a, c)) == SumCost(InPeriod(rs, a, b)) + SumCost(InPeriod(rs, b + 1, c))
  {
    if rs != [] {
      PeriodCostSplit(rs[1..], a, b, c);
    }
  }

  /** One line of the report: a month and the cost of its records. */
  datatype MonthTotal = MonthTotal(month: int, total: nat)

  /** The year the report shows: `?year=` when given and non-zero, else the current year. */
  function ReportYear(requested: Option<int>, currentYear: int): int
  {
    match requested
    case Some(y) => if y == 0 then currentYear else y
    case None => currentYear
  }

  /** The first and last day of every month of `year`, January to December. */
  function MonthRanges(year: int): (ranges: seq<(int, int)>)
    requires MinYear <= year <= MaxYear
    ensures |ranges| == 12
    ensures forall i :: 0 <= i < 12 ==> ranges[i] == (MonthStart(year, i + 1), MonthEnd(year, i + 1))
  {
    seq(12, i requires 0 <= i < 12 => (MonthStart(year, i + 1), MonthEnd(year, i + 1)))
  }

  /** The records of each date range, range by range. */
  function Groups(records: seq<Record>, ranges: seq<(int, int)>): (g: seq<seq<Record>>)
    ensures |g| == |ranges|
  {
    if ranges == [] then [] else [InPeriod(records, ranges[0].0, ranges[0].1)] + Groups(records, ranges[1..])
  }

  /** Group `k` holds the records of range `k`. */
  lemma {:induction false} GroupsAt(records: seq<Record>, ranges: seq<(int, int)>, k: int)
    requires 0 <= k < |ranges|
    ensures Groups(records, ranges)[k] == InPeriod(records, ranges[k].0, ranges[k].1)
    decreases |ranges|
  {
    if k > 0 {
      GroupsAt(records, ranges[1..], k - 1);
      assert ranges[1..][k - 1] == ranges[k];
    }
  }

  /** The rows for consecutive groups of records, the first of them being
      month `first`: a group without records has no row. */
  function ReportRows(groups: seq<seq<Record>>, first: int): seq<MonthTotal>
    decreases |groups|
  {
    if groups == [] then []
    else MonthRow(groups[0], first) + ReportRows(groups[1..], first + 1)
  }

  /** The row of one month: present only when the month has records. */
  function MonthRow(inMonth: seq<Record>, m: int): seq<MonthTotal>
  {
    if |inMonth| > 0 then [MonthTotal(m, SumCost(inMonth))] else []
  }

  /** `maintenance_report`: `group_by(month).order_by(month)` over the records
      whose `extract('year')` is `year`; no date lies outside years 1..9999. */
  function MonthlyReport(records: seq<Record>, year: int): seq<MonthTotal>
  {
    if MinYear <= year <= MaxYear then ReportRows(Groups(records, MonthRanges(year)), 1) else []
  }

  /** The records dated within month `m` of `year`. */
  function InMonth(records: seq<Record>, year: int, m: int): seq<Record>
    requires MinYear <= year <= MaxYear && 1 <= m <= 12
  {
    InPeriod(records, MonthStart(year, m), MonthEnd(year, m))
  }

  /** `total_year = sum(d['total'] for d in data)`. */
  function TotalOf(data: seq<MonthTotal>): nat
  {
    if data == [] then 0 else data[0].total + TotalOf(data[1..])
  }

  lemma {:induction false} TotalOfAppend(a: seq<MonthTotal>, b: seq<MonthTotal>)
    ensures TotalOf(a + b) == TotalOf(a) + TotalOf(b)
  {
    if a == [] {
      assert a + b == b;
    } else {
      assert (a + b)[1..] == a[1..] + b;
      TotalOfAppend(a[1..], b);
    }
  }

  /** The cost of all the groups together. */
  function GroupsCost(groups: seq<seq<Record>>): nat
  {
    if groups == [] then 0 else SumCost(groups[0]) + GroupsCost(groups[1..])
  }

  /** The rows name months `first..first + |groups| - 1`, strictly ascending. */
  lemma {:induction false} ReportRowsOrdered(groups: seq<seq<Record>>, first: int)
    ensures forall i :: 0 <= i < |ReportRows(groups, first)| ==>
              first <= ReportRows(groups, first)[i].month < first + |groups|
    ensures forall i, j :: 0 <= i < j < |ReportRows(groups, first)| ==>
              ReportRows(groups, first)[i].month < ReportRows(groups, first)[j].month
    decreases |groups|
  {
    if groups != [] {
      ReportRowsOrdered(groups[1..], first + 1);
    }
  }

  /** Some row of `rows` is for month `m`. */
  ghost predicate HasMonth(rows: seq<MonthTotal>, m: int)
  {
    exists i :: 0 <= i < |rows| && rows[i].month == m
  }

  /** Every row of `rows` for month `m` holds `total`. */
  ghost predicate MonthHolds(rows: seq<MonthTotal>, m: int, total: nat)
  {
    forall i :: 0 <= i < |rows| && rows[i].month == m ==> rows[i].total == total
  }

  lemma HasMonthAppend(a: seq<MonthTotal>, b: seq<MonthTotal>, m: int)
    ensures HasMonth(a + b, m) <==> HasMonth(a, m) || HasMonth(b, m)
  {
    if HasMonth(a + b, m) {
      var i :| 0 <= i < |a + b| && (a + b)[i].month == m;
      if i < |a| {
        assert a[i].month == m;
      } else {
        assert b[i - |a|].month == m;
      }
    }
    if HasMonth(a, m) {
      var i :| 0 <= i < |a| && a[i].month == m;
      assert (a + b)[i].month == m;
    }
    if HasMonth(b, m) {
      var j :| 0 <= j < |b| && b[j].month == m;
      assert (a + b)[j + |a|].month == m;
    }
  }

  lemma MonthHoldsAppend(a: seq<MonthTotal>, b: seq<MonthTotal>, m: int, total: nat)
    ensures MonthHolds(a + b, m, total) <==> MonthHolds(a, m, total) && MonthHolds(b, m, total)
  {
    if MonthHolds(a + b, m, total) {
      forall i | 0 <= i < |a| && a[i].month == m ensures a[i].total == total {
        assert (a + b)[i] == a[i];
      }
      forall j | 0 <= j < |b| && b[j].month == m ensures b[j].total == total {
        assert (a + b)[j + |a|] == b[j];
      }
    }
    if MonthHolds(a, m, total) && MonthHolds(b, m, total) {
      forall i | 0 <= i < |a + b| && (a + b)[i].month == m ensures (a + b)[i].total == total {
        if i >= |a| {
          assert (a + b)[i] == b[i - |a|];
        }
      }
    }
  }

  /** Group `k` has a row exactly when it has records, and the row holds the
      total cost of those records. */
  lemma {:induction false} ReportRowsAt(groups: seq<seq<Record>>, first: int, k: int)
    requires 0 <= k < |groups|
    ensures HasMonth(ReportRows(groups, first), first + k) <==> |groups[k]| > 0
    ensures MonthHolds(ReportRows(groups, first), first + k, SumCost(groups[k]))
    decreases |groups|
  {
    var head := MonthRow(groups[0], first);
    var tail := ReportRows(groups[1..], first + 1);
    assert ReportRows(groups, first) == head + tail;
    HasMonthAppend(head, tail, first + k);
    MonthHoldsAppend(head, tail, first + k, SumCost(groups[k]));
    MonthRowFacts(groups[0], first, first + k, SumCost(groups[k]));
    if k > 0 {
      ReportRowsAt(groups[1..], first + 1, k - 1);
      assert groups[1..][k - 1] == groups[k];
    } else {
      RowsBeforeFirst(groups[1..], first + 1, first, SumCost(groups[0]));
    }
  }

  /** The row of one month is for that month only, and holds its cost. */
  lemma MonthRowFacts(inMonth: seq<Record>, m: int, m': int, total: nat)
    ensures HasMonth(MonthRow(inMonth, m), m') <==> m' == m && |inMonth| > 0
    ensures m' == m ==> MonthHolds(MonthRow(inMonth, m), m', SumCost(inMonth))
    ensures m' != m ==> MonthHolds(MonthRow(inMonth, m), m', total)
  {
    if |inMonth| > 0 {
      assert MonthRow(inMonth, m)[0].month == m;
    }
  }

  /** No row is for a month before the first. */
  lemma RowsBeforeFirst(groups: seq<seq<Record>>, first: int, m: int, total: nat)
    requires m < first
    ensures !HasMonth(ReportRows(groups, first), m)
    ensures MonthHolds(ReportRows(groups, first), m, total)
  {
    ReportRowsOrdered(groups, first);
  }

  /** The row totals add up to the cost of all the groups: an empty group
      costs nothing. */
  lemma {:induction false} ReportRowsTotal(groups: seq<seq<Record>>, first: int)
    ensures TotalOf(ReportRows(groups, first)) == GroupsCost(groups)
    decreases |groups|
  {
    if groups != [] {
      var head := MonthRow(groups[0], first);
      TotalOfAppend(head, ReportRows(groups[1..], first + 1));
      if |groups[0]| == 0 {
        assert groups[0] == [];
      }
      ReportRowsTotal(groups[1..], first + 1);
    }
  }

  /** Ranges that follow one another day after day. */
  ghost predicate Contiguous(ranges: seq<(int, int)>)
  {
    && (forall i :: 0 <= i < |ranges| ==> ranges[i].0 <= ranges[i].1 + 1)
    && (forall i, j :: 0 <= i && j == i + 1 && j < |ranges| ==> ranges[i].1 + 1 == ranges[j].0)
  }

  /** Contiguous ranges split the cost of the records from the first day of the
      first range to the last day of the last one, without loss or overlap. */
  lemma {:induction false} GroupsCostSplit(records: seq<Record>, ranges: seq<(int, int)>)
    requires ranges != [] && Contiguous(ranges)
    ensures GroupsCost(Groups(records, ranges)) == SumCost(InPeriod(records, ranges[0].0, ranges[|ranges| - 1].1))
    decreases |ranges|
  {
    if |ranges| > 1 {
      ContiguousRest(ranges);
      GroupsCostSplit(records, ranges[1..]);
      GroupsCostStep(records, ranges);
    } else {
      GroupsCostCons(records, ranges);
      assert Groups(records, ranges[1..]) == [];
    }
  }

  /** One step of the split: if the ranges after the first split the cost of
      their span, all the ranges split the cost of theirs. */
  lemma GroupsCostStep(records: seq<Record>, ranges: seq<(int, int)>)
    requires |ranges| > 1 && Contiguous(ranges)
    requires GroupsCost(Groups(records, ranges[1..])) == SumCost(InPeriod(records, ranges[1].0, ranges[|ranges| - 1].1))
    ensures GroupsCost(Groups(records, ranges)) == SumCost(InPeriod(records, ranges[0].0, ranges[|ranges| - 1].1))
  {
    var lo, mid, hi := ranges[0].0, ranges[0].1, ranges[|ranges| - 1].1;
    ContiguousRest(ranges);
    assert ranges[1].0 == mid + 1;
    var restCost := GroupsCost(Groups(records, ranges[1..]));
    assert restCost == SumCost(InPeriod(records, mid + 1, hi));
    GroupsCostCons(records, ranges);
    assert GroupsCost(Groups(records, ranges)) == SumCost(InPeriod(records, lo, mid)) + restCost;
    PeriodCostSplit(records, lo, mid, hi);
  }

  /** The cost of the groups is the cost of the first range plus that of the others. */
  lemma GroupsCostCons(records: seq<Record>, ranges: seq<(int, int)>)
    requires ranges != []
    ensures GroupsCost(Groups(records, ranges)) ==
              SumCost(InPeriod(records, ranges[0].0, ranges[0].1)) + GroupsCost(Groups(records, ranges[1..]))
  {
    var g := Groups(records, ranges);
    assert g[0] == InPeriod(records, ranges[0].0, ranges[0].1);
    assert g[1..] == Groups(records, ranges[1..]);
  }

  /** Dropping the first of several contiguous ranges leaves contiguous ranges
      that start the day after the first one ends and end where all of them end. */
  lemma ContiguousRest(ranges: seq<(int, int)>)
    requires |ranges| > 1 && Contiguous(ranges)
    ensures Contiguous(ranges[1..])
    ensures ranges[1..][0].0 == ranges[0].1 + 1
    ensures ranges[1..][|ranges| - 2].1 == ranges[|ranges| - 1].1
    ensures ranges[0].0 <= ranges[0].1 + 1 && ranges[0].1 <= ranges[|ranges| - 1].1
  {
    var rest := ranges[1..];
    assert forall i :: 0 <= i < |rest| ==> rest[i] == ranges[i + 1];
    RangesOrdered(ranges, 1, |ranges| - 1);
  }

  /** In contiguous ranges a later range ends no earlier than one day before
      an earlier range starts. */
  lemma {:induction false} RangesOrdered(ranges: seq<(int, int)>, i: int, j: int)
    requires Contiguous(ranges) && 0 <= i <= j < |ranges|
    ensures ranges[i].0 <= ranges[j].1 + 1
    decreases j - i
  {
    if i < j {
      RangesOrdered(ranges, i + 1, j);
    }
  }

  /** The months of a year follow one another from January 1st to December 31st. */
  lemma MonthRangesContiguous(year: int)
    requires MinYear <= year <= MaxYear
    ensures Contiguous(MonthRanges(year))
    ensures MonthRanges(year)[0].0 == YearBounds(year).0
    ensures MonthRanges(year)[11].1 == YearBounds(year).1
  {
    var ranges := MonthRanges(year);
    forall i | 0 <= i < 12 ensures ranges[i].0 <= ranges[i].1 + 1 {
      MonthWithinYear(year, i + 1);
    }
    forall i | 0 <= i < 11 ensures ranges[i].1 + 1 == ranges[i + 1].0 {
      NextMonthStart(year, i + 1);
    }
  }

  /** The report lists distinct months in ascending order, only months that
      have records and every month that has them, each with its cost; and
      `total_year` is the cost of every record of the year. */
  lemma MonthlyReportFacts(records: seq<Record>, year: int)
    requires MinYear <= year <= MaxYear
    ensures var data := MonthlyReport(records, year);
            && (forall i :: 0 <= i < |data| ==> 1 <= data[i].month <= 12)
            && (forall i, j :: 0 <= i < j < |data| ==> data[i].month < data[j].month)
            && (forall k :: 1 <= k <= 12 ==>
                  ((exists i :: 0 <= i < |data| && data[i].month == k) <==> |InMonth(records, year, k)| > 0))
            && (forall i :: 0 <= i < |data| ==> data[i].total == SumCost(InMonth(records, year, data[i].month)))
            && TotalOf(data) == SumCost(InPeriod(records, YearBounds(year).0, YearBounds(year).1))
  {
    ReportRowsOrdered(Groups(records, MonthRanges(year)), 1);
    MonthlyReportPresence(records, year);
    MonthlyReportRowTotals(records, year);
    MonthlyReportTotal(records, year);
  }

  /** A month has a row exactly when it has records. */
  lemma MonthlyReportPresence(records: seq<Record>, year: int)
    requires MinYear <= year <= MaxYear
    ensures var data := MonthlyReport(records, year);
            forall k :: 1 <= k <= 12 ==>
              ((exists i :: 0 <= i < |data| && data[i].month == k) <==> |InMonth(records, year, k)| > 0)
  {
    var ranges := MonthRanges(year);
    var groups := Groups(records, ranges);
    var data := MonthlyReport(records, year);
    assert data == ReportRows(groups, 1);
    forall k | 1 <= k <= 12
      ensures HasMonth(data, k) <==> |InMonth(records, year, k)| > 0
    {
      ReportRowsAt(groups, 1, k - 1);
      GroupsAt(records, ranges, k - 1);
    }
  }

  /** Each row's total is the cost of its month's records. */
  lemma MonthlyReportRowTotals(records: seq<Record>, year: int)
    requires MinYear <= year <= MaxYear
    ensures var data := MonthlyReport(records, year);
            forall i :: 0 <= i < |data| ==> 1 <= data[i].month <= 12 && data[i].total == SumCost(InMonth(records, year, data[i].month))
  {
    var ranges := MonthRanges(year);
    var groups := Groups(records, ranges);
    var data := MonthlyReport(records, year);
    assert data == ReportRows(groups, 1);
    ReportRowsOrdered(groups, 1);
    forall i | 0 <= i < |data|
      ensures data[i].total == SumCost(InMonth(records, year, data[i].month))
    {
      var m := data[i].month;
      ReportRowsAt(groups, 1, m - 1);
      GroupsAt(records, ranges, m - 1);
    }
  }

  /** The rows add up to the year's cost. */
  lemma MonthlyReportTotal(records: seq<Record>, year: int)
    requires MinYear <= year <= MaxYear
    ensures TotalOf(MonthlyReport(records, year)) == SumCost(InPeriod(records, YearBounds(year).0, YearBounds(year).1))
  {
    var ranges := MonthRanges(year);
    var groups := Groups(records, ranges);
    assert MonthlyReport(records, year) == ReportRows(groups, 1);
    MonthRangesContiguous(year);
    ReportRowsTotal(groups, 1);
    GroupsCostSplit(records, ranges);
  }

  /** What the report page shows: the year, its rows and `total_year`. */
  datatype ReportPage = ReportPage(year: int, data: seq<MonthTotal>, totalYear: nat)

  /** `maintenance_report`: `?year=` (parsed as an integer, None when absent
      or not a number) falls back to the current year when missing or 0. */
  function MaintenanceReport(records: seq<Record>, requested: Option<int>, currentYear: int): ReportPage
  {
    var year := ReportYear(requested, currentYear);
    var data := MonthlyReport(records, year);
    ReportPage(year, data, TotalOf(data))
  }

  /** The page shows the requested year unless it is missing or 0, and its
      `total_year` is the cost of every record dated in that year (0 for a
      year no date can have). */
  lemma MaintenanceReportFacts(records: seq<Record>, requested: Option<int>, currentYear: int)
    ensures var page := MaintenanceReport(records, requested, currentYear);
            && page.year == (if requested.Some? && requested.value != 0 then requested.value else currentYear)
            && (MinYear <= page.year <= MaxYear ==>
                  page.totalYear == SumCost(InPeriod(records, YearBounds(page.year).0, YearBounds(page.year).1)))
            && (!(MinYear <= page.year <= MaxYear) ==> page.data == [] && page.totalYear == 0)
  {
    var year := ReportYear(requested, currentYear);
    if MinYear <= year <= MaxYear {
      MonthlyReportTotal(records, year);
    }
  }

  /** An out-of-range year has no records and an empty report. */
  lemma MonthlyReportOutOfRange(records: seq<Record>, year: int)
    requires !(MinYear <= year <= MaxYear)
    ensures MonthlyReport(records, year) == [] && TotalOf(MonthlyReport(records, year)) == 0
  {
  }

  /** What the maintenance dashboard shows. `rate` and `avgCost` are the values
      before Python's `round`. */
  datatype Dashboard = Dashboard(
    year: PeriodStats,
    rate: real,
    avgCost: real,
    month: PeriodStats,
    overdue: nat,
    due30: nat,
    overdueRecords: seq<Record>,
    recent: seq<Record>,
    upcoming: seq<Record>)

  /** `maintenance_dashboard` for `today`; None when the month bounds cannot be
      built (December of year 9999). */
  function MaintenanceDashboard(records: seq<Record>, today: Date): (v: Option<Dashboard>)
    requires ValidDate(today)
    ensures v.None? <==> today.year == MaxYear && today.month == 12
  {
    var t := OrdinalOf(today);
    var (startYear, endYear) := YearBounds(today.year);
    var year := Stats(InPeriod(records, startYear, endYear));
    match MonthBounds(today.year, today.month)
    case None => None
    case Some((startMonth, endMonth)) =>
      Some(Dashboard(
        year := year,
        rate := CompletionRate(year),
        avgCost := AvgCost(year),
        month := Stats(InPeriod(records, startMonth, endMonth)),
        overdue := DueDates.OverdueCount(records, t),
        due30 := DueDates.Due30Count(records, t),
        overdueRecords := DueDates.OverdueRecords(records, t),
        recent := DueDates.Recent(records),
        upcoming := DueDates.Upcoming(records, t)))
  }

  /** The dashboard's figures: the month's records are those dated within the
      current calendar month and are among the year's; the year's counts are
      bounded by its record total; the completion rate is a percentage (0
      for an empty year); overdue and due-in-30-days records are disjoint. */
  lemma DashboardFacts(records: seq<Record>, today: Date)
    requires ValidDate(today) && !(today.year == MaxYear && today.month == 12)
    ensures var v := MaintenanceDashboard(records, today).value;
            var t := OrdinalOf(today);
            && v.month == Stats(InPeriod(records, MonthStart(today.year, today.month), MonthEnd(today.year, today.month)))
            && MonthStart(today.year, today.month) <= t <= MonthEnd(today.year, today.month)
            && v.month.total <= v.year.total
            && v.year.completed + v.year.scheduled + v.year.inProgress + v.year.cancelled <= v.year.total
            && v.month.completed + v.month.inProgress <= v.month.total
            && 0.0 <= v.rate <= 100.0
            && (v.year.total == 0 ==> v.rate == 0.0 && v.avgCost == 0.0)
            && v.overdue + v.due30 <= |records|
  {
    DashboardMonthFacts(records, today);
    DashboardYearFacts(records, today);
    DueDates.DashboardCountsDisjoint(records, OrdinalOf(today));
  }

  /** The month's figures come from the records dated within today's month,
      which are among the year's. */
  lemma DashboardMonthFacts(records: seq<Record>, today: Date)
    requires ValidDate(today) && !(today.year == MaxYear && today.month == 12)
    ensures var v := MaintenanceDashboard(records, today).value;
            && v.month == Stats(InPeriod(records, MonthStart(today.year, today.month), MonthEnd(today.year, today.month)))
            && MonthStart(today.year, today.month) <= OrdinalOf(today) <= MonthEnd(today.year, today.month)
            && v.month.total <= v.year.total
            && v.month.completed + v.month.inProgress <= v.month.total
  {
    var y, m := today.year, today.month;
    var (startYear, endYear) := YearBounds(y);
    InMonthIff(today, y, m);
    MonthWithinYear(y, m);
    CountImplies(records, DoneIn(MonthStart(y, m), MonthEnd(y, m)), DoneIn(startYear, endYear));
    StatsCountsBounded(InPeriod(records, MonthStart(y, m), MonthEnd(y, m)));
  }

  /** The year's counts are bounded by its total and its rate is a percentage. */
  lemma DashboardYearFacts(records: seq<Record>, today: Date)
    requires ValidDate(today) && !(today.year == MaxYear && today.month == 12)
    ensures var v := MaintenanceDashboard(records, today).value;
            && v.year.completed + v.year.scheduled + v.year.inProgress + v.year.cancelled <= v.year.total
            && 0.0 <= v.rate <= 100.0
            && (v.year.total == 0 ==> v.rate == 0.0 && v.avgCost == 0.0)
  {
    var (startYear, endYear) := YearBounds(today.year);
    StatsCountsBounded(InPeriod(records, startYear, endYear));
    CompletionRateBounds(InPeriod(records, startYear, endYear));
    AvgCostBounds(InPeriod(records, startYear, endYear));
  }
}

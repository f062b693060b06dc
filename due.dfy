/** Due-date classification: the home page's capped "due within 30 days"
    list with its overdue/due-soon split and notice, and the dashboard's
    global overdue and due-in-30-days counts and lists. */
module DueDates {
  import opened Common
  import opened Records

  const DueWindowDays := 30
  const DueListLimit := 10
  const RecentLimit := 8

  /** `next_due_date >= today` (on a record that has one). */
  predicate IsDueSoon(r: Record, today: int)
  {
    r.nextDue.Some? && r.nextDue.value >= today
  }

  function DueSoonAt(today: int): Record -> bool { r => IsDueSoon(r, today) }

  /** The home page's `due_records`: records with a due date no later than
      `today + 30`, earliest first, at most 10. */
  function DueList(records: seq<Record>, today: int): seq<Record>
  {
    EarliestDue(records, DueUpTo(today + DueWindowDays), DueListLimit)
  }

  /** What the home page counts in `due_records`. */
  datatype Tally = Tally(overdue: nat, dueSoon: nat)

  function Classify(due: seq<Record>, today: int): Tally
  {
    Tally(Count(due, OverdueAt(today)), Count(due, DueSoonAt(today)))
  }

  /** The flashed notice: a warning about overdue records takes priority over
      an informational one about records due soon. */
  datatype Notice = Warning(overdue: nat) | Info(dueSoon: nat) | Quiet

  function HomeNotice(t: Tally): Notice
  {
    if t.overdue > 0 then Warning(t.overdue)
    else if t.dueSoon > 0 then Info(t.dueSoon)
    else Quiet
  }

  /** The dashboard's `overdue`: every record with a due date before today. */
  function OverdueCount(records: seq<Record>, today: int): nat
  {
    Count(records, OverdueAt(today))
  }

  /** The dashboard's `due_30`: due dates in [today, today + 30], both ends included. */
  function Due30Count(records: seq<Record>, today: int): nat
  {
    Count(records, DueIn(today, today + DueWindowDays))
  }

  /** The dashboard's `overdue_records`, `upcoming` and `recent` lists. */
  function OverdueRecords(records: seq<Record>, today: int): seq<Record>
  {
    EarliestDue(records, OverdueAt(today), DueListLimit)
  }

  function Upcoming(records: seq<Record>, today: int): seq<Record>
  {
    SortBy(Filter(records, DueIn(today, today + DueWindowDays)), DueKey)
  }

  function Recent(records: seq<Record>): seq<Record>
  {
    Take(SortBy(records, DateDescKey), RecentLimit)
  }

  /** Permuted sequences have the same counts. */
  lemma {:induction false} CountPermutation(a: seq<Record>, b: seq<Record>, p: Record -> bool)
    requires multiset(a) == multiset(b)
    ensures Count(a, p) == Count(b, p)
    decreases |a|
  {
    if a != [] {
      assert a[0] in multiset(b);
      var j :| 0 <= j < |b| && b[j] == a[0];
      var rest := b[..j] + b[j + 1..];
      assert b == b[..j] + [b[j]] + b[j + 1..];
      assert multiset(b) == multiset(b[..j]) + multiset{b[j]} + multiset(b[j + 1..]);
      assert a == [a[0]] + a[1..];
      assert multiset(a) == multiset{a[0]} + multiset(a[1..]);
      assert multiset(rest) == multiset(b[..j]) + multiset(b[j + 1..]);
      assert multiset(a[1..]) == multiset(a) - multiset{a[0]};
      assert multiset(rest) == multiset(b) - multiset{b[j]};
      CountAppend(b[..j] + [b[j]], b[j + 1..], p);
      CountAppend(b[..j], [b[j]], p);
      CountAppend(b[..j], b[j + 1..], p);
      CountPermutation(a[1..], rest, p);
    }
  }

  /** When `p` holds on a prefix of `s` only, the first `k` elements hold
      `min(k, Count(s, p))` elements satisfying it. */
  lemma {:induction false} CountClosedPrefix(s: seq<Record>, p: Record -> bool, k: nat)
    requires k <= |s|
    requires forall i, j :: 0 <= i < j < |s| && p(s[j]) ==> p(s[i])
    ensures Count(s[..k], p) == Min(k, Count(s, p))
  {
    if k > 0 {
      if p(s[0]) {
        assert s[..k][1..] == s[1..][..k - 1];
        CountClosedPrefix(s[1..], p, k - 1);
      } else {
        assert forall i :: 0 <= i < |s| ==> !p(s[i]);
        assert forall i :: 0 <= i < k ==> !p(s[..k][i]);
      }
    }
  }

  /** The earliest-first query `filter(f).order_by(next_due_date.asc()).limit(n)`. */
  function EarliestDue(records: seq<Record>, f: Record -> bool, n: nat): seq<Record>
  {
    Take(SortBy(Filter(records, f), DueKey), n)
  }

  lemma EarliestDueMembers(records: seq<Record>, f: Record -> bool, n: nat)
    ensures |EarliestDue(records, f, n)| == Min(n, Count(records, f))
    ensures forall r :: r in EarliestDue(records, f, n) ==> r in records && f(r)
    ensures multiset(EarliestDue(records, f, n)) <= multiset(records)
  {
    var sorted := SortBy(Filter(records, f), DueKey);
    TakeFacts(sorted, n);
    forall r | r in EarliestDue(records, f, n) ensures r in records && f(r) {
      assert r in multiset(sorted);
    }
  }

  lemma EarliestDueSorted(records: seq<Record>, f: Record -> bool, n: nat)
    ensures SortedBy(EarliestDue(records, f, n), DueKey)
  {
    var sorted := SortBy(Filter(records, f), DueKey);
    TakeFacts(sorted, n);
  }

  /** A record that qualifies but was cut by the limit is due no earlier than
      any listed record. */
  lemma EarliestDueKeepsEarliest(records: seq<Record>, f: Record -> bool, n: nat)
    ensures forall r, s :: r in EarliestDue(records, f, n) && s in records && f(s) && s !in EarliestDue(records, f, n) ==>
              DueKey(r) <= DueKey(s)
  {
    var eligible := Filter(records, f);
    var sorted := SortBy(eligible, DueKey);
    TakeFacts(sorted, n);
    var k := Min(n, |sorted|);
    assert EarliestDue(records, f, n) == sorted[..k];
    PrefixKeepsLeast(sorted, k, DueKey);
    forall s | s in records && f(s) ensures s in sorted {
      assert s in eligible;
      assert s in multiset(sorted);
    }
  }

  /** The home page's list: its size, its members, its order, and that it
      keeps the earliest due dates when more than ten qualify. */
  lemma DueListFacts(records: seq<Record>, today: int)
    ensures var due := DueList(records, today);
            && |due| == Min(DueListLimit, Count(records, DueUpTo(today + DueWindowDays)))
            && (forall r :: r in due ==> r in records && DueBy(r, today + DueWindowDays))
            && SortedBy(due, DueKey)
            && multiset(due) <= multiset(records)
            && (forall r, s :: r in due && s in records && DueBy(s, today + DueWindowDays) && s !in due ==>
                  r.nextDue.value <= s.nextDue.value)
  {
    var f := DueUpTo(today + DueWindowDays);
    var due := DueList(records, today);
    EarliestDueMembers(records, f, DueListLimit);
    EarliestDueSorted(records, f, DueListLimit);
    EarliestDueKeepsEarliest(records, f, DueListLimit);
    forall r, s | r in due && s in records && DueBy(s, today + DueWindowDays) && s !in due
      ensures r.nextDue.value <= s.nextDue.value
    {
      assert f(r) && f(s);
      assert DueKey(r) <= DueKey(s);
    }
  }

  /** The split of the home page's list covers it: overdue + due_soon == len(due_records). */
  lemma ClassifyCovers(records: seq<Record>, today: int)
    ensures var due := DueList(records, today);
            var t := Classify(due, today);
            t.overdue + t.dueSoon == |due| <= DueListLimit
    ensures forall r :: r in DueList(records, today) ==> (IsOverdue(r, today) <==> !IsDueSoon(r, today))
  {
    var due := DueList(records, today);
    DueListFacts(records, today);
    forall i | 0 <= i < |due|
      ensures IsOverdue(due[i], today) <==> !IsDueSoon(due[i], today)
    {
      assert due[i] in due;
    }
    CountPartition(due, OverdueAt(today), DueSoonAt(today));
  }

  /** Every record of the sorted filtered list passes the filter. */
  lemma SortedFilterMembers(records: seq<Record>, f: Record -> bool)
    ensures forall i :: 0 <= i < |SortBy(Filter(records, f), DueKey)| ==> f(SortBy(Filter(records, f), DueKey)[i])
  {
    var sorted := SortBy(Filter(records, f), DueKey);
    forall i | 0 <= i < |sorted| ensures f(sorted[i]) {
      assert sorted[i] in multiset(Filter(records, f));
    }
  }

  /** In a list sorted by due date where every record has one, the overdue
      records come first, so a prefix of length `k` holds min(k, overdue) of them. */
  lemma OverdueComeFirst(sorted: seq<Record>, today: int, k: nat)
    requires k <= |sorted| && SortedBy(sorted, DueKey)
    requires forall i :: 0 <= i < |sorted| ==> sorted[i].nextDue.Some?
    ensures Count(sorted[..k], OverdueAt(today)) == Min(k, Count(sorted, OverdueAt(today)))
  {
    forall i, j | 0 <= i < j < |sorted| && OverdueAt(today)(sorted[j]) ensures OverdueAt(today)(sorted[i]) {
      assert DueKey(sorted[i]) <= DueKey(sorted[j]);
    }
    CountClosedPrefix(sorted, OverdueAt(today), k);
  }

  /** The home page's overdue figure is the dashboard's true overdue count,
      capped at 10: overdue records sort before every other listed record. */
  lemma HomeOverdueIsCapped(records: seq<Record>, today: int)
    ensures Classify(DueList(records, today), today).overdue == Min(DueListLimit, OverdueCount(records, today))
  {
    var f := DueUpTo(today + DueWindowDays);
    var eligible := Filter(records, f);
    var sorted := SortBy(eligible, DueKey);
    var k := Min(DueListLimit, |sorted|);
    TakeFacts(sorted, DueListLimit);
    assert DueList(records, today) == sorted[..k];
    SortedFilterMembers(records, f);
    assert forall i :: 0 <= i < |sorted| ==> f(sorted[i]);
    OverdueComeFirst(sorted, today, k);
    CountPermutation(sorted, eligible, OverdueAt(today));
    CountFilter(records, f, OverdueAt(today), OverdueAt(today));
  }

  /** The records the home page lists are all due soon when none is overdue. */
  lemma DueSoonWhenNoneOverdue(records: seq<Record>, today: int)
    requires OverdueCount(records, today) == 0
    ensures Classify(DueList(records, today), today).dueSoon == Min(DueListLimit, Due30Count(records, today))
  {
    DueListFacts(records, today);
    ClassifyCovers(records, today);
    HomeOverdueIsCapped(records, today);
    forall r | r in records ensures DueUpTo(today + DueWindowDays)(r) == DueIn(today, today + DueWindowDays)(r) {
    }
    CountSame(records, DueUpTo(today + DueWindowDays), DueIn(today, today + DueWindowDays));
  }

  lemma {:induction false} CountSame(s: seq<Record>, p: Record -> bool, q: Record -> bool)
    requires forall r :: r in s ==> p(r) == q(r)
    ensures Count(s, p) == Count(s, q)
  {
    if s != [] {
      assert s[0] in s;
      assert forall r :: r in s[1..] ==> r in s;
      CountSame(s[1..], p, q);
    }
  }

  /** The home notice is a warning exactly when some record anywhere is
      overdue, and then reports the capped count; it is informational
      exactly when none is overdue and some record is due within 30 days. */
  lemma HomeNoticeMeaning(records: seq<Record>, today: int)
    ensures var n := HomeNotice(Classify(DueList(records, today), today));
            && (n.Warning? <==> OverdueCount(records, today) > 0)
            && (n.Warning? ==> n.overdue == Min(DueListLimit, OverdueCount(records, today)))
            && (n.Info? <==> OverdueCount(records, today) == 0 && Due30Count(records, today) > 0)
            && (n.Info? ==> n.dueSoon == Min(DueListLimit, Due30Count(records, today)))
  {
    HomeOverdueIsCapped(records, today);
    if OverdueCount(records, today) == 0 {
      DueSoonWhenNoneOverdue(records, today);
    }
  }

  /** The dashboard's overdue and due-in-30-days counts never count one record twice. */
  lemma DashboardCountsDisjoint(records: seq<Record>, today: int)
    ensures forall r :: !(IsOverdue(r, today) && DueBetween(r, today, today + DueWindowDays))
    ensures OverdueCount(records, today) + Due30Count(records, today) <= |records|
  {
    CountDisjoint(records, OverdueAt(today), DueIn(today, today + DueWindowDays));
  }

  /** The dashboard's lists: overdue ones capped at 10, upcoming ones in full,
      each earliest first. */
  lemma DashboardListsFacts(records: seq<Record>, today: int)
    ensures |OverdueRecords(records, today)| == Min(DueListLimit, OverdueCount(records, today))
    ensures forall r :: r in OverdueRecords(records, today) ==> r in records && IsOverdue(r, today)
    ensures SortedBy(OverdueRecords(records, today), DueKey)
    ensures forall r, s ::
              r in OverdueRecords(records, today) && s in records && IsOverdue(s, today) && s !in OverdueRecords(records, today)
              ==> r.nextDue.value <= s.nextDue.value
    ensures |Upcoming(records, today)| == Due30Count(records, today)
    ensures forall r :: r in Upcoming(records, today) <==> r in records && DueBetween(r, today, today + DueWindowDays)
    ensures multiset(Upcoming(records, today)) == multiset(Filter(records, DueIn(today, today + DueWindowDays)))
    ensures SortedBy(Upcoming(records, today), DueKey)
  {
    var f := OverdueAt(today);
    var ov := OverdueRecords(records, today);
    EarliestDueMembers(records, f, DueListLimit);
    EarliestDueSorted(records, f, DueListLimit);
    EarliestDueKeepsEarliest(records, f, DueListLimit);
    forall r, s | r in ov && s in records && IsOverdue(s, today) && s !in ov
      ensures r.nextDue.value <= s.nextDue.value
    {
      assert f(r) && f(s);
      assert DueKey(r) <= DueKey(s);
    }
    UpcomingFacts(records, today);
  }

  /** `upcoming` lists every record due within the window, and no other. */
  lemma UpcomingFacts(records: seq<Record>, today: int)
    ensures forall r :: r in Upcoming(records, today) <==> r in records && DueBetween(r, today, today + DueWindowDays)
    ensures multiset(Upcoming(records, today)) == multiset(Filter(records, DueIn(today, today + DueWindowDays)))
  {
    var eligible := Filter(records, DueIn(today, today + DueWindowDays));
    var up := Upcoming(records, today);
    assert multiset(up) == multiset(eligible);
    forall r ensures r in up <==> r in eligible {
      assert r in up <==> r in multiset(up);
      assert r in eligible <==> r in multiset(eligible);
    }
  }

  /** The dashboard's `recent` list: the 8 latest records by maintenance date. */
  lemma RecentFacts(records: seq<Record>)
    ensures |Recent(records)| == Min(RecentLimit, |records|)
    ensures multiset(Recent(records)) <= multiset(records)
    ensures forall i, j :: 0 <= i < j < |Recent(records)| ==> Recent(records)[i].maintenanceDate >= Recent(records)[j].maintenanceDate
    ensures forall r, s :: r in Recent(records) && s in records && s !in Recent(records) ==>
              s.maintenanceDate <= r.maintenanceDate
  {
    var byDate := SortBy(records, DateDescKey);
    var k := Min(RecentLimit, |byDate|);
    TakeFacts(byDate, RecentLimit);
    assert Recent(records) == byDate[..k];
    forall i, j | 0 <= i < j < |Recent(records)|
      ensures Recent(records)[i].maintenanceDate >= Recent(records)[j].maintenanceDate
    {
      assert DateDescKey(byDate[i]) <= DateDescKey(byDate[j]);
    }
    PrefixKeepsLeast(byDate, k, DateDescKey);
    forall s | s in records ensures s in byDate {
      assert s in multiset(byDate);
    }
    forall r, s | r in Recent(records) && s in records && s !in Recent(records)
      ensures s.maintenanceDate <= r.maintenanceDate
    {
      assert DateDescKey(r) <= DateDescKey(s);
    }
  }
}

/** Small sequence toolkit shared by the maintenance modules: optional
    values, counting and filtering by a predicate, and a stable insertion
    sort by an integer key (the model of an SQL `ORDER BY`). */
module Common {

  datatype Option<+T> = None | Some(value: T)

  /** Number of elements of `s` that satisfy `p` (Python's `sum(1 for x in s if p(x))`). */
  function Count<T>(s: seq<T>, p: T -> bool): (n: nat)
    ensures n <= |s|
    ensures n == 0 <==> forall i :: 0 <= i < |s| ==> !p(s[i])
    ensures n == |s| <==> forall i :: 0 <= i < |s| ==> p(s[i])
  {
    if s == [] then 0 else (if p(s[0]) then 1 else 0) + Count(s[1..], p)
  }

  /** The elements of `s` that satisfy `p`, in their original order (an SQL `WHERE`). */
  function Filter<T(!new)>(s: seq<T>, p: T -> bool): (r: seq<T>)
    ensures |r| == Count(s, p)
    ensures forall x :: x in r <==> x in s && p(x)
    ensures multiset(r) <= multiset(s)
  {
    if s == [] then []
    else
      var rest := Filter(s[1..], p);
      assert s == [s[0]] + s[1..];
      assert multiset(s) == multiset{s[0]} + multiset(s[1..]);
      if p(s[0]) then [s[0]] + rest else rest
  }

  /** At most the first `n` elements (an SQL `LIMIT n`). */
  function Take<T>(s: seq<T>, n: nat): (r: seq<T>)
  {
    if |s| <= n then s else s[..n]
  }

  function Min(a: int, b: int): int { if a <= b then a else b }

  lemma TakeFacts<T>(s: seq<T>, n: nat)
    ensures |Take(s, n)| == Min(n, |s|)
    ensures Take(s, n) == s[..Min(n, |s|)]
    ensures multiset(Take(s, n)) <= multiset(s)
  {
    if |s| > n {
      assert s == s[..n] + s[n..];
      assert multiset(s) == multiset(s[..n]) + multiset(s[n..]);
    } else {
      assert s[..|s|] == s;
    }
  }

  lemma {:induction false} CountAppend<T>(a: seq<T>, b: seq<T>, p: T -> bool)
    ensures Count(a + b, p) == Count(a, p) + Count(b, p)
  {
    if a == [] {
      assert a + b == b;
    } else {
      assert (a + b)[1..] == a[1..] + b;
      CountAppend(a[1..], b, p);
    }
  }

  /** Counting is monotone in the predicate. */
  lemma {:induction false} CountImplies<T>(s: seq<T>, p: T -> bool, q: T -> bool)
    requires forall x :: p(x) ==> q(x)
    ensures Count(s, p) <= Count(s, q)
  {
    if s != [] {
      CountImplies(s[1..], p, q);
    }
  }

  /** Two predicates that no element satisfies together count disjoint parts of `s`. */
  lemma {:induction false} CountDisjoint<T>(s: seq<T>, p: T -> bool, q: T -> bool)
    requires forall x :: !(p(x) && q(x))
    ensures Count(s, p) + Count(s, q) <= |s|
  {
    if s != [] {
      CountDisjoint(s[1..], p, q);
    }
  }

  /** Two predicates that split every element of `s` between them count all of `s`. */
  lemma {:induction false} CountPartition<T>(s: seq<T>, p: T -> bool, q: T -> bool)
    requires forall i :: 0 <= i < |s| ==> (p(s[i]) <==> !q(s[i]))
    ensures Count(s, p) + Count(s, q) == |s|
  {
    if s != [] {
      CountPartition(s[1..], p, q);
    }
  }

  /** Counting after filtering by `f` is counting the conjunction. */
  lemma {:induction false} CountFilter<T(!new)>(s: seq<T>, f: T -> bool, p: T -> bool, pf: T -> bool)
    requires forall x :: pf(x) == (f(x) && p(x))
    ensures Count(Filter(s, f), p) == Count(s, pf)
  {
    if s != [] {
      CountFilter(s[1..], f, p, pf);
      if f(s[0]) {
        assert Filter(s, f) == [s[0]] + Filter(s[1..], f);
        assert (Filter(s, f))[1..] == Filter(s[1..], f);
      }
    }
  }

  /** `s` is ordered by `key`, ascending. */
  ghost predicate SortedBy<T>(s: seq<T>, key: T -> int)
  {
    forall i, j :: 0 <= i < j < |s| ==> key(s[i]) <= key(s[j])
  }

  /** Insert `x` before the first element with a larger key. */
  function InsertBy<T>(x: T, s: seq<T>, key: T -> int): (r: seq<T>)
    requires SortedBy(s, key)
    ensures SortedBy(r, key)
    ensures multiset(r) == multiset(s) + multiset{x}
    ensures |r| == |s| + 1
  {
    if s == [] then [x]
    else if key(x) < key(s[0]) then
      SortedCons(x, s, key);
      [x] + s
    else
      var tail := s[1..];
      assert s == [s[0]] + tail;
      assert SortedBy(tail, key);
      var rest := InsertBy(x, tail, key);
      HeadIsLeast(s, key);
      forall y | y in rest ensures key(s[0]) <= key(y) {
        assert y in multiset(rest);
        assert y == x || y in multiset(tail);
      }
      SortedCons(s[0], rest, key);
      assert multiset([s[0]] + rest) == multiset{s[0]} + multiset(rest);
      [s[0]] + rest
  }

  /** The first element of a sorted sequence has the least key. */
  lemma HeadIsLeast<T>(s: seq<T>, key: T -> int)
    requires SortedBy(s, key) && s != []
    ensures forall y :: y in s ==> key(s[0]) <= key(y)
  {
  }

  /** An element no larger than every element of a sorted sequence can go in front. */
  lemma SortedCons<T>(x: T, s: seq<T>, key: T -> int)
    requires SortedBy(s, key)
    requires forall y :: y in s ==> key(x) <= key(y)
    ensures SortedBy([x] + s, key)
  {
    var r := [x] + s;
    forall i, j | 0 <= i < j < |r| ensures key(r[i]) <= key(r[j]) {
      assert r[j] == s[j - 1];
      if i > 0 {
        assert r[i] == s[i - 1];
      }
    }
  }

  /** A stable insertion sort by `key`: the model of an `ORDER BY key ASC`
      whose tie order the database leaves open. */
  function SortBy<T>(s: seq<T>, key: T -> int): (r: seq<T>)
    ensures SortedBy(r, key)
    ensures multiset(r) == multiset(s)
    ensures |r| == |s|
  {
    if s == [] then []
    else
      assert s == [s[0]] + s[1..];
      InsertBy(s[0], SortBy(s[1..], key), key)
  }

  /** A sorted sequence cut at any point: every element of the head is no
      larger than every element of the tail. */
  lemma SortedSplit<T>(s: seq<T>, k: nat, key: T -> int)
    requires SortedBy(s, key) && k <= |s|
    ensures forall x, y :: x in s[..k] && y in s[k..] ==> key(x) <= key(y)
  {
    forall x, y | x in s[..k] && y in s[k..]
      ensures key(x) <= key(y)
    {
      var i :| 0 <= i < k && s[..k][i] == x;
      var j :| 0 <= j < |s| - k && s[k..][j] == y;
      assert s[i] == x && s[k + j] == y;
    }
  }

  /** The first `k` elements of a sorted sequence are no larger than any
      element left out of them. */
  lemma PrefixKeepsLeast<T>(s: seq<T>, k: nat, key: T -> int)
    requires SortedBy(s, key) && k <= |s|
    ensures forall x, y :: x in s[..k] && y in s && y !in s[..k] ==> key(x) <= key(y)
  {
    SortedSplit(s, k, key);
    assert s == s[..k] + s[k..];
  }

  /** ASCII case folding: Python's `str.lower()` restricted to 'A'..'Z'. */
  function LowerChar(c: char): char
  {
    if 'A' <= c <= 'Z' then ((c as int) + 32) as char else c
  }

  function Lower(s: string): (r: string)
    ensures |r| == |s|
  {
    if s == [] then [] else [LowerChar(s[0])] + Lower(s[1..])
  }

  /** Decimal rendering of a natural number, as Python's `f"{n}"` prints it. */
  function NatToString(n: nat): (r: string)
    ensures |r| >= 1
    ensures forall i :: 0 <= i < |r| ==> '0' <= r[i] <= '9'
    decreases n
  {
    var d := ['0' + (n % 10) as char];
    if n < 10 then d else NatToString(n / 10) + d
  }
}

/** stats_correct and stats_percentile of stats.c: what the in-place correction for
    coordinated omission leaves in the histogram. */
module StatsCorrect {
  /** d[m] and every e-th later entry below a bound. */
  function Tail(d: seq<nat>, e: nat, bound: nat, m: nat): nat
    requires e > 0 && m < |d|
    decreases |d| - m
  {
    d[m] + if m + e < bound && m + e < |d| then Tail(d, e, bound, m + e) else 0
  }

  /** The closed form of the correction: an entry above the expected interval e becomes
      the sum of itself and every e-th entry up to max. */
  function Corrected(d: seq<nat>, e: nat, max: nat, m: nat): nat
    requires e > 0 && m < |d| && max < |d|
  {
    if m <= e || m > max then d[m] else Tail(d, e, max + 1, m)
  }

  function Sum(s: seq<nat>): nat {
    if s == [] then 0 else Sum(s[..|s| - 1]) + s[|s| - 1]
  }

  /** Entries from lo to hi, hi excluded. */
  function SumRange(s: seq<nat>, lo: nat, hi: nat): nat
    requires hi <= |s|
    decreases hi - lo
  {
    if lo >= hi then 0 else SumRange(s, lo, hi - 1) + s[hi - 1]
  }

  /** Recorded values from lo to v. */
  function UpTo(s: seq<nat>, lo: nat, v: nat): nat
    requires v < |s|
  {
    SumRange(s, lo, v + 1)
  }

  lemma {:induction false} SumUpdate(s: seq<nat>, i: nat, v: nat)
    requires i < |s|
    ensures Sum(s[i := v]) == Sum(s) - s[i] + v
  {
    var k := |s| - 1;
    var t := s[i := v];
    if i < k {
      SumUpdate(s[..k], i, v);
      assert t[..k] == s[..k][i := v] && t[k] == s[k];
    } else {
      assert t[..k] == s[..k] && t[k] == v;
    }
  }

  /** One more entry below the bound. */
  lemma {:induction false} TailGrows(d: seq<nat>, e: nat, n: nat, m: nat)
    requires e > 0 && m <= n < |d|
    ensures Tail(d, e, n + 1, m) == Tail(d, e, n, m) + if m < n && Residue(n - m, e) == 0 then d[n] else 0
    decreases n - m
  {
    if m + e <= n {
      TailGrows(d, e, n, m + e);
    }
  }

  /** x % e */
  function Residue(x: nat, e: nat): nat
    requires e > 0
  {
    if x < e then x else Residue(x - e, e)
  }

  lemma {:induction false} NotMultiple(x: nat, y: nat, e: nat)
    requires 0 < y < e && Residue(x, e) == 0
    ensures Residue(x + y, e) == y
  {
    if x >= e {
      NotMultiple(x - e, y, e);
    }
  }

  /** The histogram once the values below n have been spread. */
  function Partly(d: seq<nat>, e: nat, max: nat, n: nat): (r: seq<nat>)
    requires e > 0 && max < |d|
    ensures |r| == |d|
  {
    seq(|d|, j requires 0 <= j < |d| => if j <= e || j > max then d[j] else Tail(d, e, n, j))
  }

  /** And value n above place m. */
  function Spreading(d: seq<nat>, e: nat, max: nat, n: nat, m: int): (r: seq<nat>)
    requires e > 0 && max < |d| && n <= max
    ensures |r| == |d|
  {
    seq(|d|, j requires 0 <= j < |d| => if j > m then Partly(d, e, max, n + 1)[j] else Partly(d, e, max, n)[j])
  }

  /** Spreading value n changes nothing but every e-th entry below it. */
  lemma OneEntry(d: seq<nat>, e: nat, max: nat, n: nat, j: nat)
    requires e > 0 && max < |d| && e < n <= max && j < |d|
    ensures Partly(d, e, max, n + 1)[j] ==
            Partly(d, e, max, n)[j] + if e < j < n && Residue(n - j, e) == 0 then d[n] else 0
  {
    if e < j <= max {
      if j <= n {
        TailGrows(d, e, n, j);
      }
    }
  }

  lemma Unspread(d: seq<nat>, e: nat, max: nat, n: nat)
    requires e > 0 && max < |d| && 2 * e <= n <= max
    ensures Partly(d, e, max, n) == Spreading(d, e, max, n, n - e) && Partly(d, e, max, n)[n] == d[n]
    ensures Residue(e, e) == 0
  {
    hide Partly;
    var a, b := Partly(d, e, max, n), Spreading(d, e, max, n, n - e);
    forall j | 0 <= j < |d| ensures a[j] == b[j] {
      OneEntry(d, e, max, n, j);
    }
    OwnEntry(d, e, max, n);
  }

  lemma OwnEntry(d: seq<nat>, e: nat, max: nat, n: nat)
    requires e > 0 && max < |d| && 2 * e <= n <= max
    ensures Partly(d, e, max, n)[n] == d[n] && Residue(e, e) == 0
  {
  }

  lemma Spread(d: seq<nat>, e: nat, max: nat, n: nat, m: nat)
    requires e > 0 && max < |d| && n <= max && e < m <= n - e && Residue(n - m, e) == 0
    ensures Spreading(d, e, max, n, m)[m := Spreading(d, e, max, n, m)[m] + d[n]] == Spreading(d, e, max, n, m - e)
    ensures Residue(n - (m - e), e) == 0
  {
    hide Partly;
    var a, b := Spreading(d, e, max, n, m), Spreading(d, e, max, n, m - e);
    forall j | 0 <= j < |d| ensures a[m := a[m] + d[n]][j] == b[j] {
      OneEntry(d, e, max, n, j);
      if m - e < j < m {
        NotMultiple(n - m, m - j, e);
      }
    }
  }

  lemma Spreaded(d: seq<nat>, e: nat, max: nat, n: nat, m: nat)
    requires e > 0 && max < |d| && e < n <= max && (d[n] == 0 || m <= e)
    ensures Spreading(d, e, max, n, m) == Partly(d, e, max, n + 1)
  {
    hide Partly;
    forall j | 0 <= j < |d| ensures Spreading(d, e, max, n, m)[j] == Partly(d, e, max, n + 1)[j] {
      OneEntry(d, e, max, n, j);
    }
  }

  lemma Unstarted(d: seq<nat>, e: nat, max: nat)
    requires e > 0 && max < |d|
    ensures Partly(d, e, max, 2 * e) == d
  {
    forall j | 0 <= j < |d| ensures Partly(d, e, max, 2 * e)[j] == d[j] {}
  }

  lemma Finished(d: seq<nat>, e: nat, max: nat, n: nat)
    requires e > 0 && max < |d| && max < n && (n == max + 1 || n == 2 * e)
    ensures forall m :: 0 <= m < |d| ==> Partly(d, e, max, n)[m] == Corrected(d, e, max, m)
  {
  }

  class Stats {
    const data: array<nat>
    var count: nat
    var min: nat
    var max: nat

    constructor (data: array<nat>, count: nat, min: nat, max: nat)
      ensures this.data == data && this.count == count && this.min == min && this.max == max
    {
      this.data, this.count, this.min, this.max := data, count, min, max;
    }

    /** stats_correct.  Entries are not bounded by 64 bits. */
    method Correct(expected: int)
      requires expected > 0 && max < data.Length
      modifies this`count, data
      ensures forall m :: 0 <= m < data.Length ==> data[m] == Corrected(old(data[..]), expected, max, m)
      ensures count - old(count) == Sum(data[..]) - Sum(old(data[..]))
    {
      hide Partly, Spreading, Corrected, Sum;
      ghost var d := data[..];
      Unstarted(d, expected, max);
      var e := expected;
      var n := e * 2;
      while n <= max
        invariant 2 * e <= n && (n <= max + 1 || n == 2 * e)
        invariant data[..] == Partly(d, e, max, n)
        invariant count - old(count) == Sum(data[..]) - Sum(d)
      {
        Unspread(d, e, max, n);
        var more := data[n];
        var m := n - e;
        while more != 0 && m > e
          invariant 0 <= m <= n - e && Residue(n - m, e) == 0 && more == d[n]
          invariant data[..] == Spreading(d, e, max, n, m)
          invariant count - old(count) == Sum(data[..]) - Sum(d)
          decreases m
        {
          Spread(d, e, max, n, m);
          SumUpdate(data[..], m, data[m] + more);
          data[m] := data[m] + more;
          count := count + more;
          m := m - e;
        }
        Spreaded(d, e, max, n, m);
        n := n + 1;
      }
      Finished(d, e, max, n);
    }

    /** stats_percentile for an integer rank: the least value in [min, max] at which the
        running total reaches the rank, or 0. */
    method Percentile(rank: nat) returns (v: nat)
      requires max < data.Length
      ensures Found(data[..], min, max, rank, v)
    {
      var total := 0;
      var i := min;
      while i <= max
        invariant min <= i && (i <= max + 1 || i == min)
        invariant total == SumRange(data[..], min, if i <= max then i else if min <= max then max + 1 else 0)
        invariant forall j :: min <= j < i ==> UpTo(data[..], min, j) < rank
      {
        total := total + data[i];
        if total >= rank {
          return i;
        }
        i := i + 1;
      }
      v := 0;
    }
  }

  ghost predicate Reaches(s: seq<nat>, min: nat, max: nat, rank: nat, v: nat)
    requires max < |s|
  {
    min <= v <= max && UpTo(s, min, v) >= rank && forall j :: min <= j < v ==> UpTo(s, min, j) < rank
  }

  /** What stats_percentile returns for a rank. */
  ghost predicate Found(s: seq<nat>, min: nat, max: nat, rank: nat, v: nat)
    requires max < |s|
  {
    Reaches(s, min, max, rank, v) || (v == 0 && forall j :: min <= j <= max ==> UpTo(s, min, j) < rank)
  }

  /** The least value with at least that many recorded values at or below it. */
  ghost predicate Least(s: seq<nat>, rank: nat, v: nat) {
    v < |s| && UpTo(s, 0, v) >= rank && forall j :: 0 <= j < v ==> UpTo(s, 0, j) < rank
  }

  // ----- Conservation

  lemma {:induction false} SumSplit(s: seq<nat>, lo: nat, mid: nat, hi: nat)
    requires lo <= mid <= hi <= |s|
    ensures SumRange(s, lo, hi) == SumRange(s, lo, mid) + SumRange(s, mid, hi)
    decreases hi
  {
    if mid < hi {
      SumSplit(s, lo, mid, hi - 1);
    }
  }

  lemma {:induction false} SumAll(s: seq<nat>, n: nat)
    requires n <= |s|
    ensures Sum(s[..n]) == SumRange(s, 0, n)
  {
    if n > 0 {
      SumAll(s, n - 1);
      assert s[..n][..n - 1] == s[..n - 1];
    }
  }

  lemma {:induction false} SumZero(s: seq<nat>, lo: nat, hi: nat)
    requires lo <= hi <= |s|
    ensures SumRange(s, lo, hi) == 0 <==> forall i :: lo <= i < hi ==> s[i] == 0
    decreases hi - lo
  {
    if lo < hi {
      SumZero(s, lo, hi - 1);
    }
  }

  /** Every recorded value lies in [min, max]. */
  predicate Spans(d: seq<nat>, min: nat, max: nat) {
    min <= max < |d| && forall i :: 0 <= i < |d| && !(min <= i <= max) ==> d[i] == 0
  }

  lemma SpanSum(s: seq<nat>, min: nat, max: nat)
    requires min <= max < |s| && forall i :: max < i < |s| ==> s[i] == 0
    ensures Sum(s) == SumRange(s, 0, min) + SumRange(s, min, max + 1)
  {
    SumAll(s, |s|);
    assert s[..|s|] == s;
    SumSplit(s, 0, max + 1, |s|);
    SumSplit(s, 0, min, max + 1);
    SumZero(s, max + 1, |s|);
  }

  /** The correction spreads recorded value n to m. */
  predicate Reached(d: seq<nat>, e: nat, m: nat, n: nat)
    requires e > 0 && m <= n < |d|
  {
    d[n] > 0 && Residue(n - m, e) == 0
  }

  lemma {:induction false} TailZero(d: seq<nat>, e: nat, max: nat, m: nat)
    requires e > 0 && m <= max < |d|
    ensures Tail(d, e, max + 1, m) == 0 <==> forall n :: m <= n <= max ==> !Reached(d, e, m, n)
    decreases max - m
  {
    assert Reached(d, e, m, m) == (d[m] > 0);
    forall n | m < n <= max ensures Reached(d, e, m, n) == (m + e <= n && Reached(d, e, m + e, n)) {}
    var k := m + e;
    if k <= max {
      TailZero(d, e, max, k);
      if n :| k <= n <= max && Reached(d, e, k, n) {
        assert Reached(d, e, m, n);
      }
    }
  }

  /** No recorded value is a whole number of intervals above a place between the interval
      and min. */
  ghost predicate NoneBelow(d: seq<nat>, e: nat, min: nat, max: nat)
    requires e > 0 && max < |d|
  {
    forall m, n :: e < m < min <= n <= max ==> !Reached(d, e, m, n)
  }

  /** After a correction the sum over [min, max] is still the whole sum exactly when no
      recorded value is spread below min; always if min <= e + 1. */
  lemma CorrectedTotal(d: seq<nat>, e: nat, min: nat, max: nat, c: seq<nat>)
    requires e > 0 && Spans(d, min, max) && |c| == |d| && forall m :: 0 <= m < |d| ==> c[m] == Corrected(d, e, max, m)
    ensures SumRange(c, min, max + 1) == Sum(c) <==> NoneBelow(d, e, min, max)
    ensures min <= e + 1 ==> SumRange(c, min, max + 1) == Sum(c)
    ensures SumRange(c, min, max + 1) <= Sum(c)
  {
    hide Sum, SumRange, Tail, Reached;
    SpanSum(c, min, max);
    SumZero(c, 0, min);
    forall m | 0 <= m < min
      ensures c[m] == 0 <==> m <= e || forall n :: min <= n <= max ==> !Reached(d, e, m, n)
    {
      if m > e {
        TailZero(d, e, max, m);
        Unrecorded(d, e, min, m);
      }
    }
    if m, n :| e < m < min <= n <= max && Reached(d, e, m, n) {
      assert c[m] != 0;
    }
  }

  lemma Unrecorded(d: seq<nat>, e: nat, min: nat, m: nat)
    requires e > 0 && min <= |d| && forall i :: 0 <= i < min ==> d[i] == 0
    ensures forall n :: m <= n < min ==> !Reached(d, e, m, n)
  {
  }

  /** stats_percentile finds the least value with at least that many recorded values at or
      below it, for every rank up to the total, exactly under the same condition. */
  lemma PercentileExact(d: seq<nat>, e: nat, min: nat, max: nat, c: seq<nat>)
    requires e > 0 && Spans(d, min, max) && |c| == |d| && forall m :: 0 <= m < |d| ==> c[m] == Corrected(d, e, max, m)
    ensures NoneBelow(d, e, min, max) <==>
      forall rank, v :: 0 < rank <= Sum(c) && Found(c, min, max, rank, v) ==> Least(c, rank, v)
  {
    hide Corrected, NoneBelow, Sum, Found, Least;
    CorrectedTotal(d, e, min, max, c);
    if NoneBelow(d, e, min, max) {
      forall rank, v | 0 < rank <= Sum(c) && Found(c, min, max, rank, v) ensures Least(c, rank, v) {
        FoundLeast(c, min, max, rank, v);
      }
    } else {
      assert c[0] == Corrected(d, e, max, 0);
      FirstKept(d, e, min, max);
      LostRank(c, min, max);
      assert Found(c, min, max, Sum(c), 0) && !Least(c, Sum(c), 0);
    }
  }

  lemma FirstKept(d: seq<nat>, e: nat, min: nat, max: nat)
    requires e > 0 && Spans(d, min, max) && 0 < min
    ensures Corrected(d, e, max, 0) == 0
  {
  }

  lemma FoundLeast(c: seq<nat>, min: nat, max: nat, rank: nat, v: nat)
    requires min <= max < |c| && SumRange(c, min, max + 1) == Sum(c) && 0 < rank <= Sum(c)
    requires Found(c, min, max, rank, v)
    ensures v <= max && Least(c, rank, v)
  {
    SumAll(c, |c|);
    assert c[..|c|] == c;
    SumSplit(c, 0, min, |c|);
    SumSplit(c, min, max + 1, |c|);
    SumZero(c, 0, min);
    assert UpTo(c, min, max) >= rank;
    SumSplit(c, 0, min, v + 1);
    forall j | 0 <= j < v ensures UpTo(c, 0, j) < rank {
      if j >= min {
        SumSplit(c, 0, min, j + 1);
        assert UpTo(c, min, j) < rank;
      } else {
        SumSplit(c, 0, j + 1, min);
      }
    }
  }

  /** Where values are lost, the total is a rank that is never reached. */
  lemma LostRank(c: seq<nat>, min: nat, max: nat)
    requires min <= max < |c| && SumRange(c, min, max + 1) < Sum(c) && c[0] == 0
    ensures Found(c, min, max, Sum(c), 0) && !Least(c, Sum(c), 0)
  {
    forall j | min <= j <= max ensures UpTo(c, min, j) < Sum(c) {
      SumSplit(c, min, j + 1, max + 1);
    }
    assert SumRange(c, 0, 0) == 0 && UpTo(c, 0, 0) == SumRange(c, 0, 0) + c[0];
  }

  /** A minimum well above the expected interval loses values: what is spread below it is
      counted but never looked at, and the highest rank yields 0. */
  lemma SpreadBelowMinimum()
    ensures var d, c := [0, 0, 0, 1], [0, 0, 1, 1];
      Spans(d, 3, 3) && (forall m :: 0 <= m < 4 ==> c[m] == Corrected(d, 1, 3, m)) &&
      SumRange(c, 3, 4) == 1 && Sum(c) == 2 && Found(c, 3, 3, 2, 0) && UpTo(c, 0, 3) == 2
  {
    var c := [0, 0, 1, 1];
    assert c[..4] == c;
    SumAll(c, 4);
    assert SumRange(c, 0, 2) == SumRange(c, 0, 1) == 0;
    assert SumRange(c, 3, 4) == 1;
  }
}

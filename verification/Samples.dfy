/**
 Sequences of samples with times in ascending order, and the values inside a time interval.
 */
module Samples {
  import opened Sequences

  ghost predicate Ascending(ts: seq<real>) { forall i, j :: 0 <= i < j < |ts| ==> ts[i] <= ts[j] }

  datatype Interval = HalfOpen(lo: real, hi: real) | Closed(lo: real, hi: real) {
    predicate Has(t: real) { lo <= t && if HalfOpen? then t < hi else t <= hi }
  }

  /** Values of the samples whose time is in the interval, in order. */
  function Within(ts: seq<real>, vs: seq<real>, r: Interval): seq<real>
    requires |ts| == |vs|
  {
    if ts == [] then []
    else
      var n := |ts| - 1;
      Within(ts[..n], vs[..n], r) + if r.Has(ts[n]) then [vs[n]] else []
  }

  function Sum(s: seq<real>): real {
    if s == [] then 0.0 else Sum(s[..|s| - 1]) + s[|s| - 1]
  }

  ghost predicate Lowest(x: real, s: seq<real>) { x in s && forall y :: y in s ==> x <= y }

  ghost predicate Highest(x: real, s: seq<real>) { x in s && forall y :: y in s ==> y <= x }

  function Min(s: seq<real>): (r: real)
    requires s != []
    ensures Lowest(r, s)
  {
    if |s| == 1 then s[0]
    else
      var n := |s| - 1;
      assert s == s[..n] + [s[n]];
      var m := Min(s[..n]);
      if s[n] < m then s[n] else m
  }

  function Max(s: seq<real>): (r: real)
    requires s != []
    ensures Highest(r, s)
  {
    if |s| == 1 then s[0]
    else
      var n := |s| - 1;
      assert s == s[..n] + [s[n]];
      var m := Max(s[..n]);
      if s[n] > m then s[n] else m
  }

  function Mean(s: seq<real>): real
    requires s != []
  {
    Sum(s) / |s| as real
  }

  lemma ScaledDivides(sum: real, n: real, lo: real, hi: real)
    requires n > 0.0 && lo * n <= sum <= hi * n
    ensures lo <= sum / n <= hi
  {
    var q := sum / n;
    assert q * n == sum;
    if q < lo { Scales(q, lo, n); }
    if hi < q { Scales(hi, q, n); }
  }

  lemma Scales(a: real, b: real, n: real)
    requires n > 0.0 && a < b
    ensures a * n < b * n
  {
    assert (b - a) * n > 0.0;
  }

  function Total(x: real, n: nat): real { x * n as real }

  lemma {:induction false} SumInBand(s: seq<real>, lo: real, hi: real)
    requires forall y :: y in s ==> lo <= y <= hi
    ensures Total(lo, |s|) <= Sum(s) <= Total(hi, |s|)
  {
    if s != [] {
      var n := |s| - 1;
      assert s[n] in s && forall y :: y in s[..n] ==> y in s;
      SumInBand(s[..n], lo, hi);
      OneMore(lo, n);
      OneMore(hi, n);
    }
  }

  lemma OneMore(x: real, n: nat)
    ensures Total(x, n + 1) == Total(x, n) + x
  {
  }

  /** The mean lies between the smallest and the largest value. */
  lemma MeanIsBetween(s: seq<real>)
    requires s != []
    ensures Min(s) <= Mean(s) <= Max(s)
  {
    SumInBand(s, Min(s), Max(s));
    ScaledDivides(Sum(s), |s| as real, Min(s), Max(s));
  }

  lemma WithinStep(ts: seq<real>, vs: seq<real>, r: Interval, j: nat)
    requires |ts| == |vs| && j < |ts|
    ensures Within(ts[..j + 1], vs[..j + 1], r) == Within(ts[..j], vs[..j], r) + if r.Has(ts[j]) then [vs[j]] else []
  {
    assert ts[..j + 1][..j] == ts[..j] && vs[..j + 1][..j] == vs[..j];
  }

  /** Samples outside the interval add nothing. */
  lemma {:induction false} WithinStops(ts: seq<real>, vs: seq<real>, r: Interval, j: nat)
    requires |ts| == |vs| && j <= |ts| && forall k :: j <= k < |ts| ==> !r.Has(ts[k])
    ensures Within(ts, vs, r) == Within(ts[..j], vs[..j], r)
    decreases |ts|
  {
    var n := |ts| - 1;
    if j == |ts| {
      assert ts[..j] == ts && vs[..j] == vs;
    } else {
      WithinStops(ts[..n], vs[..n], r, j);
      assert ts[..n][..j] == ts[..j] && vs[..n][..j] == vs[..j];
    }
  }

  lemma {:induction false} WithinNothing(ts: seq<real>, vs: seq<real>, r: Interval)
    requires |ts| == |vs| && forall k :: 0 <= k < |ts| ==> !r.Has(ts[k])
    ensures Within(ts, vs, r) == []
  {
    WithinStops(ts, vs, r, 0);
    assert ts[..0] == [];
  }

  /** Neighbouring intervals together hold what the whole interval holds, in the same order. */
  lemma {:induction false} WithinJoins(ts: seq<real>, vs: seq<real>, a: real, b: real, c: real)
    requires |ts| == |vs| && Ascending(ts) && a <= b <= c
    ensures Within(ts, vs, HalfOpen(a, c)) == Within(ts, vs, HalfOpen(a, b)) + Within(ts, vs, HalfOpen(b, c))
    decreases |ts|
  {
    if ts != [] {
      var n := |ts| - 1;
      var u, w := ts[..n], vs[..n];
      WithinJoins(u, w, a, b, c);
      WithinLast(ts, vs, HalfOpen(a, c));
      WithinLast(ts, vs, HalfOpen(a, b));
      WithinLast(ts, vs, HalfOpen(b, c));
      hide Within;
      if ts[n] < b {
        WithinNothing(u, w, HalfOpen(b, c));
      } else {
        Regroup(Within(u, w, HalfOpen(a, b)), Within(u, w, HalfOpen(b, c)), if ts[n] < c then [vs[n]] else []);
      }
    }
  }

  /** Sample `k` lies in the interval. */
  predicate Inside(t: real, r: Interval) {
    match r case HalfOpen(lo, hi) => lo <= t < hi case Closed(lo, hi) => lo <= t <= hi
  }

  /** Samples `i` to `m` are exactly those in the interval. */
  ghost predicate IsRun(ts: seq<real>, r: Interval, i: nat, m: nat) {
    i <= m <= |ts| && forall k :: 0 <= k < |ts| ==> (i <= k < m <==> Inside(ts[k], r))
  }

  /** On a sorted trace the interval holds one contiguous run of samples. */
  lemma {:induction false} WithinIsSlice(ts: seq<real>, vs: seq<real>, r: Interval) returns (i: nat, m: nat)
    requires |ts| == |vs| && Ascending(ts)
    ensures IsRun(ts, r, i, m) && Within(ts, vs, r) == vs[i..m]
    decreases |ts|
  {
    i, m := 0, 0;
    if ts != [] {
      var n := |ts| - 1;
      i, m := WithinIsSlice(ts[..n], vs[..n], r);
      i, m := SliceStep(ts, vs, r, i, m);
    }
  }

  lemma SliceStep(ts: seq<real>, vs: seq<real>, r: Interval, i: nat, m: nat) returns (j: nat, l: nat)
    requires |ts| == |vs| && Ascending(ts) && ts != [] && IsRun(ts[..|ts| - 1], r, i, m)
    requires Within(ts[..|ts| - 1], vs[..|vs| - 1], r) == vs[..|vs| - 1][i..m]
    ensures IsRun(ts, r, j, l) && Within(ts, vs, r) == vs[j..l]
  {
    var n := |ts| - 1;
    WithinLast(ts, vs, r);
    HasIsInside(ts[n], r);
    assert vs[..n][i..m] == vs[i..m];
    hide Within, Inside;
    if Inside(ts[n], r) {
      j := RunGrows(ts, r, i, m);
      l := n + 1;
      hide IsRun;
      assert vs[i..m] == vs[j..n];
      assert vs[j..n] + [vs[n]] == vs[j..n + 1];
    } else {
      j, l := i, m;
      assert forall k :: 0 <= k < n ==> ts[..n][k] == ts[k];
    }
  }

  lemma HasIsInside(t: real, r: Interval)
    ensures r.Has(t) <==> Inside(t, r)
  {
  }

  /** With the last sample inside, the run reaches the end, or starts there. */
  lemma RunGrows(ts: seq<real>, r: Interval, i: nat, m: nat) returns (j: nat)
    requires Ascending(ts) && ts != [] && IsRun(ts[..|ts| - 1], r, i, m) && Inside(ts[|ts| - 1], r)
    ensures IsRun(ts, r, j, |ts|) && j < |ts| && (i < m ==> j == i && m == |ts| - 1) && (i == m ==> j == |ts| - 1)
  {
    hide Inside;
    var n := |ts| - 1;
    assert forall k :: 0 <= k < n ==> ts[..n][k] == ts[k];
    if i < m { RunReachesEnd(ts, r, i, m); }
    j := if i < m then i else n;
  }

  lemma InsideBetween(a: real, b: real, c: real, r: Interval)
    requires a <= b <= c && Inside(a, r) && Inside(c, r)
    ensures Inside(b, r)
  {
  }

  lemma RunReachesEnd(ts: seq<real>, r: Interval, i: nat, m: nat)
    requires Ascending(ts) && ts != [] && i < m < |ts| && Inside(ts[|ts| - 1], r)
    requires forall k :: 0 <= k < |ts| - 1 ==> (i <= k < m <==> Inside(ts[k], r))
    ensures m == |ts| - 1
  {
    InsideBetween(ts[m - 1], ts[m], ts[|ts| - 1], r);
  }

  lemma {:induction false} SumJoins(a: seq<real>, b: seq<real>)
    ensures Sum(a + b) == Sum(a) + Sum(b)
    decreases |b|
  {
    if b == [] {
      assert a + b == a;
    } else {
      var n := |b| - 1;
      assert (a + b)[..|a| + n] == a + b[..n];
      SumJoins(a, b[..n]);
    }
  }

  /** The mean is each sample's value for one sample, and weighs two parts by their sizes. */
  lemma MeanWeighs(x: real, a: seq<real>, b: seq<real>)
    requires a != [] && b != []
    ensures Mean([x]) == x
    ensures Mean(a + b) * |a + b| as real == Mean(a) * |a| as real + Mean(b) * |b| as real
  {
    MeanOfOne(x);
    hide Sum, Mean;
    SumJoins(a, b);
    MeanTimesSize(a);
    MeanTimesSize(b);
    MeanTimesSize(a + b);
  }

  lemma MeanOfOne(x: real)
    ensures Mean([x]) == x
  {
    assert [x][..0] == [];
    assert Sum([x]) == x;
  }

  lemma MeanTimesSize(s: seq<real>)
    requires s != []
    ensures Mean(s) * |s| as real == Sum(s)
  {
    hide Sum;
    DividesBack(Sum(s), |s| as real);
  }

  lemma DividesBack(sum: real, n: real)
    requires n != 0.0
    ensures sum / n * n == sum
  {
  }

  lemma WithinLast(ts: seq<real>, vs: seq<real>, r: Interval)
    requires |ts| == |vs| && ts != []
    ensures var n := |ts| - 1;
      Within(ts, vs, r) == Within(ts[..n], vs[..n], r) + if r.Has(ts[n]) then [vs[n]] else []
  {
  }

  lemma MoreOf(s: seq<real>, v: real)
    ensures Sum(s + [v]) == Sum(s) + v
    ensures Min(s + [v]) == if s == [] || v < Min(s) then v else Min(s)
    ensures Max(s + [v]) == if s == [] || v > Max(s) then v else Max(s)
  {
    assert (s + [v])[..|s|] == s;
  }

  lemma NothingYet()
    ensures Sum([]) == 0.0
  {
  }

  ghost predicate Finite(vs: seq<real>, big: real) { forall i :: 0 <= i < |vs| ==> -big <= vs[i] <= big }
}

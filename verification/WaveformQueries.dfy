/**
 Queries on sorted traces that start from a binary search: the statistics of a time window,
 and the sample nearest to a time. Both are compared with a scan of every sample.
 */
module WaveformQueries {
  import P2 = P2Median
  import opened Samples

  /** Number of samples strictly before `t`, found by halving the range. */
  method LowerBound(ts: seq<real>, t: real) returns (k: nat)
    requires Ascending(ts)
    ensures k <= |ts| && (forall i :: 0 <= i < k ==> ts[i] < t) && forall i :: k <= i < |ts| ==> t <= ts[i]
  {
    var lo, hi := 0, |ts|;
    while lo < hi
      invariant 0 <= lo <= hi <= |ts|
      invariant (forall i :: 0 <= i < lo ==> ts[i] < t) && forall i :: hi <= i < |ts| ==> t <= ts[i]
    {
      var mid := (lo + hi) / 2;
      if ts[mid] < t { lo := mid + 1; } else { hi := mid; }
    }
    k := lo;
  }

  // ----- Window statistics ------------------------------------------------------------------

  datatype Stats = Stats(
    total: nat, window: nat, min: real, max: real, avg: real, median: real, hasWindow: bool)

  const NO_STATS := Stats(0, 0, 0.0, 0.0, 0.0, 0.0, false)

  /** The statistics of a trace of `total` samples whose window holds `w`. */
  function StatsOf(total: nat, w: seq<real>): Stats {
    if w == [] then NO_STATS.(total := total)
    else Stats(total, |w|, Min(w), Max(w), Mean(w), P2.Estimate(P2.Run(w)), true)
  }

  /** Statistics make sense: the extremes are attained, mean and median lie between them. */
  lemma StatsAreSane(total: nat, w: seq<real>)
    requires w != []
    ensures var s := StatsOf(total, w);
      && s.hasWindow && s.window == |w| && Lowest(s.min, w) && Highest(s.max, w)
      && s.min <= s.avg <= s.max && s.min <= s.median <= s.max
  {
    MeanIsBetween(w);
    P2.EstimateIsBetween(w);
  }

  /** The average times the count is the sum. */
  lemma AverageTimesCount(total: nat, w: seq<real>)
    requires w != []
    ensures StatsOf(total, w).avg * StatsOf(total, w).window as real == Sum(w)
  {
    hide Sum, Mean, Min, Max, P2.Run, P2.Estimate;
    MeanTimesSize(w);
  }

  /** The samples of one counter; the estimator is a cache the query refills. */
  class CounterData {
    var timestamps: seq<real>
    var values: seq<real>
    var visible: bool
    const p2: P2.Estimator

    constructor ()
      ensures timestamps == [] && values == [] && visible
      ensures p2.Valid() && fresh(p2) && fresh(p2.q) && fresh(p2.pos) && fresh(p2.ndes4)
    {
      timestamps, values, visible := [], [], true;
      p2 := new P2.Estimator();
    }

    ghost predicate Sorted()
      reads this
    {
      |timestamps| == |values| && Ascending(timestamps)
    }
  }

  datatype Tally = Tally(min: real, max: real, sum: real, n: nat)

  /** Running extremes, sum and count of `w`, starting from the largest finite double. */
  ghost predicate Tallies(t: Tally, w: seq<real>, big: real) {
    && t.sum == Sum(w) && t.n == |w|
    && if w == [] then t.min == big && t.max == -big else t.min == Min(w) && t.max == Max(w)
  }

  lemma NothingTallied(big: real)
    ensures Tallies(Tally(big, -big, 0.0, 0), [], big)
  {
  }

  method AddToTally(t: Tally, v: real, ghost w: seq<real>, ghost big: real) returns (r: Tally)
    requires Tallies(t, w, big) && -big <= v <= big
    ensures Tallies(r, w + [v], big)
  {
    MoreOf(w, v);
    r := Tally(if v < t.min then v else t.min, if v > t.max then v else t.max, t.sum + v, t.n + 1);
  }

  /** The scan from the first sample at or after the left edge, up to the right edge. */
  method ScanWindow(cd: CounterData, big: real, xMin: real, xMax: real, start: nat) returns (t: Tally)
    requires cd.p2.Valid() && cd.Sorted() && Finite(cd.values, big) && start <= |cd.timestamps|
    requires forall i :: 0 <= i < start ==> cd.timestamps[i] < xMin
    requires forall i :: start <= i < |cd.timestamps| ==> xMin <= cd.timestamps[i]
    modifies cd.p2, cd.p2.q, cd.p2.pos, cd.p2.ndes4
    ensures cd.p2.Valid() && cd.p2.fed == Within(cd.timestamps, cd.values, Closed(xMin, xMax))
    ensures Tallies(t, cd.p2.fed, big)
  {
    hide Within, Sum, Min, Max, Tallies, P2.Run, P2.Estimate;
    var ts, vs := cd.timestamps, cd.values;
    cd.p2.Reset();
    NothingTallied(big);
    t := Tally(big, -big, 0.0, 0);
    WithinNothing(ts[..start], vs[..start], Closed(xMin, xMax));
    var i := start;
    while i < |ts| && ts[i] <= xMax
      invariant start <= i <= |ts| && cd.p2.Valid()
      invariant cd.p2.fed == Within(ts[..i], vs[..i], Closed(xMin, xMax)) && Tallies(t, cd.p2.fed, big)
    {
      WithinStep(ts, vs, Closed(xMin, xMax), i);
      t := AddToTally(t, vs[i], cd.p2.fed, big);
      cd.p2.Feed(vs[i]);
      i := i + 1;
    }
    WithinStops(ts, vs, Closed(xMin, xMax), i);
  }

  /** `cd` is null when no such counter is known. */
  method QueryStats(cd: CounterData?, big: real, xMin: real, xMax: real) returns (s: Stats)
    requires cd != null ==> cd.p2.Valid() && cd.Sorted() && Finite(cd.values, big)
    modifies if cd != null then {cd.p2, cd.p2.q, cd.p2.pos, cd.p2.ndes4} else {}
    ensures cd == null ==> s == Stats(0, 0, 0.0, 0.0, 0.0, 0.0, false)
    ensures cd != null
      ==> cd.p2.Valid() && s == StatsOf(|cd.values|, Within(cd.timestamps, cd.values, Closed(xMin, xMax)))
    ensures cd != null ==> exists i, m ::
        && 0 <= i <= m <= |cd.values| && s == StatsOf(|cd.values|, cd.values[i..m])
        && forall k :: 0 <= k < |cd.timestamps| ==> (i <= k < m <==> xMin <= cd.timestamps[k] <= xMax)
  {
    hide P2.Run, P2.Estimate, P2.Between, Ascending;
    if cd == null { return NO_STATS; }
    ghost var i, m := WithinIsSlice(cd.timestamps, cd.values, Closed(xMin, xMax));
    hide Within, Sum, Min, Max;
    s := NO_STATS.(total := |cd.values|);
    if |cd.values| == 0 || xMax < xMin {
      WithinNothing(cd.timestamps, cd.values, Closed(xMin, xMax));
      return;
    }
    var start := LowerBound(cd.timestamps, xMin);
    if start == |cd.timestamps| {
      WithinNothing(cd.timestamps, cd.values, Closed(xMin, xMax));
      return;
    }
    var t := ScanWindow(cd, big, xMin, xMax, start);
    if t.n > 0 {
      var median := cd.p2.Get();
      s := Stats(|cd.values|, t.n, t.min, t.max, t.sum / t.n as real, median, true);
    }
  }

  // ----- The nearest sample -------------------------------------------------------------------

  function Distance(t: real, time: real): real { if t >= time then t - time else time - t }

  /** `a` is at least as near as `b`, and the earlier one when they are equally near. */
  predicate AtLeastAsNear(a: real, b: real, time: real) {
    Distance(a, time) < Distance(b, time) || (Distance(a, time) == Distance(b, time) && a <= b)
  }

  /** No sample in `ts` is nearer than `best`, or as near and earlier. */
  ghost predicate NearestAmong(best: real, ts: seq<real>, time: real) {
    forall i :: 0 <= i < |ts| ==> AtLeastAsNear(best, ts[i], time)
  }

  /** On a sorted trace one of the two neighbours of the search position is nearest. */
  lemma NeighboursAreNearest(ts: seq<real>, time: real, k: nat, best: real)
    requires Ascending(ts) && k <= |ts|
    requires (forall i :: 0 <= i < k ==> ts[i] < time) && forall i :: k <= i < |ts| ==> time <= ts[i]
    requires (k > 0 ==> AtLeastAsNear(best, ts[k - 1], time)) && (k < |ts| ==> AtLeastAsNear(best, ts[k], time))
    ensures NearestAmong(best, ts, time)
  {
    forall i | 0 <= i < |ts| ensures AtLeastAsNear(best, ts[i], time) {
      if i < k { assert ts[i] <= ts[k - 1] < time; } else { assert time <= ts[k] <= ts[i]; }
    }
  }

  /** All samples of the first `n` counters that are visible. */
  ghost function Times(counters: seq<CounterData>, n: nat): seq<real>
    requires n <= |counters|
    reads counters
  {
    if n == 0 then [] else Times(counters, n - 1) + if counters[n - 1].visible then counters[n - 1].timestamps else []
  }

  /** The candidate after the samples `seen`: the nearest of them, or the query time itself. */
  ghost predicate Snapped(best: real, dist: real, seen: seq<real>, time: real, big: real) {
    if seen == [] then best == time && dist == big
    else best in seen && dist == Distance(best, time) && NearestAmong(best, seen, time)
  }

  /** All samples of the visible counters, and no others. */
  lemma {:induction false} TimesAreVisible(counters: seq<CounterData>, n: nat)
    requires n <= |counters|
    ensures forall t :: t in Times(counters, n) <==>
              exists i :: 0 <= i < n && counters[i].visible && t in counters[i].timestamps
    decreases n
  {
    if n > 0 { TimesAreVisible(counters, n - 1); }
  }

  /** One candidate: taken when strictly nearer, or as near and earlier. */
  method Consider(best: real, dist: real, t: real, time: real, ghost big: real, ghost seen: seq<real>)
    returns (b: real, d: real)
    requires Snapped(best, dist, seen, time, big) && Distance(t, time) < big
    ensures Snapped(b, d, seen + [t], time, big)
  {
    var away := Distance(t, time);
    if away < dist || (away == dist && t < best) {
      b, d := t, away;
      assert NearestAmong(t, seen, time);
    } else {
      b, d := best, dist;
    }
  }

  /** Both neighbours were considered, so the whole trace was. */
  lemma WholeTrace(ts: seq<real>, time: real, big: real, k: nat, seen: seq<real>, near: seq<real>, best: real,
                   dist: real)
    requires Ascending(ts) && k <= |ts| && ts != []
    requires (forall i :: 0 <= i < k ==> ts[i] < time) && forall i :: k <= i < |ts| ==> time <= ts[i]
    requires near == (if k > 0 then [ts[k - 1]] else []) + (if k < |ts| then [ts[k]] else [])
    requires Snapped(best, dist, seen + near, time, big)
    ensures Snapped(best, dist, seen + ts, time, big)
  {
    forall i | 0 <= i < |seen| ensures AtLeastAsNear(best, seen[i], time) { assert (seen + near)[i] == seen[i]; }
    forall i | 0 <= i < |near| ensures AtLeastAsNear(best, near[i], time) {
      assert (seen + near)[|seen| + i] == near[i];
    }
    if k > 0 { assert near[0] == ts[k - 1]; }
    if k < |ts| { assert near[|near| - 1] == ts[k]; }
    NeighboursAreNearest(ts, time, k, best);
    assert forall x :: x in near ==> x in ts;
    assert best in seen + ts;
  }

  /** One visible counter: look at the samples on both sides of the search position. */
  method ConsiderTrace(best: real, dist: real, ts: seq<real>, time: real, ghost big: real, ghost seen: seq<real>)
    returns (b: real, d: real)
    requires Ascending(ts) && ts != [] && Snapped(best, dist, seen, time, big)
    requires forall i :: 0 <= i < |ts| ==> Distance(ts[i], time) < big
    ensures Snapped(b, d, seen + ts, time, big)
  {
    var k := LowerBound(ts, time);
    b, d := best, dist;
    ghost var near: seq<real> := [];
    assert seen + near == seen;
    if k > 0 {
      b, d := Consider(b, d, ts[k - 1], time, big, seen);
      near := [ts[k - 1]];
    }
    if k < |ts| {
      b, d := Consider(b, d, ts[k], time, big, seen + near);
      assert seen + near + [ts[k]] == seen + (near + [ts[k]]);
      near := near + [ts[k]];
    }
    WholeTrace(ts, time, big, k, seen, near, b, d);
  }

  /** The nearest sample of every visible counter, the earliest of equally near ones; the
      query time itself when there is none. */
  method SnapToNearestSample(counters: seq<CounterData>, time: real, big: real) returns (best: real)
    requires forall c ::
      c in counters ==> c.Sorted() && forall i :: 0 <= i < |c.timestamps| ==> Distance(c.timestamps[i], time) < big
    ensures Times(counters, |counters|) == [] ==> best == time
    ensures forall t :: t in Times(counters, |counters|) ==>
              var near := if best < time then time - best else best - time;
              var far := if t < time then time - t else t - time;
              near < far || (near == far && best <= t)
    ensures Times(counters, |counters|) != [] ==>
              best in Times(counters, |counters|) && NearestAmong(best, Times(counters, |counters|), time)
  {
    best := time;
    var dist := big;
    for i := 0 to |counters|
      invariant Snapped(best, dist, Times(counters, i), time, big)
    {
      var cd := counters[i];
      if cd.visible && cd.timestamps != [] {
        best, dist := ConsiderTrace(best, dist, cd.timestamps, time, big, Times(counters, i));
      } else {
        assert Times(counters, i + 1) == Times(counters, i) + [];
      }
    }
  }
}

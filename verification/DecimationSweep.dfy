/**
 The decimation sweeps of the waveform renderer, as loops that visit every sample once.
 */
module DecimationSweep {
  import opened Decimation
  import opened Samples

  /** Position `j` separates the samples before time `t` from the others. */
  ghost predicate Splits(ts: seq<real>, j: nat, t: real) {
    j <= |ts| && (forall k :: 0 <= k < j ==> ts[k] < t) && forall k :: j <= k < |ts| ==> t <= ts[k]
  }

  lemma SweptColumn(ts: seq<real>, vs: seq<real>, lo: real, hi: real, j: nat)
    requires |ts| == |vs| && Splits(ts, j, hi)
    ensures Within(ts, vs, HalfOpen(lo, hi)) == Within(ts[..j], vs[..j], HalfOpen(lo, hi))
  {
    WithinStops(ts, vs, HalfOpen(lo, hi), j);
  }

  lemma NotStarted(ts: seq<real>, vs: seq<real>, lo: real, hi: real, j: nat)
    requires |ts| == |vs| && Splits(ts, j, lo)
    ensures Within(ts[..j], vs[..j], HalfOpen(lo, hi)) == []
  {
    WithinNothing(ts[..j], vs[..j], HalfOpen(lo, hi));
  }

  lemma SplitsHere(ts: seq<real>, j: nat, t: real)
    requires Ascending(ts) && j <= |ts| && (j < |ts| ==> t <= ts[j]) && forall k :: 0 <= k < j ==> ts[k] < t
    ensures Splits(ts, j, t)
  {
  }

  lemma NextSample(ts: seq<real>, vs: seq<real>, lo: real, hi: real, j: nat, kept: seq<real>)
    requires |ts| == |vs| && j < |ts| && ts[j] < hi && kept == Within(ts[..j], vs[..j], HalfOpen(lo, hi))
    ensures ts[j] >= lo ==> Within(ts[..j + 1], vs[..j + 1], HalfOpen(lo, hi)) == kept + [vs[j]]
    ensures ts[j] < lo ==> Within(ts[..j + 1], vs[..j + 1], HalfOpen(lo, hi)) == kept
  {
    WithinStep(ts, vs, HalfOpen(lo, hi), j);
  }

  /** The renderer's scratch vectors; `big` is the largest finite double. */
  class Sweeper {
    var x: seq<real>
    var y: seq<real>
    var yLo: seq<real>
    var yHi: seq<real>

    constructor ()
      ensures x == [] && y == [] && yLo == [] && yHi == []
    {
      x, y, yLo, yHi := [], [], [], [];
    }

    /** The inner loop: from sample `from` up to the right edge of the column. */
    method SumColumn(ts: seq<real>, vs: seq<real>, from: nat, xL: real, xR: real) returns (j: nat, sum: real, cnt: nat)
      requires |ts| == |vs| && Ascending(ts) && Splits(ts, from, xL) && xL <= xR
      ensures Splits(ts, j, xR)
      ensures sum == Sum(Within(ts, vs, HalfOpen(xL, xR))) && cnt == |Within(ts, vs, HalfOpen(xL, xR))|
    {
      hide Within, Sum;
      NothingYet();
      j, sum, cnt := from, 0.0, 0;
      NotStarted(ts, vs, xL, xR, from);
      ghost var kept: seq<real> := [];
      while j < |ts| && ts[j] < xR
        invariant from <= j <= |ts| && forall k :: 0 <= k < j ==> ts[k] < xR
        invariant kept == Within(ts[..j], vs[..j], HalfOpen(xL, xR)) && sum == Sum(kept) && cnt == |kept|
      {
        NextSample(ts, vs, xL, xR, j, kept);
        if ts[j] >= xL {
          MoreOf(kept, vs[j]);
          kept := kept + [vs[j]];
          sum := sum + vs[j];
          cnt := cnt + 1;
        }
        j := j + 1;
      }
      SplitsHere(ts, j, xR);
      SweptColumn(ts, vs, xL, xR, j);
    }

    /** The same, with the extremes of the column. */
    method RangeColumn(ts: seq<real>, vs: seq<real>, big: real, from: nat, xL: real, xR: real)
      returns (j: nat, sum: real, vLo: real, vHi: real, cnt: nat)
      requires |ts| == |vs| && Ascending(ts) && Splits(ts, from, xL) && xL <= xR && Finite(vs, big)
      ensures Splits(ts, j, xR)
      ensures sum == Sum(Within(ts, vs, HalfOpen(xL, xR))) && cnt == |Within(ts, vs, HalfOpen(xL, xR))|
      ensures cnt > 0 ==> vLo == Min(Within(ts, vs, HalfOpen(xL, xR))) && vHi == Max(Within(ts, vs, HalfOpen(xL, xR)))
    {
      hide Within, Sum, Min, Max;
      NothingYet();
      j, sum, vLo, vHi, cnt := from, 0.0, big, -big, 0;
      NotStarted(ts, vs, xL, xR, from);
      ghost var kept: seq<real> := [];
      while j < |ts| && ts[j] < xR
        invariant from <= j <= |ts| && forall k :: 0 <= k < j ==> ts[k] < xR
        invariant kept == Within(ts[..j], vs[..j], HalfOpen(xL, xR)) && sum == Sum(kept) && cnt == |kept|
        invariant if cnt == 0 then vLo == big && vHi == -big else vLo == Min(kept) && vHi == Max(kept)
      {
        NextSample(ts, vs, xL, xR, j, kept);
        if ts[j] >= xL {
          MoreOf(kept, vs[j]);
          kept := kept + [vs[j]];
          sum := sum + vs[j];
          if vs[j] < vLo { vLo := vs[j]; }
          if vs[j] > vHi { vHi := vs[j]; }
          cnt := cnt + 1;
        }
        j := j + 1;
      }
      SplitsHere(ts, j, xR);
      SweptColumn(ts, vs, xL, xR, j);
    }

    /** Midpoints and averages of `ps` are in the scratch vectors. */
    ghost predicate HoldsMeans(ps: seq<Point>)
      reads this
    {
      x == Xs(ps) && y == Avgs(ps)
    }

    ghost predicate HoldsRanges(ps: seq<Point>)
      reads this
    {
      yLo == Los(ps) && yHi == His(ps)
    }

    /** One column of `Decimate`. */
    method MeanColumn(ts: seq<real>, vs: seq<real>, xMin: real, dx: real, col: nat, from: nat) returns (j: nat)
      requires |ts| == |vs| && Ascending(ts) && dx > 0.0 && Splits(ts, from, Edge(xMin, dx, col))
      requires HoldsMeans(Columns(ts, vs, xMin, dx, col))
      modifies this`x, this`y
      ensures HoldsMeans(Columns(ts, vs, xMin, dx, col + 1)) && Splits(ts, j, Edge(xMin, dx, col + 1))
    {
      hide Within, Column, Columns, Edge, Width, Xs, Avgs;
      var xL := Edge(xMin, dx, col);
      var xR := xL + dx;
      NextEdge(xMin, dx, col);
      var sum, cnt;
      j, sum, cnt := SumColumn(ts, vs, from, xL, xR);
      ColumnsMore(ts, vs, xMin, dx, col);
      if cnt > 0 {
        PointAdded(Columns(ts, vs, xMin, dx, col), PointOf(xL + dx * 0.5, Column(ts, vs, xMin, dx, col)));
        x, y := x + [xL + dx * 0.5], y + [sum / cnt as real];
      }
    }

    method Decimate(ts: seq<real>, vs: seq<real>, w: int)
      requires |ts| == |vs| && Ascending(ts)
      modifies this`x, this`y
      ensures x == Xs(Decimated(ts, vs, w)) && y == Avgs(Decimated(ts, vs, w))
    {
      hide Within, Column, Columns, Edge, Width, Xs, Avgs;
      x, y := [], [];
      NoColumns([], [], 0.0, 0.0);
      if |ts| == 0 || w <= 0 { return; }
      var xMin, xMax := ts[0], ts[|ts| - 1];
      var span := xMax - xMin;
      if span <= 0.0 {
        OnePoint(ts, vs, w);
        x, y := x + [xMin], y + [vs[0]];
        return;
      }
      var dx := Width(span, w);
      var j: nat := 0;
      NoColumns(ts, vs, xMin, dx);
      for col := 0 to w
        invariant HoldsMeans(Columns(ts, vs, xMin, dx, col)) && Splits(ts, j, Edge(xMin, dx, col))
      {
        j := MeanColumn(ts, vs, xMin, dx, col, j);
      }
    }

    /** One column of `DecimateRange`. */
    method RangeOfColumn(ts: seq<real>, vs: seq<real>, big: real, xMin: real, dx: real, col: nat, from: nat)
      returns (j: nat)
      requires |ts| == |vs| && Ascending(ts) && Finite(vs, big) && dx > 0.0 && Splits(ts, from, Edge(xMin, dx, col))
      requires HoldsMeans(Columns(ts, vs, xMin, dx, col)) && HoldsRanges(Columns(ts, vs, xMin, dx, col))
      modifies this
      ensures HoldsMeans(Columns(ts, vs, xMin, dx, col + 1)) && HoldsRanges(Columns(ts, vs, xMin, dx, col + 1))
      ensures Splits(ts, j, Edge(xMin, dx, col + 1))
    {
      hide Within, Column, Columns, Edge, Width, Xs, Avgs, Los, His;
      var xL := Edge(xMin, dx, col);
      var xR := xL + dx;
      NextEdge(xMin, dx, col);
      var sum, vLo, vHi, cnt;
      j, sum, vLo, vHi, cnt := RangeColumn(ts, vs, big, from, xL, xR);
      ColumnsMore(ts, vs, xMin, dx, col);
      if cnt > 0 {
        PointAdded(Columns(ts, vs, xMin, dx, col), PointOf(xL + dx * 0.5, Column(ts, vs, xMin, dx, col)));
        x, y := x + [xL + dx * 0.5], y + [sum / cnt as real];
        yLo, yHi := yLo + [vLo], yHi + [vHi];
      }
    }

    /** Points of the same columns at the same x with the same averages, and their extremes. */
    method DecimateRange(ts: seq<real>, vs: seq<real>, big: real, w: int)
      requires |ts| == |vs| && Ascending(ts) && Finite(vs, big)
      modifies this
      ensures x == Xs(Decimated(ts, vs, w)) && y == Avgs(Decimated(ts, vs, w))
      ensures yLo == Los(Decimated(ts, vs, w)) && yHi == His(Decimated(ts, vs, w))
    {
      hide Within, Column, Columns, Edge, Width, Xs, Avgs, Los, His;
      x, y, yLo, yHi := [], [], [], [];
      NoColumns([], [], 0.0, 0.0);
      if |ts| == 0 || w <= 0 { return; }
      var xMin, xMax := ts[0], ts[|ts| - 1];
      var span := xMax - xMin;
      if span <= 0.0 {
        OnePoint(ts, vs, w);
        x, y, yLo, yHi := x + [xMin], y + [vs[0]], yLo + [vs[0]], yHi + [vs[0]];
        return;
      }
      var dx := Width(span, w);
      var j: nat := 0;
      NoColumns(ts, vs, xMin, dx);
      for col := 0 to w
        invariant HoldsMeans(Columns(ts, vs, xMin, dx, col)) && HoldsRanges(Columns(ts, vs, xMin, dx, col))
        invariant Splits(ts, j, Edge(xMin, dx, col))
      {
        j := RangeOfColumn(ts, vs, big, xMin, dx, col, j);
      }
    }
  }

  lemma PointAdded(ps: seq<Point>, p: Point)
    ensures Xs(ps + [p]) == Xs(ps) + [p.x] && Avgs(ps + [p]) == Avgs(ps) + [p.avg]
    ensures Los(ps + [p]) == Los(ps) + [p.lo] && His(ps + [p]) == His(ps) + [p.hi]
  {
  }

  lemma ColumnsMore(ts: seq<real>, vs: seq<real>, xMin: real, dx: real, col: nat)
    requires |ts| == |vs|
    ensures Column(ts, vs, xMin, dx, col) == Within(ts, vs, HalfOpen(Edge(xMin, dx, col), Edge(xMin, dx, col + 1)))
    ensures var values := Column(ts, vs, xMin, dx, col);
      Columns(ts, vs, xMin, dx, col + 1) ==
      if values == [] then Columns(ts, vs, xMin, dx, col)
      else Columns(ts, vs, xMin, dx, col) + [PointOf(Edge(xMin, dx, col) + dx * 0.5, values)]
  {
  }

  lemma NoColumns(ts: seq<real>, vs: seq<real>, xMin: real, dx: real)
    requires |ts| == |vs|
    ensures Columns(ts, vs, xMin, dx, 0) == [] && Edge(xMin, dx, 0) == xMin
    ensures Xs([]) == [] && Avgs([]) == [] && Los([]) == [] && His([]) == []
  {
  }

  lemma OnePoint(ts: seq<real>, vs: seq<real>, w: nat)
    requires |ts| == |vs| && w > 0 && ts != [] && ts[|ts| - 1] <= ts[0]
    ensures Xs(Decimated(ts, vs, w)) == [ts[0]] && Avgs(Decimated(ts, vs, w)) == [vs[0]]
    ensures Los(Decimated(ts, vs, w)) == [vs[0]] && His(Decimated(ts, vs, w)) == [vs[0]]
  {
  }
}

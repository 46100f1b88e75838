/**
 Decimation of a trace into pixel columns: one sweep over the samples, against the plain
 reading that filters the whole trace once for every column. Arithmetic is over the reals.
 */
module Decimation {
  import opened Samples

  /** What one column shows: its midpoint, and mean, minimum and maximum of its samples. */
  datatype Point = Point(x: real, avg: real, lo: real, hi: real)

  /** Left edge of column `c`. */
  function Edge(xMin: real, dx: real, c: int): real { xMin + c as real * dx }

  lemma NextEdge(xMin: real, dx: real, c: int)
    ensures Edge(xMin, dx, c + 1) == Edge(xMin, dx, c) + dx
  {
  }

  function Column(ts: seq<real>, vs: seq<real>, xMin: real, dx: real, c: int): seq<real>
    requires |ts| == |vs|
  {
    Within(ts, vs, HalfOpen(Edge(xMin, dx, c), Edge(xMin, dx, c + 1)))
  }

  function PointOf(x: real, values: seq<real>): Point
    requires values != []
  {
    Point(x, Mean(values), Min(values), Max(values))
  }

  /** The points of the first `w` columns; empty columns give none. */
  function Columns(ts: seq<real>, vs: seq<real>, xMin: real, dx: real, w: nat): seq<Point>
    requires |ts| == |vs|
  {
    if w == 0 then []
    else
      var values := Column(ts, vs, xMin, dx, w - 1);
      Columns(ts, vs, xMin, dx, w - 1)
      + if values == [] then [] else [PointOf(Edge(xMin, dx, w - 1) + dx * 0.5, values)]
  }

  function Width(span: real, w: int): (dx: real)
    requires w > 0
    ensures span > 0.0 ==> dx > 0.0
    ensures w as real * dx == span
  {
    span / w as real
  }

  /** The decimated trace. */
  function Decimated(ts: seq<real>, vs: seq<real>, w: int): seq<Point>
    requires |ts| == |vs|
  {
    if ts == [] || w <= 0 then []
    else
      var span := ts[|ts| - 1] - ts[0];
      if span <= 0.0 then [Point(ts[0], vs[0], vs[0], vs[0])]
      else Columns(ts, vs, ts[0], Width(span, w), w)
  }

  function Xs(ps: seq<Point>): seq<real> { seq(|ps|, i requires 0 <= i < |ps| => ps[i].x) }

  function Avgs(ps: seq<Point>): seq<real> { seq(|ps|, i requires 0 <= i < |ps| => ps[i].avg) }

  function Los(ps: seq<Point>): seq<real> { seq(|ps|, i requires 0 <= i < |ps| => ps[i].lo) }

  function His(ps: seq<Point>): seq<real> { seq(|ps|, i requires 0 <= i < |ps| => ps[i].hi) }

  lemma ColumnsOf(ps: seq<Point>, i: nat)
    requires i < |ps|
    ensures |Xs(ps)| == |Avgs(ps)| == |Los(ps)| == |His(ps)| == |ps|
    ensures Point(Xs(ps)[i], Avgs(ps)[i], Los(ps)[i], His(ps)[i]) == ps[i]
  {
  }

  // ----- What decimation keeps --------------------------------------------------------------

  /** The columns one after the other. */
  function AllColumns(ts: seq<real>, vs: seq<real>, xMin: real, dx: real, w: nat): seq<real>
    requires |ts| == |vs|
  {
    if w == 0 then [] else AllColumns(ts, vs, xMin, dx, w - 1) + Column(ts, vs, xMin, dx, w - 1)
  }

  lemma {:induction false} ColumnsCover(ts: seq<real>, vs: seq<real>, xMin: real, dx: real, w: nat)
    requires |ts| == |vs| && Ascending(ts) && dx >= 0.0
    ensures AllColumns(ts, vs, xMin, dx, w) == Within(ts, vs, HalfOpen(xMin, Edge(xMin, dx, w)))
    ensures xMin <= Edge(xMin, dx, w)
  {
    if w == 0 {
      WithinNothing(ts, vs, HalfOpen(xMin, xMin));
    } else {
      ColumnsCover(ts, vs, xMin, dx, w - 1);
      NextEdge(xMin, dx, w - 1);
      WithinJoins(ts, vs, xMin, Edge(xMin, dx, w - 1), Edge(xMin, dx, w));
    }
  }

  /** Number of samples strictly before time `t`. */
  function Before(ts: seq<real>, t: real): (n: nat)
    ensures n <= |ts|
  {
    if ts == [] then 0
    else if ts[|ts| - 1] < t then |ts| else Before(ts[..|ts| - 1], t)
  }

  lemma {:induction false} BeforeSplits(ts: seq<real>, t: real)
    requires Ascending(ts)
    ensures forall k :: 0 <= k < |ts| ==> (k < Before(ts, t) <==> ts[k] < t)
    decreases |ts|
  {
    if ts != [] && ts[|ts| - 1] >= t {
      BeforeSplits(ts[..|ts| - 1], t);
      assert forall k :: 0 <= k < |ts| - 1 ==> ts[..|ts| - 1][k] == ts[k];
    }
  }

  lemma {:induction false} WithinAll(ts: seq<real>, vs: seq<real>, lo: real, hi: real)
    requires |ts| == |vs| && forall k :: 0 <= k < |ts| ==> lo <= ts[k] < hi
    ensures Within(ts, vs, HalfOpen(lo, hi)) == vs
    decreases |ts|
  {
    if ts != [] {
      var n := |ts| - 1;
      WithinAll(ts[..n], vs[..n], lo, hi);
      assert vs == vs[..n] + [vs[n]];
    }
  }

  lemma WithinPrefix(ts: seq<real>, vs: seq<real>, lo: real, hi: real, n: nat)
    requires |ts| == |vs| && n <= |ts|
    requires forall k :: 0 <= k < |ts| ==> lo <= ts[k] && (k < n <==> ts[k] < hi)
    ensures Within(ts, vs, HalfOpen(lo, hi)) == vs[..n]
  {
    WithinStops(ts, vs, HalfOpen(lo, hi), n);
    WithinAll(ts[..n], vs[..n], lo, hi);
  }

  lemma LastEdge(span: real, xMin: real, w: nat)
    requires w > 0
    ensures Edge(xMin, Width(span, w), w) == xMin + span
  {
  }

  /** The columns, read from left to right, hold every sample before the last timestamp once
      and in order; the samples at the last timestamp are in no column. */
  lemma EachSampleOnce(ts: seq<real>, vs: seq<real>, w: nat, dx: real)
    requires |ts| == |vs| && Ascending(ts) && w > 0 && ts != [] && ts[|ts| - 1] > ts[0]
      && dx == Width(ts[|ts| - 1] - ts[0], w)
    ensures AllColumns(ts, vs, ts[0], dx, w) == vs[..Before(ts, ts[|ts| - 1])]
    ensures forall k :: 0 <= k < |ts| ==> (k < Before(ts, ts[|ts| - 1]) <==> ts[k] < ts[|ts| - 1])
  {
    hide Edge, AllColumns;
    var last := ts[|ts| - 1];
    LastEdge(last - ts[0], ts[0], w);
    ColumnsCover(ts, vs, ts[0], dx, w);
    BeforeSplits(ts, last);
    WithinPrefix(ts, vs, ts[0], last, Before(ts, last));
  }

  /** A column holds the values of one run of samples: those from its left edge up to, but not
      at, its right edge, all columns being `dx` wide. */
  lemma ColumnIsSlice(ts: seq<real>, vs: seq<real>, xMin: real, dx: real, c: nat) returns (i: nat, m: nat)
    requires |ts| == |vs| && Ascending(ts)
    ensures i <= m <= |ts| && Column(ts, vs, xMin, dx, c) == vs[i..m]
    ensures forall k :: 0 <= k < |ts| ==> (i <= k < m <==> xMin + c as real * dx <= ts[k] < xMin + (c + 1) as real * dx)
  {
    i, m := WithinIsSlice(ts, vs, HalfOpen(Edge(xMin, dx, c), Edge(xMin, dx, c + 1)));
  }

  /** Without samples or columns there is no point; when all samples have the same time there
      is one, the first sample. */
  lemma NoSpan(ts: seq<real>, vs: seq<real>, w: int)
    requires |ts| == |vs| && Ascending(ts)
    ensures ts == [] || w <= 0 ==> Decimated(ts, vs, w) == []
    ensures ts != [] && w > 0 && (forall k :: 0 <= k < |ts| ==> ts[k] == ts[0])
            ==> Decimated(ts, vs, w) == [Point(ts[0], vs[0], vs[0], vs[0])]
  {
  }

  /** Every point comes from one column, which is not empty: its x is the midpoint and its
      average lies between its extremes. */
  ghost predicate FromColumn(p: Point, ts: seq<real>, vs: seq<real>, xMin: real, dx: real, c: nat)
    requires |ts| == |vs|
  {
    var values := Column(ts, vs, xMin, dx, c);
    && values != [] && p.x == Edge(xMin, dx, c) + dx * 0.5
    && p.avg == Mean(values) && Lowest(p.lo, values) && Highest(p.hi, values) && p.lo <= p.avg <= p.hi
  }

  ghost predicate Rising(xs: seq<real>) { forall i, j :: 0 <= i < j < |xs| ==> xs[i] < xs[j] }

  lemma RisingMore(xs: seq<real>, x: real)
    requires Rising(xs) && forall i :: 0 <= i < |xs| ==> xs[i] < x
    ensures Rising(xs + [x])
  {
  }

  lemma MidpointInside(xMin: real, dx: real, c: int)
    requires dx > 0.0
    ensures Edge(xMin, dx, c) < Edge(xMin, dx, c) + dx * 0.5 < Edge(xMin, dx, c + 1)
  {
    NextEdge(xMin, dx, c);
  }

  lemma XsMore(ps: seq<Point>, p: Point)
    ensures Xs(ps + [p]) == Xs(ps) + [p.x]
  {
  }

  ghost predicate AllBelow(xs: seq<real>, x: real) { forall i :: 0 <= i < |xs| ==> xs[i] < x }

  lemma {:induction false} ColumnsRise(ts: seq<real>, vs: seq<real>, xMin: real, dx: real, w: nat)
    requires |ts| == |vs| && dx > 0.0
    ensures |Columns(ts, vs, xMin, dx, w)| <= w
    ensures AllBelow(Xs(Columns(ts, vs, xMin, dx, w)), Edge(xMin, dx, w))
    ensures Rising(Xs(Columns(ts, vs, xMin, dx, w)))
  {
    hide Edge, Column, Xs;
    if w > 0 {
      ColumnsRise(ts, vs, xMin, dx, w - 1);
      MidpointInside(xMin, dx, w - 1);
      var values := Column(ts, vs, xMin, dx, w - 1);
      var fewer := Columns(ts, vs, xMin, dx, w - 1);
      if values == [] {
        assert fewer + [] == fewer;
      } else {
        var p := PointOf(Edge(xMin, dx, w - 1) + dx * 0.5, values);
        XsMore(fewer, p);
        assert p.x == Edge(xMin, dx, w - 1) + dx * 0.5;
        RisingMore(Xs(fewer), p.x);
      }
    } else {
      NoXs();
    }
  }

  lemma NoXs()
    ensures Xs([]) == []
  {
  }

  ghost predicate HasColumn(p: Point, ts: seq<real>, vs: seq<real>, xMin: real, dx: real, w: nat)
    requires |ts| == |vs|
  {
    exists c: nat :: c < w && FromColumn(p, ts, vs, xMin, dx, c)
  }

  ghost predicate HasPoint(ps: seq<Point>, ts: seq<real>, vs: seq<real>, xMin: real, dx: real, c: nat)
    requires |ts| == |vs|
  {
    exists p :: p in ps && FromColumn(p, ts, vs, xMin, dx, c)
  }

  lemma PointIsFromColumn(ts: seq<real>, vs: seq<real>, xMin: real, dx: real, c: nat)
    requires |ts| == |vs| && Column(ts, vs, xMin, dx, c) != []
    ensures FromColumn(PointOf(Edge(xMin, dx, c) + dx * 0.5, Column(ts, vs, xMin, dx, c)), ts, vs, xMin, dx, c)
  {
    MeanIsBetween(Column(ts, vs, xMin, dx, c));
  }

  lemma {:induction false} PointsFromColumns(ts: seq<real>, vs: seq<real>, xMin: real, dx: real, w: nat, p: Point)
    requires |ts| == |vs| && p in Columns(ts, vs, xMin, dx, w)
    ensures HasColumn(p, ts, vs, xMin, dx, w)
  {
    hide Edge, Column, PointOf, FromColumn;
    if p in Columns(ts, vs, xMin, dx, w - 1) {
      PointsFromColumns(ts, vs, xMin, dx, w - 1, p);
      var c: nat :| c < w - 1 && FromColumn(p, ts, vs, xMin, dx, c);
    } else {
      PointIsFromColumn(ts, vs, xMin, dx, w - 1);
    }
  }

  lemma {:induction false} ColumnHasPoint(ts: seq<real>, vs: seq<real>, xMin: real, dx: real, w: nat, c: nat)
    requires |ts| == |vs| && c < w && Column(ts, vs, xMin, dx, c) != []
    ensures HasPoint(Columns(ts, vs, xMin, dx, w), ts, vs, xMin, dx, c)
  {
    hide Edge, Column, PointOf, FromColumn;
    if c < w - 1 {
      ColumnHasPoint(ts, vs, xMin, dx, w - 1, c);
      var p :| p in Columns(ts, vs, xMin, dx, w - 1) && FromColumn(p, ts, vs, xMin, dx, c);
      assert p in Columns(ts, vs, xMin, dx, w);
    } else {
      PointIsFromColumn(ts, vs, xMin, dx, c);
      var p := PointOf(Edge(xMin, dx, c) + dx * 0.5, Column(ts, vs, xMin, dx, c));
      assert p in Columns(ts, vs, xMin, dx, w);
    }
  }

  /** At most `w` points, at strictly increasing x: one for each column with samples, and no other. */
  lemma DecimationShape(ts: seq<real>, vs: seq<real>, w: nat, dx: real)
    requires |ts| == |vs| && w > 0 && ts != [] && ts[|ts| - 1] > ts[0] && dx == Width(ts[|ts| - 1] - ts[0], w)
    ensures |Decimated(ts, vs, w)| <= w && Rising(Xs(Decimated(ts, vs, w)))
    ensures forall p :: p in Decimated(ts, vs, w) ==> HasColumn(p, ts, vs, ts[0], dx, w)
    ensures forall c: nat ::
      c < w && Column(ts, vs, ts[0], dx, c) != [] ==> HasPoint(Decimated(ts, vs, w), ts, vs, ts[0], dx, c)
  {
    hide Edge, Column, Columns, HasColumn, HasPoint, Rising;
    ColumnsRise(ts, vs, ts[0], dx, w);
    forall p | p in Decimated(ts, vs, w) ensures HasColumn(p, ts, vs, ts[0], dx, w) {
      PointsFromColumns(ts, vs, ts[0], dx, w, p);
    }
    forall c: nat | c < w && Column(ts, vs, ts[0], dx, c) != []
      ensures HasPoint(Decimated(ts, vs, w), ts, vs, ts[0], dx, c)
    {
      ColumnHasPoint(ts, vs, ts[0], dx, w, c);
    }
  }
}

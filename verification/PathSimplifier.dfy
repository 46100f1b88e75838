/**
 The trail simplifier of kv8zoom: Douglas-Peucker over a shared array of keep marks, a
 stride subsample of the kept points, and the bounded trail buffer.

 Coordinates are reals.  The east scale of the local frame (earth radius times the cosine
 of the reference latitude) is a parameter, a positive function of the latitude; distances
 are compared squared, so no square root is taken.
 */
module PathSimplifier {
  datatype TrailPoint = TrailPoint(ts: int, lat: real, lon: real, alt: real)

  /** Metres per radian-scaled degree, north and, by latitude, east. */
  datatype Frame = Frame(north: real, east: real -> real)

  datatype Vec = Vec(x: real, y: real, z: real)

  const DEGENERATE := 0.000000000001

  /** Local east/north/up coordinates of `p` relative to `o`. */
  function ToENU(f: Frame, o: TrailPoint, p: TrailPoint): Vec {
    Vec(f.east(o.lat) * (p.lon - o.lon), f.north * (p.lat - o.lat), p.alt - o.alt)
  }

  function Dot(a: Vec, b: Vec): real { a.x * b.x + a.y * b.y + a.z * b.z }

  function Sub(a: Vec, b: Vec): Vec { Vec(a.x - b.x, a.y - b.y, a.z - b.z) }

  function Scale(t: real, a: Vec): Vec { Vec(t * a.x, t * a.y, t * a.z) }

  function Norm2(a: Vec): real { Dot(a, a) }

  function Clamp(t: real): real { if t < 0.0 then 0.0 else if t > 1.0 then 1.0 else t }

  /** The parameter of the point of the segment 0..b that the code measures `p` against. */
  function Foot(b: Vec, p: Vec): real {
    if Norm2(b) < DEGENERATE then 0.0 else Clamp(Dot(p, b) / Norm2(b))
  }

  /** Squared distance of `p` from the point of the segment 0..b at parameter `t`. */
  function Dist2At(b: Vec, p: Vec, t: real): real { Norm2(Sub(p, Scale(t, b))) }

  /** `CrossTrackDist`, squared. */
  function CrossTrack2(f: Frame, a: TrailPoint, b: TrailPoint, p: TrailPoint): real {
    var bv, pv := ToENU(f, a, b), ToENU(f, a, p);
    var len2 := Norm2(bv);
    if len2 < DEGENERATE then Norm2(pv)
    else
      var t := Clamp(Dot(pv, bv) / len2);
      Norm2(Sub(pv, Scale(t, bv)))
  }

  // ----- What the distance means ---------------------------------------------------------

  lemma Expand(b: Vec, p: Vec, t: real)
    ensures Dist2At(b, p, t) == Norm2(p) - 2.0 * (t * Dot(p, b)) + t * t * Norm2(b)
  {
    Term(p.x, b.x, t);
    Term(p.y, b.y, t);
    Term(p.z, b.z, t);
    Distribute(t * t, b.x * b.x, b.y * b.y, b.z * b.z);
    Distribute(t, p.x * b.x, p.y * b.y, p.z * b.z);
  }

  lemma Term(p: real, b: real, t: real)
    ensures (p - t * b) * (p - t * b) == p * p - 2.0 * (t * (p * b)) + t * t * (b * b)
  {
  }

  lemma Distribute(k: real, a: real, b: real, c: real)
    ensures k * (a + b + c) == k * a + k * b + k * c
  {
  }

  /** The difference of two squared distances along the segment. */
  lemma Difference(b: Vec, p: Vec, t: real, u: real)
    ensures Dist2At(b, p, u) - Dist2At(b, p, t) == (u - t) * ((u + t) * Norm2(b) - 2.0 * Dot(p, b))
  {
    Expand(b, p, t);
    Expand(b, p, u);
    var n, d := Norm2(b), Dot(p, b);
    assert (u - t) * ((u + t) * n) == u * u * n - t * t * n;
    assert (u - t) * (2.0 * d) == 2.0 * (u * d) - 2.0 * (t * d);
    assert (u - t) * ((u + t) * n - 2.0 * d) == (u - t) * ((u + t) * n) - (u - t) * (2.0 * d);
  }

  /** For a segment that is not degenerate the clamped projection is the closest point. */
  lemma FootIsClosest(b: Vec, p: Vec, u: real)
    requires Norm2(b) >= DEGENERATE && 0.0 <= u <= 1.0
    ensures Dist2At(b, p, Foot(b, p)) <= Dist2At(b, p, u)
  {
    hide Dist2At, Norm2, Dot;
    var n, d := Norm2(b), Dot(p, b);
    var raw, t := d / n, Foot(b, p);
    assert d == raw * n;
    Difference(b, p, t, u);
    SignOfProduct(raw, t, u);
    Factor(n, raw, t, u);
    NonNegative((u - t) * (u + t - 2.0 * raw), n);
  }

  lemma Factor(n: real, raw: real, t: real, u: real)
    ensures (u - t) * ((u + t) * n - 2.0 * (raw * n)) == (u - t) * (u + t - 2.0 * raw) * n
  {
    assert (u + t) * n - 2.0 * (raw * n) == (u + t - 2.0 * raw) * n;
  }

  lemma SignOfProduct(raw: real, t: real, u: real)
    requires t == Clamp(raw) && 0.0 <= u <= 1.0
    ensures (u - t) * (u + t - 2.0 * raw) >= 0.0
  {
    if raw < 0.0 {
      NonNegative(u, u - 2.0 * raw);
    } else if raw > 1.0 {
      NonNegative(1.0 - u, 2.0 * raw - 1.0 - u);
      assert (1.0 - u) * (2.0 * raw - 1.0 - u) == (u - 1.0) * (u + 1.0 - 2.0 * raw);
    } else {
      Square(u - t);
    }
  }

  lemma Square(a: real)
    ensures a * a >= 0.0
  {
    if a >= 0.0 { NonNegative(a, a); } else { NonNegative(-a, -a); }
  }

  lemma NonNegative(a: real, b: real)
    requires a >= 0.0 && b >= 0.0
    ensures a * b >= 0.0
  {
  }

  /** The distance is always to a point of the segment, and for a segment that is not
      degenerate to the closest one. */
  lemma CrossTrackIsDistance(f: Frame, a: TrailPoint, b: TrailPoint, p: TrailPoint)
    ensures var bv, pv := ToENU(f, a, b), ToENU(f, a, p);
      && 0.0 <= Foot(bv, pv) <= 1.0
      && CrossTrack2(f, a, b, p) == Dist2At(bv, pv, Foot(bv, pv)) >= 0.0
      && (Norm2(bv) >= 0.000000000001 ==>
           forall u :: 0.0 <= u <= 1.0 ==> CrossTrack2(f, a, b, p) <= Dist2At(bv, pv, u))
      && (Norm2(bv) < 0.000000000001 ==> CrossTrack2(f, a, b, p) == Dist2At(bv, pv, 0.0) == Norm2(pv))
  {
    var bv, pv := ToENU(f, a, b), ToENU(f, a, p);
    if Norm2(bv) < DEGENERATE { Expand(bv, pv, 0.0); }
    var v := Sub(pv, Scale(Foot(bv, pv), bv));
    Square(v.x);
    Square(v.y);
    Square(v.z);
    forall u | Norm2(bv) >= DEGENERATE && 0.0 <= u <= 1.0 ensures CrossTrack2(f, a, b, p) <= Dist2At(bv, pv, u) {
      FootIsClosest(bv, pv, u);
    }
  }

  // ----- Metres along the axes -------------------------------------------------------------------

  function Plus(a: Vec, b: Vec): Vec { Vec(a.x + b.x, a.y + b.y, a.z + b.z) }

  /** A point that stands off the segment at a right angle is as far away as it stands off. */
  lemma StandsOff(b: Vec, w: Vec, t: real)
    requires Norm2(b) >= DEGENERATE && 0.0 <= t <= 1.0 && Dot(w, b) == 0.0
    ensures var p := Plus(Scale(t, b), w); Foot(b, p) == t && Dist2At(b, p, t) == Norm2(w)
  {
    hide Norm2, Dot, Plus, Sub, Scale;
    DotSplits(b, w, t);
    Share(t, Norm2(b));
    OffFoot(b, w, t);
  }

  lemma OffFoot(b: Vec, w: Vec, t: real)
    ensures Sub(Plus(Scale(t, b), w), Scale(t, b)) == w
  {
  }

  lemma DotSplits(b: Vec, w: Vec, t: real)
    ensures Dot(Plus(Scale(t, b), w), b) == t * Norm2(b) + Dot(w, b)
  {
    SplitTerm(b.x, w.x, t);
    SplitTerm(b.y, w.y, t);
    SplitTerm(b.z, w.z, t);
    Distribute(t, b.x * b.x, b.y * b.y, b.z * b.z);
  }

  lemma SplitTerm(b: real, w: real, t: real)
    ensures (t * b + w) * b == t * (b * b) + w * b
  {
  }

  lemma Share(t: real, n: real)
    requires n > 0.0
    ensures t * n / n == t
  {
  }

  lemma Part(k: real, whole: real, part: real)
    requires whole != 0.0
    ensures part / whole * (k * whole) == k * part
  {
    assert part / whole * whole == part;
    assert part / whole * (k * whole) == k * (part / whole * whole);
  }

  lemma BetweenShare(lo: real, hi: real, x: real)
    requires lo <= x <= hi || hi <= x <= lo
    requires lo != hi
    ensures 0.0 <= (x - lo) / (hi - lo) <= 1.0
  {
    if lo < hi {
      ProperFraction(x - lo, hi - lo);
    } else {
      ProperFraction(lo - x, lo - hi);
      assert (lo - x) / (lo - hi) == (x - lo) / (hi - lo);
    }
  }

  lemma ProperFraction(a: real, b: real)
    requires 0.0 <= a <= b && b > 0.0
    ensures 0.0 <= a / b <= 1.0
  {
  }

  /** Beside a level track due north: what counts is the way east, on the parallel through the
      start of the track, and the way up. */
  lemma BesideNorthbound(f: Frame, a: TrailPoint, b: TrailPoint, p: TrailPoint)
    requires b.lon == a.lon && b.alt == a.alt && b.lat != a.lat
    requires (a.lat <= p.lat <= b.lat || b.lat <= p.lat <= a.lat) && Norm2(ToENU(f, a, b)) >= DEGENERATE
    ensures CrossTrack2(f, a, b, p) == Norm2(Vec(f.east(a.lat) * (p.lon - a.lon), 0.0, p.alt - a.alt))
  {
    var bv, pv := ToENU(f, a, b), ToENU(f, a, p);
    var t, w := (p.lat - a.lat) / (b.lat - a.lat), Vec(pv.x, 0.0, pv.z);
    BetweenShare(a.lat, b.lat, p.lat);
    Part(f.north, b.lat - a.lat, p.lat - a.lat);
    assert bv.x == 0.0 && bv.z == 0.0;
    assert pv == Plus(Scale(t, bv), w);
    StandsOff(bv, w, t);
  }

  /** Beside a level track due east: the way north and the way up. */
  lemma BesideEastbound(f: Frame, a: TrailPoint, b: TrailPoint, p: TrailPoint)
    requires b.lat == a.lat && b.alt == a.alt && b.lon != a.lon
    requires (a.lon <= p.lon <= b.lon || b.lon <= p.lon <= a.lon) && Norm2(ToENU(f, a, b)) >= DEGENERATE
    ensures CrossTrack2(f, a, b, p) == Norm2(Vec(0.0, f.north * (p.lat - a.lat), p.alt - a.alt))
  {
    var bv, pv := ToENU(f, a, b), ToENU(f, a, p);
    var t, w := (p.lon - a.lon) / (b.lon - a.lon), Vec(0.0, pv.y, pv.z);
    BetweenShare(a.lon, b.lon, p.lon);
    Part(f.east(a.lat), b.lon - a.lon, p.lon - a.lon);
    assert bv.y == 0.0 && bv.z == 0.0;
    assert pv == Plus(Scale(t, bv), w);
    StandsOff(bv, w, t);
  }

  // ----- Squares ----------------------------------------------------------------------------------

  function Times(a: real, b: real): real { a * b }

  function Sq(a: real): real { Times(a, a) }

  lemma TimesPositive(a: real, b: real)
    requires a > 0.0 && b > 0.0
    ensures Times(a, b) > 0.0
  {
  }

  // ----- Douglas-Peucker -----------------------------------------------------------------------

  /** The distance with square `d2` exceeds the tolerance, which may be negative. */
  predicate Over(d2: real, eps: real) { eps < 0.0 || d2 > eps * eps }

  /** On a distance it means what it says. */
  lemma OverMeans(d: real, eps: real)
    requires d >= 0.0
    ensures Over(d * d, eps) <==> d > eps
  {
    if eps >= 0.0 {
      if d > eps { SquareGrows(eps, d); } else { SquareStays(d, eps); }
    }
  }

  lemma SquareGrows(a: real, b: real)
    requires 0.0 <= a < b
    ensures Sq(a) < Sq(b)
  {
    hide Times;
    TimesPositive(b - a, b + a);
    SquareDifference(a, b);
  }

  lemma SquareDifference(a: real, b: real)
    ensures Sq(b) == Sq(a) + Times(b - a, b + a)
  {
  }

  lemma SquareStays(a: real, b: real)
    requires 0.0 <= a <= b
    ensures Sq(a) <= Sq(b)
  {
    if a < b { SquareGrows(a, b); }
  }

  /** Squared distance of point `k` from the segment joining points `lo` and `hi`. */
  function Away(f: Frame, pts: seq<TrailPoint>, lo: nat, hi: nat, k: nat): real
    requires lo < |pts| && hi < |pts| && k < |pts|
  {
    CrossTrack2(f, pts[lo], pts[hi], pts[k])
  }

  /** `d` is the distance of point `k` from the segment joining points `lo` and `hi`. */
  ghost predicate IsDistance(f: Frame, pts: seq<TrailPoint>, lo: nat, hi: nat, k: nat, d: real)
    requires lo < |pts| && hi < |pts| && k < |pts|
  {
    d >= 0.0 && d * d == Away(f, pts, lo, hi, k)
  }

  lemma DistanceTells(f: Frame, pts: seq<TrailPoint>, lo: nat, hi: nat, k: nat, d: real, eps: real)
    requires lo < |pts| && hi < |pts| && k < |pts| && IsDistance(f, pts, lo, hi, k, d)
    ensures Over(Away(f, pts, lo, hi, k), eps) <==> d > eps
  {
    OverMeans(d, eps);
  }

  /** Every point between lies on the segment. */
  ghost predicate Flat(f: Frame, pts: seq<TrailPoint>, lo: nat, hi: nat)
    requires lo < hi < |pts|
  {
    forall k: nat :: lo < k < hi ==> Away(f, pts, lo, hi, k) <= 0.0
  }

  /** `m` is the first of the points farthest from the segment. */
  ghost predicate FirstFarthest(f: Frame, pts: seq<TrailPoint>, lo: nat, hi: nat, m: nat)
    requires lo < hi < |pts|
  {
    && lo < m < hi && Away(f, pts, lo, hi, m) > 0.0
    && forall k: nat :: lo < k < hi ==>
         Away(f, pts, lo, hi, k) <= Away(f, pts, lo, hi, m)
            && (k < m ==> Away(f, pts, lo, hi, k) < Away(f, pts, lo, hi, m))
  }

  /** The scan for the point farthest from the segment. */
  method Farthest(f: Frame, pts: seq<TrailPoint>, start: nat, end: nat) returns (maxDist2: real, maxIdx: nat)
    requires start < end < |pts|
    ensures maxDist2 == 0.0 ==> maxIdx == start && Flat(f, pts, start, end)
    ensures maxDist2 != 0.0
      ==> FirstFarthest(f, pts, start, end, maxIdx) && Away(f, pts, start, end, maxIdx) == maxDist2
  {
    hide CrossTrack2;
    maxDist2, maxIdx := 0.0, start;
    for i := start + 1 to end
      invariant start <= maxIdx < i && maxDist2 >= 0.0 && (maxDist2 == 0.0 ==> maxIdx == start)
      invariant maxDist2 > 0.0 ==> start < maxIdx && Away(f, pts, start, end, maxIdx) == maxDist2
      invariant forall k: nat :: start < k < i ==> Away(f, pts, start, end, k) <= maxDist2
      invariant forall k: nat :: start < k < maxIdx ==> Away(f, pts, start, end, k) < maxDist2
    {
      var d2 := Away(f, pts, start, end, i);
      if d2 > maxDist2 { maxDist2, maxIdx := d2, i; }
    }
  }

  /** The recursion comes to an end.  With a negative tolerance it calls itself with the same
      range for ever once every point between the ends of a range lies on their segment. */
  ghost predicate Ends(f: Frame, pts: seq<TrailPoint>, lo: nat, hi: nat, eps: real)
    requires lo <= hi < |pts|
    decreases hi - lo
  {
    hi <= lo + 1 ||
    (if Flat(f, pts, lo, hi) then !Over(0.0, eps)
     else forall m: nat :: lo < m < hi && FirstFarthest(f, pts, lo, hi, m) && Over(Away(f, pts, lo, hi, m), eps) ==>
            Ends(f, pts, lo, m, eps) && Ends(f, pts, m, hi, eps))
  }

  ghost predicate NoneBetween(keep: seq<bool>, lo: nat, hi: nat)
    requires hi < |keep|
  {
    forall k: nat :: lo < k < hi ==> !keep[k]
  }

  /** The marks of a range: none when all points between are within the tolerance of the
      segment; otherwise the first farthest point is marked, and both halves likewise. */
  ghost predicate Split(f: Frame, pts: seq<TrailPoint>, keep: seq<bool>, lo: nat, hi: nat, eps: real)
    requires lo <= hi < |pts| == |keep|
    decreases hi - lo
  {
    hi <= lo + 1 ||
    (if NoneBetween(keep, lo, hi) then forall k: nat :: lo < k < hi ==> !Over(Away(f, pts, lo, hi, k), eps)
     else exists m: nat :: lo < m < hi && SplitAt(f, pts, keep, lo, hi, eps, m))
  }

  ghost predicate SplitAt(f: Frame, pts: seq<TrailPoint>, keep: seq<bool>, lo: nat, hi: nat, eps: real, m: nat)
    requires lo < m < hi < |pts| == |keep|
    decreases hi - lo, 0
  {
    && keep[m] && FirstFarthest(f, pts, lo, hi, m) && Over(Away(f, pts, lo, hi, m), eps)
    && Split(f, pts, keep, lo, m, eps) && Split(f, pts, keep, m, hi, eps)
  }

  lemma {:induction false} SplitStays(f: Frame, pts: seq<TrailPoint>, was: seq<bool>, now: seq<bool>, lo: nat,
                                      hi: nat, eps: real)
    requires lo <= hi < |pts| == |was| == |now| && forall k :: lo < k < hi ==> was[k] == now[k]
    requires Split(f, pts, was, lo, hi, eps)
    ensures Split(f, pts, now, lo, hi, eps)
    decreases hi - lo
  {
    hide FirstFarthest, Over, Away;
    if hi > lo + 1 && !NoneBetween(was, lo, hi) {
      var m: nat :| lo < m < hi && SplitAt(f, pts, was, lo, hi, eps, m);
      SplitStays(f, pts, was, now, lo, m, eps);
      SplitStays(f, pts, was, now, m, hi, eps);
      assert SplitAt(f, pts, now, lo, hi, eps, m);
    }
  }

  lemma FarthestIsUnique(f: Frame, pts: seq<TrailPoint>, lo: nat, hi: nat, m: nat, n: nat)
    requires lo < hi < |pts| && FirstFarthest(f, pts, lo, hi, m) && FirstFarthest(f, pts, lo, hi, n)
    ensures m == n
  {
  }

  /** The marks are determined: two sets of marks of this kind agree. */
  lemma {:induction false} SplitIsUnique(f: Frame, pts: seq<TrailPoint>, a: seq<bool>, b: seq<bool>, lo: nat, hi: nat,
                                         eps: real)
    requires lo <= hi < |pts| == |a| == |b| && Split(f, pts, a, lo, hi, eps) && Split(f, pts, b, lo, hi, eps)
    ensures forall k :: lo < k < hi ==> a[k] == b[k]
    decreases hi - lo
  {
    hide FirstFarthest, Over, Away;
    if hi > lo + 1 && !NoneBetween(a, lo, hi) && !NoneBetween(b, lo, hi) {
      var m: nat :| lo < m < hi && SplitAt(f, pts, a, lo, hi, eps, m);
      var n: nat :| lo < n < hi && SplitAt(f, pts, b, lo, hi, eps, n);
      FarthestIsUnique(f, pts, lo, hi, m, n);
      SplitIsUnique(f, pts, a, b, lo, m, eps);
      SplitIsUnique(f, pts, a, b, m, hi, eps);
    }
  }

  /** A trail keeps nothing between its ends exactly when everything is within the tolerance
      of the segment joining them. */
  lemma OnlyEndsKeptIff(f: Frame, pts: seq<TrailPoint>, keep: seq<bool>, lo: nat, hi: nat, eps: real)
    requires lo <= hi < |pts| == |keep| && Split(f, pts, keep, lo, hi, eps)
    ensures NoneBetween(keep, lo, hi) <==> forall k: nat :: lo < k < hi ==> !Over(Away(f, pts, lo, hi, k), eps)
  {
    hide Over, Away;
  }

  /** The same for the distances themselves. */
  lemma OnlyEndsKeptIffNear(f: Frame, pts: seq<TrailPoint>, keep: seq<bool>, lo: nat, hi: nat, eps: real,
                            dist: seq<real>)
    requires lo <= hi < |pts| == |keep| == |dist| && Split(f, pts, keep, lo, hi, eps)
    requires forall k: nat :: lo < k < hi ==> IsDistance(f, pts, lo, hi, k, dist[k])
    ensures (forall k: nat :: lo < k < hi ==> !keep[k]) <==> (forall k: nat :: lo < k < hi ==> dist[k] <= eps)
  {
    hide Over, Away, Split, IsDistance;
    OnlyEndsKeptIff(f, pts, keep, lo, hi, eps);
    forall k: nat | lo < k < hi ensures Over(Away(f, pts, lo, hi, k), eps) <==> dist[k] > eps {
      DistanceTells(f, pts, lo, hi, k, dist[k], eps);
    }
    assert NoneBetween(keep, lo, hi) <==> forall k: nat :: lo < k < hi ==> !keep[k];
  }

  /** Point `k` was farthest, and farther than the tolerance, from the segment of a range that was split there. */
  ghost predicate SplitPoint(f: Frame, pts: seq<TrailPoint>, keep: seq<bool>, l: nat, r: nat, k: nat, eps: real)
    requires |pts| == |keep|
  {
    && l < k < r < |pts| && keep[l] && keep[r]
    && FirstFarthest(f, pts, l, r, k) && Over(Away(f, pts, l, r, k), eps)
  }

  /** A point is kept only for lying farther than the tolerance from the segment of the range
      being split. */
  lemma {:induction false} KeptIsFar(f: Frame, pts: seq<TrailPoint>, keep: seq<bool>, lo: nat, hi: nat, eps: real,
                                     k: nat) returns (l: nat, r: nat)
    requires lo <= hi < |pts| == |keep| && keep[lo] && keep[hi] && Split(f, pts, keep, lo, hi, eps)
    requires lo < k < hi && keep[k]
    ensures lo <= l && r <= hi && SplitPoint(f, pts, keep, l, r, k, eps)
    decreases hi - lo
  {
    hide FirstFarthest, Over, Away;
    assert !NoneBetween(keep, lo, hi);
    var m: nat :| lo < m < hi && SplitAt(f, pts, keep, lo, hi, eps, m);
    if k == m {
      l, r := lo, hi;
    } else if k < m {
      l, r := KeptIsFar(f, pts, keep, lo, m, eps, k);
    } else {
      l, r := KeptIsFar(f, pts, keep, m, hi, eps, k);
    }
  }

  /** In terms of distances: a kept point lies farther than the tolerance from the segment of a
      range that was split there, and no other point of that range lies farther. */
  lemma KeptIsFarOff(f: Frame, pts: seq<TrailPoint>, keep: seq<bool>, lo: nat, hi: nat, eps: real, k: nat)
    returns (l: nat, r: nat)
    requires lo <= hi < |pts| == |keep| && keep[lo] && keep[hi] && Split(f, pts, keep, lo, hi, eps)
    requires lo < k < hi && keep[k]
    ensures lo <= l < k < r <= hi && keep[l] && keep[r]
    ensures forall d :: IsDistance(f, pts, l, r, k, d) ==> d > eps
    ensures forall i: nat :: l < i < r ==> Away(f, pts, l, r, i) <= Away(f, pts, l, r, k)
    ensures forall i: nat :: l < i < k ==> Away(f, pts, l, r, i) < Away(f, pts, l, r, k)
  {
    l, r := KeptIsFar(f, pts, keep, lo, hi, eps, k);
    hide Over, Away, IsDistance;
    forall d | IsDistance(f, pts, l, r, k, d) ensures d > eps { DistanceTells(f, pts, l, r, k, d, eps); }
  }

  /** Neighbours among the kept points. */
  ghost predicate Adjacent(keep: seq<bool>, l: nat, r: nat) {
    l < r < |keep| && keep[l] && keep[r] && forall k :: l < k < r ==> !keep[k]
  }

  /** Every point dropped between `lo` and `hi` is within the tolerance of the segment that
      joins the nearest kept points before and after it. */
  ghost predicate Covered(f: Frame, pts: seq<TrailPoint>, keep: seq<bool>, lo: nat, hi: nat, eps: real)
    requires lo <= hi < |pts| == |keep|
  {
    forall l: nat, i: nat, r: nat :: lo <= l < i < r <= hi && Adjacent(keep, l, r) ==> !Over(Away(f, pts, l, r, i), eps)
  }

  lemma CoveredJoins(f: Frame, pts: seq<TrailPoint>, keep: seq<bool>, lo: nat, mid: nat, hi: nat, eps: real)
    requires lo <= mid <= hi < |pts| == |keep| && keep[mid]
    requires Covered(f, pts, keep, lo, mid, eps) && Covered(f, pts, keep, mid, hi, eps)
    ensures Covered(f, pts, keep, lo, hi, eps)
  {
    forall l: nat, i: nat, r: nat | lo <= l < i < r <= hi && Adjacent(keep, l, r)
      ensures !Over(Away(f, pts, l, r, i), eps)
    {
      assert r <= mid || mid <= l;
    }
  }

  lemma {:induction false} SplitCovers(f: Frame, pts: seq<TrailPoint>, keep: seq<bool>, lo: nat, hi: nat, eps: real)
    requires lo <= hi < |pts| == |keep| && keep[lo] && keep[hi] && Split(f, pts, keep, lo, hi, eps)
    ensures Covered(f, pts, keep, lo, hi, eps)
    decreases hi - lo
  {
    hide FirstFarthest, Over, Away;
    if hi > lo + 1 && !NoneBetween(keep, lo, hi) {
      hide Covered;
      var m: nat :| lo < m < hi && SplitAt(f, pts, keep, lo, hi, eps, m);
      SplitCovers(f, pts, keep, lo, m, eps);
      SplitCovers(f, pts, keep, m, hi, eps);
      CoveredJoins(f, pts, keep, lo, m, hi, eps);
    } else {
      CoveredLeaf(f, pts, keep, lo, hi, eps);
    }
  }

  /** Between two neighbouring kept points: where a dropped point lies. */
  lemma {:induction false} KeptAround(keep: seq<bool>, lo: nat, k: nat, hi: nat) returns (l: nat, r: nat)
    requires lo < k < hi < |keep| && keep[lo] && keep[hi] && !keep[k]
    ensures lo <= l < k < r <= hi && Adjacent(keep, l, r)
  {
    l, r := k - 1, k + 1;
    while !keep[l]
      invariant lo <= l < k && forall i :: l < i <= k ==> !keep[i]
      decreases l
    {
      l := l - 1;
    }
    while !keep[r]
      invariant k < r <= hi && forall i :: k <= i < r ==> !keep[i]
      decreases hi - r
    {
      r := r + 1;
    }
  }

  /** In terms of distances: a dropped point is no farther than the tolerance from the segment
      that joins the kept points around it. */
  lemma DroppedIsNear(f: Frame, pts: seq<TrailPoint>, keep: seq<bool>, lo: nat, hi: nat, eps: real, k: nat)
    returns (l: nat, r: nat)
    requires lo <= hi < |pts| == |keep| && keep[lo] && keep[hi] && Split(f, pts, keep, lo, hi, eps)
    requires lo < k < hi && !keep[k]
    ensures lo <= l < k < r <= hi && keep[l] && keep[r] && forall i :: l < i < r ==> !keep[i]
    ensures forall d :: IsDistance(f, pts, l, r, k, d) ==> d <= eps
  {
    hide Over, Away, IsDistance, Split;
    SplitCovers(f, pts, keep, lo, hi, eps);
    l, r := KeptAround(keep, lo, k, hi);
    forall d | IsDistance(f, pts, l, r, k, d) ensures d <= eps { DistanceTells(f, pts, l, r, k, d, eps); }
  }

  lemma CoveredLeaf(f: Frame, pts: seq<TrailPoint>, keep: seq<bool>, lo: nat, hi: nat, eps: real)
    requires lo <= hi < |pts| == |keep| && NoneBetween(keep, lo, hi)
    requires forall k: nat :: lo < k < hi ==> !Over(Away(f, pts, lo, hi, k), eps)
    ensures Covered(f, pts, keep, lo, hi, eps)
  {
  }

  // ----- Tolerances below zero -----------------------------------------------------------------

  lemma NotOverZero(eps: real)
    requires eps >= 0.0
    ensures !Over(0.0, eps)
  {
    Square(eps);
  }

  /** With a tolerance of zero or more the recursion always ends. */
  lemma {:induction false} EndsForTolerance(f: Frame, pts: seq<TrailPoint>, lo: nat, hi: nat, eps: real)
    requires lo <= hi < |pts| && eps >= 0.0
    ensures Ends(f, pts, lo, hi, eps)
    decreases hi - lo
  {
    hide FirstFarthest, Over, Away, Flat;
    NotOverZero(eps);
    forall m: nat | lo < m < hi ensures Ends(f, pts, lo, m, eps) && Ends(f, pts, m, hi, eps) {
      EndsForTolerance(f, pts, lo, m, eps);
      EndsForTolerance(f, pts, m, hi, eps);
    }
  }

  /** With a negative tolerance it ends, if at all, with every point kept. */
  lemma {:induction false} NegativeKeepsAll(f: Frame, pts: seq<TrailPoint>, keep: seq<bool>, lo: nat, hi: nat,
                                            eps: real)
    requires lo <= hi < |pts| == |keep| && eps < 0.0 && Split(f, pts, keep, lo, hi, eps)
    ensures forall k :: lo < k < hi ==> keep[k]
    decreases hi - lo
  {
    hide FirstFarthest, Away;
    if hi > lo + 1 {
      assert Over(Away(f, pts, lo, hi, lo + 1), eps);
      assert !NoneBetween(keep, lo, hi);
      var m: nat :| lo < m < hi && SplitAt(f, pts, keep, lo, hi, eps, m);
      NegativeKeepsAll(f, pts, keep, lo, m, eps);
      NegativeKeepsAll(f, pts, keep, m, hi, eps);
    }
  }

  // ----- The recursion ------------------------------------------------------------------------

  /** The range is split at `m`. */
  lemma EndsBySplit(f: Frame, pts: seq<TrailPoint>, lo: nat, hi: nat, eps: real, m: nat)
    requires lo + 1 < hi < |pts| && FirstFarthest(f, pts, lo, hi, m) && Over(Away(f, pts, lo, hi, m), eps)
    ensures Ends(f, pts, lo, hi, eps) <==> Ends(f, pts, lo, m, eps) && Ends(f, pts, m, hi, eps)
  {
    assert !Flat(f, pts, lo, hi);
    forall n: nat | FirstFarthest(f, pts, lo, hi, n) ensures n == m { FarthestIsUnique(f, pts, lo, hi, m, n); }
  }

  /** Nothing is over the tolerance: the range is done. */
  lemma EndsWithin(f: Frame, pts: seq<TrailPoint>, lo: nat, hi: nat, eps: real, m: nat)
    requires lo + 1 < hi < |pts|
    requires
      || (Flat(f, pts, lo, hi) && !Over(0.0, eps))
      || (FirstFarthest(f, pts, lo, hi, m) && !Over(Away(f, pts, lo, hi, m), eps))
    ensures Ends(f, pts, lo, hi, eps) && forall k: nat :: lo < k < hi ==> !Over(Away(f, pts, lo, hi, k), eps)
  {
    hide Away;
    if FirstFarthest(f, pts, lo, hi, m) {
      assert !Flat(f, pts, lo, hi);
      forall n: nat | FirstFarthest(f, pts, lo, hi, n) ensures n == m { FarthestIsUnique(f, pts, lo, hi, m, n); }
    }
  }

  lemma EndlessOnSegment(f: Frame, pts: seq<TrailPoint>, lo: nat, hi: nat, eps: real)
    requires lo + 1 < hi < |pts| && Flat(f, pts, lo, hi) && Over(0.0, eps)
    ensures !Ends(f, pts, lo, hi, eps)
  {
  }

  // ----- When a negative tolerance ends ---------------------------------------------------------

  /** Between the ends of a range that is not flat there is a first farthest point. */
  lemma {:induction false} SomeFarthest(f: Frame, pts: seq<TrailPoint>, lo: nat, hi: nat) returns (m: nat)
    requires lo < hi < |pts| && !Flat(f, pts, lo, hi)
    ensures FirstFarthest(f, pts, lo, hi, m)
  {
    hide CrossTrack2;
    m := lo;
    for i := lo + 1 to hi
      invariant lo <= m < i
      invariant m == lo ==> forall k: nat :: lo < k < i ==> Away(f, pts, lo, hi, k) <= 0.0
      invariant m > lo ==> Away(f, pts, lo, hi, m) > 0.0
      invariant m > lo ==> forall k: nat :: lo < k < i ==>
          Away(f, pts, lo, hi, k) <= Away(f, pts, lo, hi, m)
             && (k < m ==> Away(f, pts, lo, hi, k) < Away(f, pts, lo, hi, m))
    {
      if Away(f, pts, lo, hi, i) > if m == lo then 0.0 else Away(f, pts, lo, hi, m) { m := i; }
    }
  }

  ghost predicate AllBetween(keep: seq<bool>, lo: nat, hi: nat)
    requires hi < |keep|
  {
    forall k: nat :: lo < k < hi ==> keep[k]
  }

  lemma SplitPointOf(f: Frame, pts: seq<TrailPoint>, keep: seq<bool>, lo: nat, hi: nat, eps: real) returns (m: nat)
    requires lo + 1 < hi < |pts| == |keep| && !NoneBetween(keep, lo, hi) && Split(f, pts, keep, lo, hi, eps)
    ensures lo < m < hi && SplitAt(f, pts, keep, lo, hi, eps, m)
  {
    hide FirstFarthest, Over, Away, NoneBetween;
    m :| lo < m < hi && SplitAt(f, pts, keep, lo, hi, eps, m);
  }

  lemma SplitFromPoint(f: Frame, pts: seq<TrailPoint>, keep: seq<bool>, lo: nat, hi: nat, eps: real, m: nat)
    requires lo < m < hi < |pts| == |keep| && !NoneBetween(keep, lo, hi) && SplitAt(f, pts, keep, lo, hi, eps, m)
    ensures Split(f, pts, keep, lo, hi, eps)
  {
    hide FirstFarthest, Over, Away, NoneBetween, SplitAt;
  }

  /** With every point kept, a range splits at tolerance zero at its first farthest point. */
  lemma SplitByFarthest(f: Frame, pts: seq<TrailPoint>, keep: seq<bool>, lo: nat, hi: nat, m: nat)
    requires lo + 1 < hi < |pts| == |keep| && AllBetween(keep, lo, hi) && FirstFarthest(f, pts, lo, hi, m)
    ensures Split(f, pts, keep, lo, hi, 0.0) <==> Split(f, pts, keep, lo, m, 0.0) && Split(f, pts, keep, m, hi, 0.0)
  {
    OverZero(Away(f, pts, lo, hi, m));
    assert keep[m] && !NoneBetween(keep, lo, hi);
    hide Split, NoneBetween, AllBetween, Over;
    if Split(f, pts, keep, lo, hi, 0.0) {
      var n := SplitPointOf(f, pts, keep, lo, hi, 0.0);
      FarthestIsUnique(f, pts, lo, hi, m, n);
    }
    if Split(f, pts, keep, lo, m, 0.0) && Split(f, pts, keep, m, hi, 0.0) {
      SplitFromPoint(f, pts, keep, lo, hi, 0.0, m);
    }
  }

  lemma FlatIsNotSplit(f: Frame, pts: seq<TrailPoint>, keep: seq<bool>, lo: nat, hi: nat)
    requires lo + 1 < hi < |pts| == |keep| && AllBetween(keep, lo, hi) && Flat(f, pts, lo, hi)
    ensures !Split(f, pts, keep, lo, hi, 0.0)
  {
    hide Away, Over;
    assert keep[lo + 1] && !NoneBetween(keep, lo, hi);
  }

  /** With a negative tolerance the recursion ends exactly when tolerance zero keeps every point. */
  lemma {:induction false} NegativeEndsIffAllSplit(f: Frame, pts: seq<TrailPoint>, keep: seq<bool>, lo: nat, hi: nat,
                                                   eps: real)
    requires lo <= hi < |pts| == |keep| && eps < 0.0 && AllBetween(keep, lo, hi)
    ensures Ends(f, pts, lo, hi, eps) <==> Split(f, pts, keep, lo, hi, 0.0)
    decreases hi - lo
  {
    if hi <= lo + 1 { return; }
    NegativeIsOver(eps);
    if Flat(f, pts, lo, hi) {
      EndlessOnSegment(f, pts, lo, hi, eps);
      FlatIsNotSplit(f, pts, keep, lo, hi);
    } else {
      var m := SomeFarthest(f, pts, lo, hi);
      FarthestIsInside(f, pts, lo, hi, m);
      EndsBySplit(f, pts, lo, hi, eps, m);
      SplitByFarthest(f, pts, keep, lo, hi, m);
      hide Ends, Split, FirstFarthest, Flat;
      NegativeEndsIffAllSplit(f, pts, keep, lo, m, eps);
      NegativeEndsIffAllSplit(f, pts, keep, m, hi, eps);
    }
  }

  lemma NegativeIsOver(eps: real)
    requires eps < 0.0
    ensures forall d2 :: Over(d2, eps)
  {
  }

  lemma OverZero(d2: real)
    ensures Over(d2, 0.0) <==> d2 > 0.0
  {
  }

  /** The recursion ends exactly when the tolerance is not negative or the simplification with
      tolerance zero, whose marks are `keep`, drops nothing. */
  lemma EndsIff(f: Frame, pts: seq<TrailPoint>, keep: seq<bool>, lo: nat, hi: nat, eps: real)
    requires lo <= hi < |pts| == |keep| && Split(f, pts, keep, lo, hi, 0.0)
    ensures Ends(f, pts, lo, hi, eps) <==> eps >= 0.0 || AllBetween(keep, lo, hi)
  {
    if eps >= 0.0 {
      EndsForTolerance(f, pts, lo, hi, eps);
    } else {
      var all := seq(|pts|, _ => true);
      NegativeEndsIffAllSplit(f, pts, all, lo, hi, eps);
      if Ends(f, pts, lo, hi, eps) { SplitIsUnique(f, pts, all, keep, lo, hi, 0.0); }
      if AllBetween(keep, lo, hi) { SplitStays(f, pts, keep, all, lo, hi, 0.0); }
    }
  }

  /** The recursion over the shared keep marks.  It reports false where the original would
      call itself with the same range for ever; otherwise it leaves the marks of the split. */
  method DouglasPeucker(f: Frame, pts: seq<TrailPoint>, start: nat, end: nat, eps: real, keep: array<bool>)
    returns (ends: bool)
    requires start <= end < |pts| == keep.Length && NoneBetween(keep[..], start, end)
    modifies keep
    ensures forall k :: 0 <= k < keep.Length && !(start < k < end) ==> keep[k] == old(keep[k])
    ensures ends <==> Ends(f, pts, start, end, eps)
    ensures ends ==> Split(f, pts, keep[..], start, end, eps)
    decreases end - start
  {
    hide Over, Away, Flat, FirstFarthest, Ends;
    EndsAtOnce(f, pts, start, end, eps);
    if end <= start + 1 { return true; }
    var maxDist2, maxIdx := Farthest(f, pts, start, end);
    if Over(maxDist2, eps) {
      if maxIdx == start {
        FarthestIsInside(f, pts, start, end, maxIdx);
        EndlessOnSegment(f, pts, start, end, eps);
        return false;
      }
      FarthestIsInside(f, pts, start, end, maxIdx);
      EndsBySplit(f, pts, start, end, eps, maxIdx);
      ends := Halves(f, pts, start, end, maxIdx, eps, keep);
      if ends { assert SplitAt(f, pts, keep[..], start, end, eps, maxIdx); }
    } else {
      EndsWithin(f, pts, start, end, eps, maxIdx);
      ends := true;
    }
  }

  lemma EndsAtOnce(f: Frame, pts: seq<TrailPoint>, lo: nat, hi: nat, eps: real)
    requires lo <= hi < |pts|
    ensures hi <= lo + 1 ==> Ends(f, pts, lo, hi, eps)
  {
  }

  lemma FarthestIsInside(f: Frame, pts: seq<TrailPoint>, lo: nat, hi: nat, m: nat)
    requires lo < hi < |pts|
    ensures FirstFarthest(f, pts, lo, hi, m) ==> lo < m < hi
  {
  }

  /** Mark the split point and go on with both halves. */
  method Halves(f: Frame, pts: seq<TrailPoint>, start: nat, end: nat, mid: nat, eps: real, keep: array<bool>)
    returns (ends: bool)
    requires start < mid < end < |pts| == keep.Length && NoneBetween(keep[..], start, end)
    modifies keep
    ensures forall k :: 0 <= k < keep.Length && !(start < k < end) ==> keep[k] == old(keep[k])
    ensures ends <==> Ends(f, pts, start, mid, eps) && Ends(f, pts, mid, end, eps)
    ensures ends ==> keep[mid] && Split(f, pts, keep[..], start, mid, eps) && Split(f, pts, keep[..], mid, end, eps)
    decreases end - start, 0
  {
    hide Ends, Split;
    keep[mid] := true;
    ends := DouglasPeucker(f, pts, start, mid, eps, keep);
    if !ends { return; }
    ghost var left := keep[..];
    ends := DouglasPeucker(f, pts, mid, end, eps, keep);
    if ends { SplitStays(f, pts, left, keep[..], start, mid, eps); }
  }

  // ----- Collecting and thinning out the kept points --------------------------------------------------

  /** The kept points, in order. */
  function Kept(pts: seq<TrailPoint>, keep: seq<bool>): seq<TrailPoint>
    requires |pts| == |keep|
  {
    if pts == [] then []
    else Kept(pts[..|pts| - 1], keep[..|pts| - 1]) + if keep[|pts| - 1] then [pts[|pts| - 1]] else []
  }

  /** `out` picks elements of `s` at increasing indices. */
  ghost predicate PicksFrom(out: seq<TrailPoint>, s: seq<TrailPoint>, at: seq<nat>) {
    && |at| == |out| && (forall k :: 0 <= k < |out| ==> at[k] < |s| && out[k] == s[at[k]])
    && (forall j, k :: 0 <= j < k < |at| ==> at[j] < at[k])
  }

  ghost predicate Subsequence(out: seq<TrailPoint>, s: seq<TrailPoint>) { exists at :: PicksFrom(out, s, at) }

  lemma SubsequenceOfSubsequence(a: seq<TrailPoint>, b: seq<TrailPoint>, c: seq<TrailPoint>)
    requires Subsequence(a, b) && Subsequence(b, c)
    ensures Subsequence(a, c)
  {
    var i :| PicksFrom(a, b, i);
    var j :| PicksFrom(b, c, j);
    assert PicksFrom(a, c, seq(|a|, k requires 0 <= k < |a| => j[i[k]]));
  }

  /** The kept points are those at the marked indices, in order. */
  lemma {:induction false} KeptAreTheMarked(pts: seq<TrailPoint>, keep: seq<bool>) returns (at: seq<nat>)
    requires |pts| == |keep|
    ensures PicksFrom(Kept(pts, keep), pts, at)
    ensures forall k: nat :: k in at <==> k < |keep| && keep[k]
  {
    at := [];
    if pts != [] {
      var n := |pts| - 1;
      at := KeptAreTheMarked(pts[..n], keep[..n]);
      if keep[n] { at := at + [n]; }
    }
  }

  lemma KeptIsSubsequence(pts: seq<TrailPoint>, keep: seq<bool>)
    requires |pts| == |keep|
    ensures Subsequence(Kept(pts, keep), pts)
  {
    var at := KeptAreTheMarked(pts, keep);
  }

  lemma {:induction false} KeptHasEnds(pts: seq<TrailPoint>, keep: seq<bool>)
    requires |pts| == |keep| > 0 && keep[0]
    ensures Kept(pts, keep) != [] && Kept(pts, keep)[0] == pts[0]
    ensures keep[|pts| - 1] ==> Kept(pts, keep)[|Kept(pts, keep)| - 1] == pts[|pts| - 1]
  {
    if |pts| > 1 { KeptHasEnds(pts[..|pts| - 1], keep[..|pts| - 1]); }
  }

  /** Every `stride`-th element from index `from` on. */
  function Strided(s: seq<TrailPoint>, stride: nat, from: nat): seq<TrailPoint>
    requires stride > 0
    decreases |s| - from
  {
    if from >= |s| then [] else [s[from]] + Strided(s, stride, from + stride)
  }

  lemma Next(k: nat, stride: nat)
    ensures k * stride + stride == (k + 1) * stride
  {
  }

  lemma {:induction false} StridedAt(s: seq<TrailPoint>, stride: nat, from: nat, k: nat)
    requires stride > 0 && k < |Strided(s, stride, from)|
    ensures from + k * stride < |s| && Strided(s, stride, from)[k] == s[from + k * stride]
    decreases k
  {
    if k > 0 {
      StridedAt(s, stride, from + stride, k - 1);
      Next(k - 1, stride);
    }
  }

  lemma {:induction false} StridedEnds(s: seq<TrailPoint>, stride: nat, from: nat)
    requires stride > 0
    ensures from + |Strided(s, stride, from)| * stride >= |s|
    decreases |s| - from
  {
    if from < |s| {
      StridedEnds(s, stride, from + stride);
      Next(|Strided(s, stride, from + stride)|, stride);
    }
  }

  /** The stride subsample, with the newest point put back at the end if it was skipped. */
  function Subsample(s: seq<TrailPoint>, maxOut: nat): seq<TrailPoint>
    requires maxOut > 0 && s != []
  {
    var sub := Strided(s, |s| / maxOut + 1, 0);
    if sub == [] || sub[|sub| - 1].ts != s[|s| - 1].ts then sub + [s[|s| - 1]] else sub
  }

  lemma Monotone(a: int, b: int, c: nat)
    requires a <= b
    ensures a * c <= b * c
  {
  }

  lemma StrideCovers(n: nat, m: nat)
    requires m > 0
    ensures n < m * (n / m + 1)
  {
    var q := n / m;
    assert n == m * q + n % m;
    assert m * (q + 1) == m * q + m;
  }

  lemma StrideCount(n: nat, m: nat, stride: nat, count: nat)
    requires n > 0 && stride > 0 && n < m * stride
    requires count > 0 && (count - 1) * stride < n <= count * stride
    ensures count <= m && count == (n - 1) / stride + 1
  {
    if count > m { Monotone(m, count - 1, stride); }
    var q := (n - 1) / stride;
    assert q * stride <= n - 1 < (q + 1) * stride;
    if q < count - 1 { Monotone(q + 1, count - 1, stride); }
    if q > count - 1 { Monotone(count, q, stride); }
  }

  /** The sampled points, without the one put back. */
  lemma StridedCount(s: seq<TrailPoint>, maxOut: nat)
    requires maxOut > 0 && s != []
    ensures var stride := |s| / maxOut + 1; var sub := Strided(s, stride, 0);
      && |sub| == (|s| - 1) / stride + 1 <= maxOut
      && sub[0] == s[0] && (|sub| - 1) * stride < |s| && sub[|sub| - 1] == s[(|sub| - 1) * stride]
  {
    var stride := |s| / maxOut + 1;
    var sub := Strided(s, stride, 0);
    StridedAt(s, stride, 0, |sub| - 1);
    StridedEnds(s, stride, 0);
    StrideCovers(|s|, maxOut);
    StrideCount(|s|, maxOut, stride, |sub|);
  }

  lemma StridedIsSubsequence(s: seq<TrailPoint>, stride: nat)
    requires stride > 0
    ensures PicksFrom(Strided(s, stride, 0), s, Multiples(stride, |Strided(s, stride, 0)|))
  {
    var sub := Strided(s, stride, 0);
    forall k | 0 <= k < |sub| ensures k * stride < |s| && sub[k] == s[k * stride] { StridedAt(s, stride, 0, k); }
    forall j, k | 0 <= j < k < |sub| ensures j * stride < k * stride { Monotone(j + 1, k, stride); Next(j, stride); }
  }

  function Multiples(stride: nat, n: nat): seq<nat> { seq(n, k requires 0 <= k < n => k * stride) }

  /** The length is bounded by maxOut + 1, and goes over maxOut exactly when the stride walk
      uses up maxOut points and stops short of the newest timestamp. */
  lemma SubsampleLength(s: seq<TrailPoint>, maxOut: nat)
    requires maxOut > 0 && s != []
    ensures |Subsample(s, maxOut)| <= maxOut + 1
    ensures var stride := |s| / maxOut + 1; var last := (|s| - 1) / stride * stride;
      && last < |s|
      && (|Subsample(s, maxOut)| > maxOut <==> (|s| - 1) / stride == maxOut - 1 && s[last].ts != s[|s| - 1].ts)
  {
    StridedCount(s, maxOut);
  }

  /** It runs from the first point to the newest timestamp, to the newest point itself when
      timestamps are distinct, and picks points of the input in order. */
  lemma SubsampleEnds(s: seq<TrailPoint>, maxOut: nat)
    requires maxOut > 0 && s != []
    ensures Subsample(s, maxOut) != [] && Subsample(s, maxOut)[0] == s[0]
    ensures var r := Subsample(s, maxOut); r[|r| - 1].ts == s[|s| - 1].ts
    ensures Distinct(s) ==> var r := Subsample(s, maxOut); r[|r| - 1] == s[|s| - 1]
    ensures Subsequence(Subsample(s, maxOut), s)
  {
    var stride := |s| / maxOut + 1;
    var sub, r := Strided(s, stride, 0), Subsample(s, maxOut);
    StridedCount(s, maxOut);
    StridedIsSubsequence(s, stride);
    var at := Multiples(stride, |sub|);
    var last := (|sub| - 1) * stride;
    if r != sub {
      assert last < |s| - 1;
      assert PicksFrom(r, s, at + [|s| - 1]) by {
        forall k | 0 <= k < |sub| ensures at[k] < |s| - 1 { if k < |sub| - 1 { assert at[k] < at[|sub| - 1]; } }
      }
    } else {
      assert PicksFrom(r, s, at);
    }
  }

  ghost predicate Distinct(s: seq<TrailPoint>) { forall i, j :: 0 <= i < j < |s| ==> s[i].ts != s[j].ts }

  /** The documented bound is missed by one for five points and a limit of two. */
  lemma FivePointsLimitTwo(s: seq<TrailPoint>)
    requires |s| == 5 && s[3].ts != s[4].ts
    ensures |Subsample(s, 2)| == 3
  {
    StridedCount(s, 2);
  }

  method MarkKept(f: Frame, pts: seq<TrailPoint>, epsilon: real) returns (ends: bool, marks: array<bool>)
    requires |pts| > 1
    ensures fresh(marks) && marks.Length == |pts| && marks[0] && marks[|pts| - 1]
    ensures ends <==> Ends(f, pts, 0, |pts| - 1, epsilon)
    ensures ends ==> Split(f, pts, marks[..], 0, |pts| - 1, epsilon)
  {
    marks := new bool[|pts|](_ => false);
    marks[0] := true;
    marks[|pts| - 1] := true;
    ends := DouglasPeucker(f, pts, 0, |pts| - 1, epsilon, marks);
  }

  method Collect(pts: seq<TrailPoint>, marks: array<bool>) returns (result: seq<TrailPoint>)
    requires |pts| == marks.Length
    ensures result == Kept(pts, marks[..])
  {
    result := [];
    for i := 0 to |pts|
      invariant result == Kept(pts[..i], marks[..i])
    {
      assert pts[..i + 1][..i] == pts[..i] && marks[..i + 1][..i] == marks[..i];
      if marks[i] { result := result + [pts[i]]; }
    }
    assert pts[..|pts|] == pts && marks[..|pts|] == marks[..];
  }

  lemma StridedStep(sub: seq<TrailPoint>, s: seq<TrailPoint>, stride: nat, i: nat)
    requires stride > 0 && i < |s|
    ensures sub + [s[i]] + Strided(s, stride, i + stride) == sub + Strided(s, stride, i)
  {
  }

  lemma StridedEnd(sub: seq<TrailPoint>, s: seq<TrailPoint>, stride: nat, i: nat)
    requires stride > 0 && i >= |s|
    ensures sub + Strided(s, stride, i) == sub
  {
  }

  method Thin(s: seq<TrailPoint>, maxOut: nat) returns (sub: seq<TrailPoint>)
    requires maxOut > 0 && s != []
    ensures sub == Subsample(s, maxOut)
  {
    hide Strided;
    var stride := |s| / maxOut + 1;
    var i := 0;
    sub := [];
    while i < |s|
      invariant 0 <= i && sub + Strided(s, stride, i) == Strided(s, stride, 0)
      decreases |s| - i
    {
      StridedStep(sub, s, stride, i);
      sub := sub + [s[i]];
      i := i + stride;
    }
    StridedEnd(sub, s, stride, i);
    if sub == [] || sub[|sub| - 1].ts != s[|s| - 1].ts {
      sub := sub + [s[|s| - 1]];
    }
  }

  function Limited(s: seq<TrailPoint>, maxOut: nat): seq<TrailPoint>
    requires maxOut > 0 && s != []
  {
    if |s| > maxOut then Subsample(s, maxOut) else s
  }

  lemma LimitedIsFaithful(s: seq<TrailPoint>, maxOut: nat)
    requires maxOut > 0 && s != []
    ensures Faithful(Limited(s, maxOut), s, maxOut)
  {
    if |s| > maxOut {
      SubsampleLength(s, maxOut);
      SubsampleEnds(s, maxOut);
    } else {
      assert PicksFrom(s, s, Multiples(1, |s|));
    }
  }

  method Limit(s: seq<TrailPoint>, maxOut: nat) returns (r: seq<TrailPoint>)
    requires maxOut > 0 && s != []
    ensures r == Limited(s, maxOut)
  {
    if |s| > maxOut {
      r := Thin(s, maxOut);
    } else {
      r := s;
    }
  }

  /** `result` is what the split keeps, thinned out to the limit. */
  ghost predicate Simplification(f: Frame, pts: seq<TrailPoint>, keep: seq<bool>, eps: real, maxOut: nat,
                                 result: seq<TrailPoint>)
    requires maxOut > 0 && |pts| > 1
  {
    && |keep| == |pts| && keep[0] && keep[|pts| - 1]
    && Split(f, pts, keep, 0, |pts| - 1, eps)
    && Kept(pts, keep) != [] && result == Limited(Kept(pts, keep), maxOut)
  }

  /** Points of the trail in order, from its first to its newest timestamp, few enough. */
  ghost predicate Faithful(result: seq<TrailPoint>, pts: seq<TrailPoint>, maxOut: nat) {
    && Subsequence(result, pts) && |result| <= maxOut + 1
    && (pts != [] ==> result != [] && result[0] == pts[0] && result[|result| - 1].ts == pts[|pts| - 1].ts)
  }

  lemma ShortIsFaithful(pts: seq<TrailPoint>, maxOut: nat)
    requires |pts| <= 1
    ensures Faithful(pts, pts, maxOut)
  {
    assert PicksFrom(pts, pts, if pts == [] then [] else [0]);
  }

  /** A copy of the trail, or the two ways in which the original never returns one. */
  datatype Outcome = Done(points: seq<TrailPoint>) | Endless | DividesByZero

  /** `Simplify` for two points or more. */
  method SimplifyLong(f: Frame, pts: seq<TrailPoint>, epsilon: real, maxOut: nat)
    returns (o: Outcome, ghost keep: seq<bool>)
    requires |pts| > 1
    ensures o.Endless? <==> !Ends(f, pts, 0, |pts| - 1, epsilon)
    ensures o.DividesByZero? <==> Ends(f, pts, 0, |pts| - 1, epsilon) && maxOut == 0
    ensures o.Done? ==> Simplification(f, pts, keep, epsilon, maxOut, o.points) && Faithful(o.points, pts, maxOut)
  {
    hide Ends, Split, Faithful;
    var ends, marks := MarkKept(f, pts, epsilon);
    keep := marks[..];
    if !ends { return Endless, keep; }
    var kept := Collect(pts, marks);
    KeptHasEnds(pts, keep);
    if maxOut == 0 { return DividesByZero, keep; }
    var result := Limit(kept, maxOut);
    LimitIsFaithful(pts, keep, maxOut);
    o := Done(result);
  }

  // ----- The documented limit -------------------------------------------------------------------------

  /** The result of `Simplify` goes over the limit exactly when more points are kept and the
      stride walk over them uses up the limit before the newest timestamp. */
  lemma OverrunIff(f: Frame, pts: seq<TrailPoint>, keep: seq<bool>, eps: real, maxOut: nat, result: seq<TrailPoint>)
    requires maxOut > 0 && |pts| > 1 && Simplification(f, pts, keep, eps, maxOut, result)
    ensures var kept := Kept(pts, keep); var stride := |kept| / maxOut + 1; var last := (|kept| - 1) / stride * stride;
      && last < |kept|
      && (|result| > maxOut <==>
           |kept| > maxOut && (|kept| - 1) / stride == maxOut - 1 && kept[last].ts != kept[|kept| - 1].ts)
  {
    SubsampleLength(Kept(pts, keep), maxOut);
  }

  /** When no point is within the tolerance of a segment between two others, all are kept. */
  lemma NothingDropped(f: Frame, pts: seq<TrailPoint>, keep: seq<bool>, eps: real)
    requires |pts| == |keep| > 1 && keep[0] && keep[|pts| - 1] && Split(f, pts, keep, 0, |pts| - 1, eps)
    requires forall l: nat, k: nat, r: nat :: l < k < r < |pts| ==> Over(Away(f, pts, l, r, k), eps)
    ensures forall k :: 0 <= k < |pts| ==> keep[k]
  {
    hide Split, Over, Away;
    SplitCovers(f, pts, keep, 0, |pts| - 1, eps);
    forall k: nat | k < |pts| ensures keep[k] {
      if !keep[k] { var l, r := DroppedIsWithin(f, pts, keep, eps, k); }
    }
  }

  lemma DroppedIsWithin(f: Frame, pts: seq<TrailPoint>, keep: seq<bool>, eps: real, k: nat) returns (l: nat, r: nat)
    requires |pts| == |keep| > 1 && keep[0] && keep[|pts| - 1] && Covered(f, pts, keep, 0, |pts| - 1, eps)
    requires k < |pts| && !keep[k]
    ensures l < k < r < |pts| && !Over(Away(f, pts, l, r, k), eps)
  {
    l, r := KeptAround(keep, 0, k, |pts| - 1);
  }

  lemma {:induction false} AllKept(pts: seq<TrailPoint>, keep: seq<bool>)
    requires |pts| == |keep| && forall k :: 0 <= k < |pts| ==> keep[k]
    ensures Kept(pts, keep) == pts
  {
    if pts != [] {
      var n := |pts| - 1;
      AllKept(pts[..n], keep[..n]);
      assert pts == pts[..n] + [pts[n]];
    }
  }

  /** A climb along a meridian whose altitude grows with the square of the way. */
  function Climb(n: nat): (r: seq<TrailPoint>)
    ensures |r| == n && forall i :: 0 <= i < n ==> r[i] == TrailPoint(i, i as real, 0.0, (i * i) as real)
  {
    seq(n, i requires 0 <= i < n => TrailPoint(i, i as real, 0.0, (i * i) as real))
  }

  lemma TimesNegative(a: real, b: real)
    requires a < 0.0 && b < 0.0
    ensures Times(a, b) > 0.0
  {
  }

  lemma SquareSign(a: real)
    ensures Sq(a) >= 0.0 && (a != 0.0 ==> Sq(a) > 0.0)
  {
    if a > 0.0 { TimesPositive(a, a); } else if a < 0.0 { TimesNegative(a, a); }
  }

  lemma NormIsSquares(v: Vec)
    ensures Norm2(v) == Sq(v.x) + Sq(v.y) + Sq(v.z)
  {
  }

  lemma ZeroVector(v: Vec)
    ensures Norm2(v) >= 0.0 && (v.y != 0.0 || v.z != 0.0 ==> Norm2(v) > 0.0)
  {
    hide Sq, Norm2;
    NormIsSquares(v);
    SquareSign(v.x);
    SquareSign(v.y);
    SquareSign(v.z);
  }

  lemma Positive(a: real, b: real)
    requires a > 0.0 && b > 0.0
    ensures a * b > 0.0
  {
  }

  lemma ZeroFactor(n: real, x: real)
    requires n > 0.0 && n * x == 0.0
    ensures x == 0.0
  {
  }

  lemma SameShare(n: real, a: real, b: real, t: real)
    requires n > 0.0 && n * a - t * (n * b) == 0.0
    ensures a == t * b
  {
    assert n * (a - t * b) == n * a - t * (n * b) by {
      assert n * (t * b) == t * (n * b);
    }
    ZeroFactor(n, a - t * b);
  }

  lemma DifferentShares(a: real, b: real, x: real, y: real, t: real)
    requires a > 0.0 && a == t * b && x < y
    ensures a * x != t * (b * y)
  {
    Grouped(t, b, y);
    Positive(a, y - x);
    Apart(a, x, y);
  }

  lemma Grouped(t: real, b: real, y: real)
    ensures t * (b * y) == (t * b) * y
  {
  }

  lemma Apart(a: real, x: real, y: real)
    ensures a * (y - x) == a * y - a * x
  {
  }

  lemma RealSquare(i: int)
    ensures (i * i) as real == i as real * i as real
  {
  }

  lemma SquaresApart(i: int, j: int)
    ensures (j * j) as real - (i * i) as real == (j as real - i as real) * (j as real + i as real)
  {
    var x, y := i as real, j as real;
    RealSquare(i);
    RealSquare(j);
    assert (y - x) * (y + x) == y * y - x * x;
  }

  lemma ClimbVector(f: Frame, n: nat, l: nat, r: nat)
    requires l < n && r < n
    ensures ToENU(f, Climb(n)[l], Climb(n)[r]).y == f.north * (r as real - l as real)
    ensures ToENU(f, Climb(n)[l], Climb(n)[r]).z == (r * r) as real - (l * l) as real
  {
  }

  lemma ClimbApart(f: Frame, n: nat, l: nat, k: nat, r: nat)
    requires f.north > 0.0 && l < k < r < n
    ensures Over(Away(f, Climb(n), l, r, k), 0.0)
  {
    hide CrossTrack2, Foot, Dist2At, Over, ToENU, Climb;
    var pts := Climb(n);
    var b, p := ToENU(f, pts[l], pts[r]), ToENU(f, pts[l], pts[k]);
    ClimbVector(f, n, l, r);
    ClimbVector(f, n, l, k);
    CrossTrackIsDistance(f, pts[l], pts[r], pts[k]);
    OnTheFoot(f, l, k, r, b, p, Foot(b, p));
    OverZero(Away(f, pts, l, r, k));
  }

  /** At distance zero the point would be the foot itself, which the parabola rules out. */
  lemma OnTheFoot(f: Frame, l: nat, k: nat, r: nat, b: Vec, p: Vec, t: real)
    requires f.north > 0.0 && l < k < r
    requires b.y == f.north * (r as real - l as real) && b.z == (r * r) as real - (l * l) as real
    requires p.y == f.north * (k as real - l as real) && p.z == (k * k) as real - (l * l) as real
    ensures Dist2At(b, p, t) > 0.0
  {
    var v := Sub(p, Scale(t, b));
    ZeroVector(v);
    if Dist2At(b, p, t) == 0.0 {
      SameShare(f.north, k as real - l as real, r as real - l as real, t);
      SquaresApart(l, k);
      SquaresApart(l, r);
      DifferentShares(k as real - l as real, r as real - l as real, k as real + l as real, r as real + l as real, t);
    }
  }

  /** The documented limit is missed for a real trail: five points of a climb, a tolerance of
      zero and a limit of two give three points. */
  lemma FivePointTrailOverruns(f: Frame, keep: seq<bool>, result: seq<TrailPoint>)
    requires f.north > 0.0 && Simplification(f, Climb(5), keep, 0.0, 2, result)
    ensures Ends(f, Climb(5), 0, 4, 0.0) && Kept(Climb(5), keep) == Climb(5) && |result| == 3
  {
    var pts := Climb(5);
    EndsForTolerance(f, pts, 0, 4, 0.0);
    forall l: nat, k: nat, r: nat | l < k < r < |pts| ensures Over(Away(f, pts, l, r, k), 0.0) {
      ClimbApart(f, 5, l, k, r);
    }
    NothingDropped(f, pts, keep, 0.0);
    AllKept(pts, keep);
    FivePointsLimitTwo(pts);
  }

  lemma LimitIsFaithful(pts: seq<TrailPoint>, keep: seq<bool>, maxOut: nat)
    requires |pts| == |keep| > 0 && keep[0] && keep[|pts| - 1] && maxOut > 0
    ensures Kept(pts, keep) != [] && Faithful(Limited(Kept(pts, keep), maxOut), pts, maxOut)
  {
    var kept := Kept(pts, keep);
    KeptIsSubsequence(pts, keep);
    KeptHasEnds(pts, keep);
    LimitedIsFaithful(kept, maxOut);
    SubsequenceOfSubsequence(Limited(kept, maxOut), kept, pts);
  }

  // ----- The trail buffer ------------------------------------------------------------------------------

  const MAX_POINTS := 65536

  /** The bounded buffer; `history` records every point since the last Clear. */
  class Trail {
    var pts: seq<TrailPoint>
    ghost var history: seq<TrailPoint>

    /** The buffer is a suffix of the history that never fills up and, once it has, never
        falls below half its size. */
    ghost predicate Valid()
      reads this
    {
      && |pts| < MAX_POINTS && |pts| <= |history|
      && pts == history[|history| - |pts|..]
      && (|pts| == |history| || |pts| >= MAX_POINTS / 2)
    }

    constructor ()
      ensures Valid() && history == []
    {
      pts, history := [], [];
    }

    method Append(p: TrailPoint)
      requires Valid()
      modifies this
      ensures Valid() && history == old(history) + [p]
      ensures pts == if |old(pts)| + 1 < MAX_POINTS then old(pts) + [p] else (old(pts) + [p])[MAX_POINTS / 2..]
    {
      pts := pts + [p];
      history := history + [p];
      assert pts == history[|history| - |pts|..];
      if |pts| >= MAX_POINTS {
        var half := MAX_POINTS / 2;
        assert pts[half..] == history[|history| - |pts| + half..];
        pts := pts[half..];
      }
    }

    method Clear()
      modifies this
      ensures Valid() && history == [] && pts == []
    {
      pts, history := [], [];
    }

    method Size() returns (n: nat)
      requires Valid()
      ensures n < 65536 && (n == |history| || (32768 <= n < |history|))
    {
      n := |pts|;
    }

    /** The simplified copy, with the keep marks it came from. */
    method Simplify(f: Frame, epsilon: real, maxOut: nat) returns (o: Outcome, ghost keep: seq<bool>)
      ensures |pts| <= 1 ==> o == Done(pts)
      ensures |pts| > 1 ==> (o.Endless? <==> !Ends(f, pts, 0, |pts| - 1, epsilon))
      ensures |pts| > 1 ==> (o.DividesByZero? <==> Ends(f, pts, 0, |pts| - 1, epsilon) && maxOut == 0)
      ensures |pts| > 1 && o.Done? ==> Simplification(f, pts, keep, epsilon, maxOut, o.points)
      ensures o.Done? ==> Faithful(o.points, pts, maxOut)
    {
      hide Ends, Split, Faithful, Simplification;
      if |pts| <= 1 {
        keep := [];
        o := Done(pts);
        ShortIsFaithful(pts, maxOut);
      } else {
        o, keep := SimplifyLong(f, pts, epsilon, maxOut);
      }
    }
  }
}

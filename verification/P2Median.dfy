/**
 The P-square running median of kv8scope: five markers with heights, integer
 positions and desired positions, nudged towards the quartiles by every sample.

 Heights are reals.  Desired positions are exact multiples of 1/4, so the model
 stores four times their value (`ndes4`) as an integer.
 */
module P2Median {
  const M := 5

  /** Sample count, marker positions and four times the desired positions. */
  datatype Places = Places(n: nat, pos: seq<int>, ndes4: seq<int>) {
    /** Positions strictly increase, so no interpolation denominator is zero. */
    ghost predicate Spread() {
      && |pos| == |ndes4| == M
      && pos[0] < pos[1] < pos[2] < pos[3] < pos[4]
    }
  }

  /** The whole state of the estimator: marker heights and their places. */
  datatype Markers = Markers(q: seq<real>, at: Places) {
    ghost predicate Shaped() { |q| == M && at.Spread() }
  }

  const INITIAL := Markers([0.0, 0.0, 0.0, 0.0, 0.0], Places(0, [1, 2, 3, 4, 5], [4, 8, 12, 16, 20]))

  // ----- Insertion sort ------------------------------------------------------

  /** Insert `v` from the right, stopping at the first element that is not larger. */
  function Insert(s: seq<real>, v: real): (r: seq<real>)
    ensures |r| == |s| + 1
  {
    if s == [] || s[|s| - 1] <= v then s + [v] else Insert(s[..|s| - 1], v) + [s[|s| - 1]]
  }

  function Sort(s: seq<real>): (r: seq<real>)
    ensures |r| == |s|
  {
    if s == [] then [] else Insert(Sort(s[..|s| - 1]), s[|s| - 1])
  }

  ghost predicate Ordered(s: seq<real>) { forall i, j :: 0 <= i < j < |s| ==> s[i] <= s[j] }

  lemma {:induction false} InsertPermutes(s: seq<real>, v: real)
    ensures multiset(Insert(s, v)) == multiset(s) + multiset{v}
  {
    if s == [] || s[|s| - 1] <= v {
    } else {
      InsertPermutes(s[..|s| - 1], v);
      assert s == s[..|s| - 1] + [s[|s| - 1]];
    }
  }

  lemma InsertAdds(s: seq<real>, v: real, x: real)
    requires x in Insert(s, v)
    ensures x in s || x == v
  {
    hide Insert;
    InsertPermutes(s, v);
    assert x in multiset(Insert(s, v));
  }

  lemma OrderedMore(r: seq<real>, last: real)
    requires Ordered(r) && forall i :: 0 <= i < |r| ==> r[i] <= last
    ensures Ordered(r + [last])
  {
  }

  lemma {:induction false} InsertOrders(s: seq<real>, v: real)
    requires Ordered(s)
    ensures Ordered(Insert(s, v))
  {
    if s == [] || s[|s| - 1] <= v {
    } else {
      var front, last := s[..|s| - 1], s[|s| - 1];
      var r := Insert(front, v);
      InsertOrders(front, v);
      forall i | 0 <= i < |r| ensures r[i] <= last { InsertAdds(front, v, r[i]); }
      OrderedMore(r, last);
    }
  }

  lemma InsertKeeps(s: seq<real>, v: real)
    requires Ordered(s)
    ensures Ordered(Insert(s, v)) && multiset(Insert(s, v)) == multiset(s) + multiset{v}
  {
    InsertOrders(s, v);
    InsertPermutes(s, v);
  }

  lemma {:induction false} SortIsSorted(s: seq<real>)
    ensures Ordered(Sort(s)) && multiset(Sort(s)) == multiset(s)
  {
    if s != [] {
      SortIsSorted(s[..|s| - 1]);
      InsertKeeps(Sort(s[..|s| - 1]), s[|s| - 1]);
      assert s == s[..|s| - 1] + [s[|s| - 1]];
    }
  }

  lemma {:induction false} InsertAt(s: seq<real>, v: real, j: nat)
    requires j <= |s| && (forall k :: j <= k < |s| ==> s[k] > v) && (j == 0 || s[j - 1] <= v)
    ensures Insert(s, v) == s[..j] + [v] + s[j..]
  {
    if j < |s| {
      var n := |s| - 1;
      var t := s[..n];
      InsertAt(t, v, j);
      assert Insert(s, v) == Insert(t, v) + [s[n]];
      hide Insert;
      GapInFront(s, v, j);
    }
  }

  lemma GapInFront(s: seq<real>, v: real, j: nat)
    requires j < |s|
    ensures var n := |s| - 1; s[..n][..j] + [v] + s[..n][j..] + [s[n]] == s[..j] + [v] + s[j..]
  {
  }

  lemma GapFilled(t: seq<real>, s: seq<real>, j: nat, v: real)
    requires |t| == |s| + 1 && j <= |s| && t[j] == v
    requires forall k :: 0 <= k < j ==> t[k] == s[k]
    requires forall k :: j < k < |t| ==> t[k] == s[k - 1]
    ensures t == s[..j] + [v] + s[j..]
  {
  }

  /** The inner loop: move `a[i]` down to its place among the sorted `a[..i]`. */
  method InsertDown(a: array<real>, i: nat)
    requires i < a.Length
    modifies a
    ensures a[..i + 1] == Insert(old(a[..i]), old(a[i]))
    ensures forall k :: i < k < a.Length ==> a[k] == old(a[k])
  {
    hide Insert;
    ghost var pre := a[..i];
    var v, j := a[i], i - 1;
    while j >= 0 && a[j] > v
      invariant -1 <= j < i
      invariant forall k :: 0 <= k <= j ==> a[k] == pre[k]
      invariant forall k :: j < k < i ==> pre[k] > v
      invariant forall k :: j + 1 < k <= i ==> a[k] == pre[k - 1]
      invariant forall k :: i < k < a.Length ==> a[k] == old(a[k])
    {
      a[j + 1] := a[j];
      j := j - 1;
    }
    a[j + 1] := v;
    GapFilled(a[..i + 1], pre, j + 1, v);
    InsertAt(pre, v, j + 1);
  }

  /** The in-place insertion sort that `Feed` and `Get` share. */
  method InsertionSort(a: array<real>, len: nat)
    requires len <= a.Length
    modifies a
    ensures a[..len] == Sort(old(a[..len]))
    ensures forall k :: len <= k < a.Length ==> a[k] == old(a[k])
  {
    if len == 0 { return; }
    ghost var was := a[..];
    assert was[..1] == [was[0]] && Sort(was[..1]) == was[..1];
    var i := 1;
    while i < len
      invariant 1 <= i <= len
      invariant a[..i] == Sort(was[..i])
      invariant forall k :: i <= k < a.Length ==> a[k] == was[k]
    {
      InsertDown(a, i);
      assert was[..i + 1][..i] == was[..i];
      i := i + 1;
    }
    assert was[..len] == old(a[..len]);
  }

  // ----- One sample: the places ------------------------------------------------

  /** Count the sample: markers above cell `k` move up by one, desired positions advance
      by 0, 1/4, 1/2, 3/4 and 1. */
  function Push(at: Places, k: nat): (r: Places)
    requires at.Spread() && k <= 3
    ensures r.Spread()
  {
    var up := (i: int) => if i > k then 1 else 0;
    Places(at.n + 1,
           [at.pos[0], at.pos[1] + up(1), at.pos[2] + up(2), at.pos[3] + up(3), at.pos[4] + up(4)],
           [at.ndes4[0], at.ndes4[1] + 1, at.ndes4[2] + 2, at.ndes4[3] + 3, at.ndes4[4] + 4])
  }

  /** Where inner marker `i` goes: one position up, one down, or nowhere. */
  function Step(at: Places, i: nat): int
    requires at.Spread() && 1 <= i <= 3
  {
    var d4 := at.ndes4[i] - 4 * at.pos[i];
    if (d4 >= 4 && at.pos[i + 1] - at.pos[i] > 1) || (d4 <= -4 && at.pos[i - 1] - at.pos[i] < -1)
    then (if d4 > 0 then 1 else -1) else 0
  }

  function Shift(at: Places, i: nat): (r: Places)
    requires at.Spread() && 1 <= i <= 3
    ensures r.Spread()
  {
    at.(pos := at.pos[i := at.pos[i] + Step(at, i)])
  }

  function Settle(at: Places): (r: Places)
    requires at.Spread()
    ensures r.Spread()
  {
    Shift(Shift(Shift(at, 1), 2), 3)
  }

  // ----- One sample: the heights -----------------------------------------------

  /** Index of the cell the sample falls into; markers above it move up by one. */
  function Cell(q: seq<real>, x: real): (k: nat)
    requires |q| == M
    ensures k <= 3
  {
    if x < q[0] then 0 else if x < q[1] then 0 else if x < q[2] then 1 else if x < q[3] then 2 else 3
  }

  /** The outer markers follow the extremes. */
  function Widen(q: seq<real>, x: real): (r: seq<real>)
    requires |q| == M
    ensures |r| == M
  {
    if x < q[0] then q[0 := x]
    else if x < q[1] || x < q[2] || x < q[3] || x <= q[4] then q
    else q[4 := x]
  }

  /** The piecewise parabolic formula: height `q1` between neighbours `q0` and `q2` that
      stand `u` and `w` positions away, read off `d` positions further on. */
  function Parabola(q0: real, q1: real, q2: real, u: real, w: real, d: real): real
    requires 0.0 < u && 0.0 < w
  {
    q1 + Scale(d, u + w, Along(u + d, q2 - q1, w) + Along(w - d, q1 - q0, u))
  }

  function Along(k: real, rise: real, gap: real): real
    requires gap != 0.0
  {
    k * rise / gap
  }

  function Scale(d: real, t: real, s: real): real
    requires t != 0.0
  {
    d / t * s
  }

  function Parabolic(q: seq<real>, at: Places, i: nat, di: int): real
    requires |q| == M && at.Spread() && 1 <= i <= 3
  {
    Parabola(q[i - 1], q[i], q[i + 1], (at.pos[i] - at.pos[i - 1]) as real, (at.pos[i + 1] - at.pos[i]) as real,
       di as real)
  }

  function Linear(q: seq<real>, at: Places, i: nat, di: int): real
    requires |q| == M && at.Spread() && 1 <= i <= 3 && (di == 1 || di == -1)
  {
    q[i] + Along(di as real, q[i + di] - q[i], (at.pos[i + di] - at.pos[i]) as real)
  }

  /** The new height of a marker that moves: parabolic, or linear if that overshoots. */
  function Height(q: seq<real>, at: Places, i: nat, di: int): real
    requires |q| == M && at.Spread() && 1 <= i <= 3 && (di == 1 || di == -1)
  {
    var p := Parabolic(q, at, i, di);
    if p <= q[i - 1] || p >= q[i + 1] then Linear(q, at, i, di) else p
  }

  function Adjust(s: Markers, i: nat): (r: Markers)
    requires s.Shaped() && 1 <= i <= 3
    ensures r.Shaped() && r.at == Shift(s.at, i)
  {
    var di := Step(s.at, i);
    Markers(if di == 0 then s.q else s.q[i := Height(s.q, s.at, i, di)], Shift(s.at, i))
  }

  function Settled(s: Markers): (r: Markers)
    requires s.Shaped()
    ensures r.Shaped() && r.at == Settle(s.at)
  {
    Adjust(Adjust(Adjust(s, 1), 2), 3)
  }

  function Collected(s: Markers, x: real): (r: Markers)
    requires s.Shaped() && s.at.n < M
    ensures r.Shaped()
  {
    var q := s.q[s.at.n := x];
    Markers(if s.at.n + 1 == M then Sort(q) else q, s.at.(n := s.at.n + 1))
  }

  function Advanced(s: Markers, x: real): (r: Markers)
    requires s.Shaped()
    ensures r.Shaped()
  {
    Markers(Widen(s.q, x), Push(s.at, Cell(s.q, x)))
  }

  /** `Feed` as a function of the state. */
  function Fed(s: Markers, x: real): (r: Markers)
    requires s.Shaped()
    ensures r.Shaped() && r.at.n == s.at.n + 1
  {
    if s.at.n < M then Collected(s, x) else Settled(Advanced(s, x))
  }

  /** The state after a whole run of samples. */
  function Run(xs: seq<real>): (r: Markers)
    ensures r.Shaped() && r.at.n == |xs|
  {
    if xs == [] then INITIAL else Fed(Run(xs[..|xs| - 1]), xs[|xs| - 1])
  }

  // ----- Positions: the drift bound ----------------------------------------------

  /** Four times (desired - actual) position of marker `i`. */
  function Drift4(at: Places, i: nat): int
    requires at.Spread() && i < M
  {
    at.ndes4[i] - 4 * at.pos[i]
  }

  /** From the fifth sample on: marker 1 .. 5 stand between 1 and n, desired positions are
      1, 1 + (n-1)/4, 1 + (n-1)/2, 1 + 3(n-1)/4 and n. */
  ghost predicate Placed(at: Places) {
    && at.Spread() && M <= at.n && at.pos[0] == 1 && at.pos[4] == at.n
    && at.ndes4[0] == 4 && at.ndes4[1] == at.n + 3 && at.ndes4[2] == 2 * at.n + 2
    && at.ndes4[3] == 3 * at.n + 1 && at.ndes4[4] == 4 * at.n
  }

  /** The drift bound of marker `i` after `n` samples, in quarters: above -1, at most 1,
      and 1 only for marker 2 at n = 7.  The last two clauses make the bound inductive. */
  ghost predicate Near(n: nat, i: nat, d4: int) {
    && -4 < d4 <= 4
    && (d4 == 4 ==> i == 2 && n == 7)
    && (n == 5 ==> d4 == 0)
    && (n == 6 ==> d4 <= i)
  }

  /** The same after the increments of a sample, before marker `i` is adjusted. */
  ghost predicate Pushed(n: nat, i: nat, d4: int) {
    && i - 8 < d4 <= (if i == 2 && n == 8 then 6 else 3 + i)
    && (n == 6 ==> d4 <= i)
    && (n == 7 ==> d4 <= 2 * i)
  }

  ghost predicate AllNear(at: Places) {
    Placed(at) && Near(at.n, 1, Drift4(at, 1)) && Near(at.n, 2, Drift4(at, 2)) && Near(at.n, 3, Drift4(at, 3))
  }

  /** State while the inner markers are being adjusted: those below `i` are done. */
  ghost predicate Adjusting(at: Places, i: nat) {
    && Placed(at) && 6 <= at.n
    && (if i > 1 then Near(at.n, 1, Drift4(at, 1)) else Pushed(at.n, 1, Drift4(at, 1)))
    && (if i > 2 then Near(at.n, 2, Drift4(at, 2)) else Pushed(at.n, 2, Drift4(at, 2)))
    && (if i > 3 then Near(at.n, 3, Drift4(at, 3)) else Pushed(at.n, 3, Drift4(at, 3)))
  }

  lemma PushStarts(at: Places, k: nat)
    requires AllNear(at) && k <= 3
    ensures Adjusting(Push(at, k), 1)
  {
  }

  /** Marker 2 at n = 7 with marker 3 right above it. */
  ghost predicate Blocked(at: Places, i: nat)
    requires at.Spread()
  {
    i == 2 && at.n == 7 && at.pos[3] == at.pos[2] + 1
  }

  /** Marker `i` finds room for a wanted move up exactly when it is not blocked, and always for
      a wanted move down. */
  lemma MarkerFindsRoom(at: Places, i: nat)
    requires 1 <= i <= 3 && Adjusting(at, i)
    ensures Adjusting(Shift(at, i), i + 1)
    ensures Drift4(at, i) >= 4 ==> (Step(at, i) == 1 <==> !Blocked(at, i)) && (Step(at, i) == 0 <==> Blocked(at, i))
    ensures Drift4(at, i) <= -4 ==> Step(at, i) == -1
  {
    ShiftAdjusts(at, i);
    if i == 1 {
    } else if i == 2 {
    } else {
    }
  }

  lemma ShiftAdjusts(at: Places, i: nat)
    requires 1 <= i <= 3 && Adjusting(at, i)
    ensures Adjusting(Shift(at, i), i + 1)
  {
    if i == 1 {
    } else if i == 2 {
    } else {
    }
  }

  lemma DriftStaysNear(at: Places, k: nat)
    requires AllNear(at) && k <= 3
    ensures AllNear(Settle(Push(at, k)))
  {
    PushStarts(at, k);
    MarkerFindsRoom(Push(at, k), 1);
    MarkerFindsRoom(Shift(Push(at, k), 1), 2);
    MarkerFindsRoom(Shift(Shift(Push(at, k), 1), 2), 3);
  }

  // ----- Heights: order and extremes -----------------------------------------------

  lemma LinearStaysBetween(q: seq<real>, at: Places, i: nat, di: int)
    requires |q| == M && Ordered(q) && at.Spread() && 1 <= i <= 3 && (di == 1 || di == -1)
    ensures q[i - 1] <= Linear(q, at, i, di) <= q[i + 1]
  {
    var rise, gap := q[i + di] - q[i], (at.pos[i + di] - at.pos[i]) as real;
    if di == 1 {
      Fraction(rise, gap);
      assert 1.0 * rise == rise;
    } else {
      FractionDown(-rise, gap);
      assert -1.0 * rise == -rise;
    }
  }

  /** A moving marker lands between its neighbours, so order is kept. */
  lemma HeightStaysBetween(q: seq<real>, at: Places, i: nat)
    requires |q| == M && Ordered(q) && at.Spread() && 1 <= i <= 3 && Step(at, i) != 0
    ensures q[i - 1] <= Height(q, at, i, Step(at, i)) <= q[i + 1]
  {
    LinearStaysBetween(q, at, i, Step(at, i));
  }

  lemma FractionDown(rise: real, gap: real)
    requires rise >= 0.0 && gap <= -1.0
    ensures -rise <= rise / gap <= 0.0
  {
    var f := rise / gap;
    assert f * gap == rise;
    assert f <= 0.0;
    assert f * (gap + 1.0) >= 0.0;
  }

  lemma Fraction(rise: real, gap: real)
    requires rise >= 0.0 && gap >= 1.0
    ensures 0.0 <= rise / gap <= rise
  {
    var f := rise / gap;
    assert f * gap == rise;
    assert f >= 0.0;
    assert f * (gap - 1.0) >= 0.0;
  }

  lemma AdjustKeepsOrder(s: Markers, i: nat)
    requires s.Shaped() && Ordered(s.q) && 1 <= i <= 3
    ensures Ordered(Adjust(s, i).q) && Adjust(s, i).q[0] == s.q[0] && Adjust(s, i).q[4] == s.q[4]
  {
    if Step(s.at, i) != 0 { HeightStaysBetween(s.q, s.at, i); }
  }

  lemma SettledKeepsOrder(s: Markers)
    requires s.Shaped() && Ordered(s.q)
    ensures Ordered(Settled(s).q) && Settled(s).q[0] == s.q[0] && Settled(s).q[4] == s.q[4]
  {
    AdjustKeepsOrder(s, 1);
    AdjustKeepsOrder(Adjust(s, 1), 2);
    AdjustKeepsOrder(Adjust(Adjust(s, 1), 2), 3);
  }

  ghost predicate IsMin(m: real, xs: seq<real>) { m in xs && forall x :: x in xs ==> m <= x }
  ghost predicate IsMax(m: real, xs: seq<real>) { m in xs && forall x :: x in xs ==> x <= m }

  /** The first four samples are stored as they come. */
  lemma {:induction false} RunCollects(xs: seq<real>)
    requires |xs| < M
    ensures Run(xs).at == INITIAL.at.(n := |xs|) && Run(xs).q[..|xs|] == xs
  {
    if xs != [] {
      var front := xs[..|xs| - 1];
      RunCollects(front);
      var q := Run(front).q[|front| := xs[|front|]];
      assert q[..|xs|] == q[..|front|] + [xs[|front|]];
      assert xs == front + [xs[|front|]];
    }
  }

  /** The fifth sorts them. */
  lemma RunSorts(xs: seq<real>)
    requires |xs| == M
    ensures Run(xs) == Markers(Sort(xs), INITIAL.at.(n := M))
  {
    RunCollects(xs[..4]);
    var q := Run(xs[..4]).q[4 := xs[4]];
    assert q[..4] == xs[..4] && q == q[..4] + [q[4]] && xs == xs[..4] + [xs[4]];
  }

  lemma SortedEnds(xs: seq<real>)
    requires xs != []
    ensures Ordered(Sort(xs)) && IsMin(Sort(xs)[0], xs) && IsMax(Sort(xs)[|xs| - 1], xs)
  {
    SortIsSorted(xs);
    var s := Sort(xs);
    forall x | x in xs ensures s[0] <= x <= s[|xs| - 1] {
      assert x in multiset(xs);
      assert x in s;
    }
    assert s[0] in multiset(s) && s[|xs| - 1] in multiset(s);
    assert s[0] in xs && s[|xs| - 1] in xs;
  }

  ghost predicate Sane(s: Markers, xs: seq<real>) {
    s.Shaped() && Ordered(s.q) && AllNear(s.at) && IsMin(s.q[0], xs) && IsMax(s.q[4], xs)
  }

  lemma WidenTracksExtremes(q: seq<real>, xs: seq<real>, x: real)
    requires |q| == M && Ordered(q) && IsMin(q[0], xs) && IsMax(q[4], xs)
    ensures var w := Widen(q, x); Ordered(w) && IsMin(w[0], xs + [x]) && IsMax(w[4], xs + [x])
  {
    assert x in xs + [x] && q[0] in xs + [x] && q[4] in xs + [x];
  }

  lemma FedStaysSane(s: Markers, xs: seq<real>, x: real)
    requires Sane(s, xs)
    ensures Sane(Fed(s, x), xs + [x])
  {
    WidenTracksExtremes(s.q, xs, x);
    DriftStaysNear(s.at, Cell(s.q, x));
    SettledKeepsOrder(Markers(Widen(s.q, x), Push(s.at, Cell(s.q, x))));
  }

  /** In every reachable state with five samples or more, the markers are ordered, every
      inner marker is within the drift bound, and the outer ones are the exact extremes. */
  lemma {:induction false} RunIsSane(xs: seq<real>)
    requires |xs| >= M
    ensures Sane(Run(xs), xs)
  {
    if |xs| == M {
      RunSorts(xs);
      SortedEnds(xs);
    } else {
      var front, x := xs[..|xs| - 1], xs[|xs| - 1];
      assert xs == front + [x];
      RunIsSane(front);
      FedStaysSane(Run(front), front, x);
    }
  }

  /** The median marker's rank is within one of (n + 1) / 2, the bound 1 being reached at
      seven samples only. */
  lemma MedianRank(xs: seq<real>)
    requires |xs| >= M
    ensures var r2 := |xs| + 1 - 2 * Run(xs).at.pos[2];
      -2 < r2 <= 2 && (r2 == 2 ==> |xs| == 7)
    ensures 1 == Run(xs).at.pos[0] < Run(xs).at.pos[1] < Run(xs).at.pos[2] < Run(xs).at.pos[3] < Run(xs).at.pos[4]
      == |xs|
  {
    RunIsSane(xs);
  }

  const FIVE := Places(M, [1, 2, 3, 4, 5], [4, 8, 12, 16, 20])

  /** The sixth sample: where the inner markers stand for each of its cells. */
  lemma Sixth(k: nat)
    requires k <= 3
    ensures Settle(Push(FIVE, k)) == Places(6,
      [1, if k < 1 then 3 else 2, if k < 2 then 4 else 3, if k < 3 then 5 else 4, 6], [4, 9, 14, 19, 24])
  {
    var up := Push(FIVE, k);
    assert Step(up, 1) == 0;
    assert Step(up, 2) == 0;
    assert Step(up, 3) == 0;
  }

  /** The blocked move happens exactly when the sixth and the seventh sample fall into the top cell. */
  lemma BlockedIffTopTwice(k: nat, l: nat)
    requires k <= 3 && l <= 3
    ensures Drift4(Settle(Push(Settle(Push(FIVE, k)), l)), 2) == 4 <==> k == 3 && l == 3
  {
    Sixth(k);
    var up := Push(Settle(Push(FIVE, k)), l);
    var one := Shift(up, 1);
    assert one.pos[2] == up.pos[2] && one.pos[3] == up.pos[3] && one.ndes4[2] == 16;
    assert Shift(one, 2).pos[2] == one.pos[2] + Step(one, 2);
  }

  lemma SeventhPlaces(xs: seq<real>)
    requires |xs| == 7
    ensures Run(xs).at == Settle(Push(Settle(Push(FIVE, Cell(Run(xs[..5]).q, xs[5]))), Cell(Run(xs[..6]).q, xs[6])))
  {
    hide Run, Cell, Settle, Push;
    FedPlaces(xs[..6]);
    FedPlaces(xs);
    assert xs[..6][..5] == xs[..5];
    FifthPlaces(xs[..5]);
  }

  lemma FifthPlaces(xs: seq<real>)
    requires |xs| == M
    ensures Run(xs).at == FIVE
  {
    RunSorts(xs);
  }

  lemma SeventhIff(xs: seq<real>)
    requires |xs| == 7
    ensures Drift4(Run(xs).at, 2) == 4 <==> xs[5] >= Run(xs[..5]).q[3] && xs[6] >= Run(xs[..6]).q[3]
  {
    hide Run, Cell, Settle, Push, Drift4;
    SeventhPlaces(xs);
    BlockedIffTopTwice(Cell(Run(xs[..5]).q, xs[5]), Cell(Run(xs[..6]).q, xs[6]));
    RunIsSane(xs[..5]);
    RunIsSane(xs[..6]);
    TopCell(Run(xs[..5]).q, xs[5]);
    TopCell(Run(xs[..6]).q, xs[6]);
  }

  /** A marker stays a whole position behind exactly when it is the median marker after seven
      samples and neither the sixth nor the seventh lay below the fourth marker they met. */
  lemma WholeStepBehindIff(xs: seq<real>, i: nat)
    requires |xs| >= M && 1 <= i <= 3
    ensures Drift4(Run(xs).at, i) == 4 <==>
            i == 2 && |xs| == 7 && xs[5] >= Run(xs[..5]).q[3] && xs[6] >= Run(xs[..6]).q[3]
  {
    hide Run, Drift4;
    if |xs| == 7 { SeventhIff(xs); }
    RunIsSane(xs);
  }

  lemma FedPlaces(xs: seq<real>)
    requires |xs| > M
    ensures var n := |xs| - 1; Run(xs).at == Settle(Push(Run(xs[..n]).at, Cell(Run(xs[..n]).q, xs[n])))
  {
  }

  lemma TopCell(q: seq<real>, x: real)
    requires |q| == M && Ordered(q)
    ensures Cell(q, x) == 3 <==> x >= q[3]
  {
  }

  /** A sample raises the position of exactly those inner markers it lies strictly below. */
  lemma PushCountsSamplesBelow(q: seq<real>, at: Places, x: real, i: nat)
    requires |q| == M && Ordered(q) && at.Spread() && 1 <= i <= 3
    ensures Push(at, Cell(q, x)).pos[i] == at.pos[i] + if x < q[i] then 1 else 0
    ensures Push(at, Cell(q, x)).pos[0] == at.pos[0] && Push(at, Cell(q, x)).pos[4] == at.pos[4] + 1
  {
    if x < q[i] { assert Cell(q, x) < i; } else { assert Cell(q, x) >= i; }
  }

  // ----- The estimate ---------------------------------------------------------------

  function Estimate(s: Markers): real
    requires s.Shaped()
  {
    if s.at.n == 0 then 0.0
    else if s.at.n < M then Sort(s.q[..s.at.n])[s.at.n / 2]
    else s.q[2]
  }

  ghost predicate Between(r: real, xs: seq<real>) {
    exists lo, hi :: IsMin(lo, xs) && IsMax(hi, xs) && lo <= r <= hi
  }

  /** Up to five samples `Get` is the exact upper median. */
  lemma EstimateIsExact(xs: seq<real>)
    requires 0 < |xs| <= M
    ensures Estimate(Run(xs)) == Sort(xs)[|xs| / 2]
  {
    if |xs| < M { RunCollects(xs); } else { RunSorts(xs); }
  }

  /** `Get` lies between the extremes of everything fed. */
  lemma EstimateIsBetween(xs: seq<real>)
    requires xs != []
    ensures Between(Estimate(Run(xs)), xs)
  {
    hide Run, Sort, IsMin, IsMax, AllNear;
    if |xs| < M {
      EstimateIsExact(xs);
      SortedEnds(xs);
      var s := Sort(xs);
      assert IsMin(s[0], xs) && IsMax(s[|xs| - 1], xs) && s[0] <= s[|xs| / 2] <= s[|xs| - 1];
    } else {
      RunIsSane(xs);
      var q := Run(xs).q;
      assert IsMin(q[0], xs) && IsMax(q[4], xs) && q[0] <= q[2] <= q[4];
    }
  }

  // ----- What the interpolation means ------------------------------------------------

  function Quadratic(a: real, b: real, c: real, x: real): real { a * (x * x) + b * x + c }

  /** On three markers whose heights lie on any quadratic, the parabolic formula returns
      that quadratic at the neighbouring position. */
  lemma ParabolaInterpolates(a: real, b: real, c: real, x: real, u: real, w: real, d: real)
    requires 0.0 < u && 0.0 < w
    ensures Parabola(Quadratic(a, b, c, x - u), Quadratic(a, b, c, x), Quadratic(a, b, c, x + w), u, w, d)
         == Quadratic(a, b, c, x + d)
  {
    Chord(a, b, c, x, w);
    Chord(a, b, c, x - u, u);
    assert x - u + u == x;
    Combine(a, b, x, u, w, d);
    Weighted(Quadratic(a, b, c, x - u), Quadratic(a, b, c, x), Quadratic(a, b, c, x + w), u, w, d,
             a * (2.0 * x + w) + b, a * (2.0 * (x - u) + u) + b, a * (2.0 * x + d) + b);
    Chord(a, b, c, x, d);
  }

  /** The formula in terms of the slopes of its two chords. */
  lemma Weighted(q0: real, q1: real, q2: real, u: real, w: real, d: real, right: real, left: real, m: real)
    requires 0.0 < u && 0.0 < w && q2 - q1 == w * right && q1 - q0 == u * left
    requires (u + d) * right + (w - d) * left == (u + w) * m
    ensures Parabola(q0, q1, q2, u, w, d) == q1 + d * m
  {
    Blend(u + d, q2 - q1, w, right, w - d, q1 - q0, u, left, (u + w) * m);
    Scaled(d, u + w, m, Along(u + d, q2 - q1, w) + Along(w - d, q1 - q0, u));
  }

  lemma Blend(k: real, diff: real, w: real, m: real, k': real, diff': real, w': real, m': real, s: real)
    requires w != 0.0 && w' != 0.0 && diff == w * m && diff' == w' * m' && k * m + k' * m' == s
    ensures Along(k, diff, w) + Along(k', diff', w') == s
  {
    Quotient(k, w, m, diff);
    Quotient(k', w', m', diff');
  }

  /** The fallback reads the straight line through the marker and the neighbour it moves towards. */
  lemma LinearInterpolates(q: seq<real>, at: Places, i: nat, di: int, b: real, c: real)
    requires |q| == M && at.Spread() && 1 <= i <= 3 && (di == 1 || di == -1)
    requires q[i] == b * at.pos[i] as real + c && q[i + di] == b * at.pos[i + di] as real + c
    ensures Linear(q, at, i, di) == b * (at.pos[i] + di) as real + c
  {
    var x, y := at.pos[i] as real, at.pos[i + di] as real;
    var gap := y - x;
    assert gap == (at.pos[i + di] - at.pos[i]) as real;
    assert q[i + di] - q[i] == gap * b;
    Quotient(di as real, gap, b, q[i + di] - q[i]);
    assert (at.pos[i] + di) as real == x + di as real;
    assert b * (x + di as real) == b * x + di as real * b;
  }

  lemma Chord(a: real, b: real, c: real, x: real, h: real)
    ensures Quadratic(a, b, c, x + h) == Quadratic(a, b, c, x) + h * (a * (2.0 * x + h) + b)
  {
    assert (x + h) * (x + h) == x * x + h * (2.0 * x + h);
    assert a * (x * x + h * (2.0 * x + h)) == a * (x * x) + h * (a * (2.0 * x + h));
  }

  lemma Quotient(k: real, w: real, m: real, diff: real)
    requires w != 0.0 && diff == w * m
    ensures Along(k, diff, w) == k * m
  {
    assert k * diff == (k * m) * w;
  }

  lemma Scaled(d: real, t: real, m: real, s: real)
    requires t != 0.0 && s == t * m
    ensures Scale(d, t, s) == d * m
  {
    assert d / t * (t * m) == (d / t * t) * m;
  }

  lemma Combine(a: real, b: real, x: real, u: real, w: real, d: real)
    ensures (u + d) * (a * (2.0 * x + w) + b) + (w - d) * (a * (2.0 * (x - u) + u) + b)
      == (u + w) * (a * (2.0 * x + d) + b)
  {
    var s := 2.0 * (a * x) + b;
    assert a * (2.0 * x + w) + b == s + a * w && a * (2.0 * (x - u) + u) + b == s - a * u
         && a * (2.0 * x + d) + b == s + a * d;
    assert (u + d) * (s + a * w) == u * s + d * s + u * (a * w) + d * (a * w);
    assert (w - d) * (s - a * u) == w * s - d * s - w * (a * u) + d * (a * u);
    assert (u + w) * (s + a * d) == u * s + w * s + u * (a * d) + w * (a * d);
  }

  // ----- Where a moving marker goes -------------------------------------------------------

  /** The heights of marker `i` and its two neighbours lie on this quadratic. */
  ghost predicate LieOn(s: Markers, i: nat, a: real, b: real, c: real)
    requires s.Shaped() && 1 <= i <= 3
  {
    forall j :: i - 1 <= j <= i + 1 ==> s.q[j] == Quadratic(a, b, c, s.at.pos[j] as real)
  }

  lemma Divided(p: real, q: real)
    requires q != 0.0
    ensures q * (p / q) == p
  {
  }

  lemma Slopes(a: real, x: real, y: real, z: real)
    ensures a * (2.0 * x + (y - x)) == a * (x + y)
    ensures a * (2.0 * y + (z - y)) == a * (x + y) + (z - x) * a
  {
  }

  /** A quadratic through three points. */
  lemma Through(x: real, y: real, z: real, p: real, q: real, r: real) returns (a: real, b: real, c: real)
    requires x < y < z
    ensures Quadratic(a, b, c, x) == p && Quadratic(a, b, c, y) == q && Quadratic(a, b, c, z) == r
  {
    var left, right := (q - p) / (y - x), (r - q) / (z - y);
    a := (right - left) / (z - x);
    b := left - a * (x + y);
    c := p - Quadratic(a, b, 0.0, x);
    Divided(q - p, y - x);
    Divided(r - q, z - y);
    Divided(right - left, z - x);
    Slopes(a, x, y, z);
    assert Quadratic(a, b, c, x) == p;
    hide Quadratic;
    Rise(a, b, c, x, y, left);
    Rise(a, b, c, y, z, right);
  }

  lemma Rise(a: real, b: real, c: real, x: real, y: real, slope: real)
    requires a * (2.0 * x + (y - x)) + b == slope
    ensures Quadratic(a, b, c, y) == Quadratic(a, b, c, x) + (y - x) * slope
  {
    Chord(a, b, c, x, y - x);
    assert x + (y - x) == y;
  }

  /** There always is one. */
  lemma SomeQuadratic(s: Markers, i: nat) returns (a: real, b: real, c: real)
    requires s.Shaped() && 1 <= i <= 3
    ensures LieOn(s, i, a, b, c)
  {
    a, b, c := Through(s.at.pos[i - 1] as real, s.at.pos[i] as real, s.at.pos[i + 1] as real,
                       s.q[i - 1], s.q[i], s.q[i + 1]);
    hide Quadratic;
  }

  lemma ParabolicReads(s: Markers, i: nat, di: int, a: real, b: real, c: real)
    requires s.Shaped() && 1 <= i <= 3 && LieOn(s, i, a, b, c)
    ensures Parabolic(s.q, s.at, i, di) == Quadratic(a, b, c, (s.at.pos[i] + di) as real)
  {
    var x := s.at.pos[i] as real;
    var u, w := (s.at.pos[i] - s.at.pos[i - 1]) as real, (s.at.pos[i + 1] - s.at.pos[i]) as real;
    assert x - u == s.at.pos[i - 1] as real && x + w == s.at.pos[i + 1] as real;
    assert x + di as real == (s.at.pos[i] + di) as real;
    ParabolaInterpolates(a, b, c, x, u, w, di as real);
    hide Parabola, Quadratic;
  }

  lemma LinearReads(q: seq<real>, at: Places, i: nat, di: int)
    requires |q| == M && at.Spread() && 1 <= i <= 3 && (di == 1 || di == -1)
    ensures (Linear(q, at, i, di) - q[i]) * (at.pos[i + di] - at.pos[i]) as real == di as real * (q[i + di] - q[i])
  {
  }

  /** A marker that moves goes to the point of the parabola through itself and its neighbours
      when that lies strictly between the neighbours' heights, and otherwise to the point of
      the straight line towards the neighbour it moves to.  The other heights stay. */
  lemma MovesOnParabola(s: Markers, i: nat, a: real, b: real, c: real)
    requires s.Shaped() && 1 <= i <= 3 && Step(s.at, i) != 0 && LieOn(s, i, a, b, c)
    ensures var di := Step(s.at, i);
      var v, h := Quadratic(a, b, c, (s.at.pos[i] + di) as real), Adjust(s, i).q[i];
      && (s.q[i - 1] < v < s.q[i + 1] ==> h == v)
      && (!(s.q[i - 1] < v < s.q[i + 1]) ==>
           (h - s.q[i]) * (s.at.pos[i + di] - s.at.pos[i]) as real == di as real * (s.q[i + di] - s.q[i]))
    ensures forall j :: 0 <= j < M && j != i ==> Adjust(s, i).q[j] == s.q[j]
  {
    hide Quadratic, Parabolic, Linear;
    ParabolicReads(s, i, Step(s.at, i), a, b, c);
    LinearReads(s.q, s.at, i, Step(s.at, i));
  }

  // ----- The object -------------------------------------------------------------------

  /** The estimator object; `fed` records the samples since the last reset. */
  class Estimator {
    var n: nat
    const q: array<real>
    const pos: array<int>
    const ndes4: array<int>
    ghost var fed: seq<real>

    ghost function View(): Markers
      reads this, q, pos, ndes4
    {
      Markers(q[..], Places(n, pos[..], ndes4[..]))
    }

    ghost predicate Valid()
      reads this, q, pos, ndes4
    {
      Laid() && View() == Run(fed)
    }

    constructor ()
      ensures Valid() && fed == [] && fresh(q) && fresh(pos) && fresh(ndes4)
    {
      q, pos, ndes4 := new real[M], new int[M], new int[M];
      n, fed := 0, [];
      new;
      Reset();
    }

    method Reset()
      requires Laid()
      modifies this, q, pos, ndes4
      ensures Valid() && fed == []
    {
      n, fed := 0, [];
      for i := 0 to M
        invariant n == 0 && fed == []
        invariant forall k :: 0 <= k < i ==> q[k] == 0.0 && pos[k] == k + 1 && ndes4[k] == 4 * (k + 1)
      {
        q[i], pos[i], ndes4[i] := 0.0, i + 1, 4 * (i + 1);
      }
      assert q[..] == INITIAL.q && pos[..] == INITIAL.at.pos && ndes4[..] == INITIAL.at.ndes4;
    }

    /** One turn of the adjustment loop. */
    method AdjustMarker(i: nat)
      requires Laid() && View().Shaped() && 1 <= i <= 3
      modifies q, pos
      ensures View() == Adjust(old(View()), i)
    {
      ghost var s := View();
      var d4 := ndes4[i] - 4 * pos[i];
      if (d4 >= 4 && pos[i + 1] - pos[i] > 1) || (d4 <= -4 && pos[i - 1] - pos[i] < -1) {
        var di := if d4 > 0 then 1 else -1;
        var qnew := Parabola(q[i - 1], q[i], q[i + 1], (pos[i] - pos[i - 1]) as real, (pos[i + 1] - pos[i]) as real,
           di as real);
        if qnew <= q[i - 1] || qnew >= q[i + 1] {
          qnew := q[i] + Along(di as real, q[i + di] - q[i], (pos[i + di] - pos[i]) as real);
        }
        assert di == Step(s.at, i) && qnew == Height(s.q, s.at, i, di);
        q[i] := qnew;
        pos[i] := pos[i] + di;
        assert q[..] == s.q[i := qnew] && pos[..] == s.at.pos[i := s.at.pos[i] + di];
      }
    }

    ghost predicate Laid()
    {
      q.Length == pos.Length == ndes4.Length == M && pos != ndes4
    }

    /** One of the first five samples. */
    method Collect(x: real)
      requires Laid() && View().Shaped() && n < M
      modifies this`n, q
      ensures View() == Collected(old(View()), x)
    {
      q[n] := x;
      n := n + 1;
      if n == M {
        assert q[..M] == q[..];
        InsertionSort(q, M);
        assert q[..M] == q[..];
      }
    }

    /** Find the cell of a later sample; the outer markers follow the extremes. */
    method Place(x: real) returns (k: nat)
      requires Laid()
      modifies q
      ensures k == Cell(old(q[..]), x) && q[..] == Widen(old(q[..]), x)
    {
      if x < q[0] { q[0] := x; k := 0; }
      else if x < q[1] { k := 0; }
      else if x < q[2] { k := 1; }
      else if x < q[3] { k := 2; }
      else if x <= q[4] { k := 3; }
      else { q[4] := x; k := 3; }
    }

    /** The increments of a later sample. */
    method Advance(x: real)
      requires Laid() && View().Shaped()
      modifies this`n, q, pos, ndes4
      ensures View() == Advanced(old(View()), x)
    {
      for i := 0 to M
        invariant forall j :: 0 <= j < M ==> ndes4[j] == old(ndes4[j]) + if j < i then j else 0
        invariant q[..] == old(q[..]) && pos[..] == old(pos[..]) && n == old(n)
      {
        ndes4[i] := ndes4[i] + i;
      }
      n := n + 1;
      var k := Place(x);
      RaiseAbove(k);
      assert pos[..] == Push(old(View().at), k).pos && ndes4[..] == Push(old(View().at), k).ndes4;
    }

    method RaiseAbove(k: nat)
      requires Laid() && k <= 3
      modifies pos
      ensures forall j :: 0 <= j < M ==> pos[j] == old(pos[j]) + if k < j then 1 else 0
    {
      for i := k + 1 to M
        invariant forall j :: 0 <= j < M ==> pos[j] == old(pos[j]) + if k < j < i then 1 else 0
      {
        pos[i] := pos[i] + 1;
      }
    }

    method Feed(x: real)
      requires Valid()
      modifies this, q, pos, ndes4
      ensures Valid() && fed == old(fed) + [x]
    {
      fed := fed + [x];
      assert fed[..|fed| - 1] == old(fed);
      if n < M {
        Collect(x);
        return;
      }
      Advance(x);
      ghost var t := View();
      for i := 1 to 4
        invariant fed == old(fed) + [x]
        invariant View() == if i == 1 then t else if i == 2 then Adjust(t, 1)
          else if i == 3 then Adjust(Adjust(t, 1), 2) else Settled(t)
      {
        AdjustMarker(i);
      }
    }

    method Get() returns (r: real)
      requires Valid()
      ensures r == Estimate(View()) && (|fed| >= M ==> r == q[2])
      ensures fed == [] ==> r == 0.0
      ensures fed != [] ==> Between(r, fed)
    {
      hide Sort, Between;
      if fed != [] { EstimateIsBetween(fed); }
      if n == 0 { return 0.0; }
      if n < M {
        var tmp := new real[M];
        for i := 0 to n
          invariant forall k :: 0 <= k < i ==> tmp[k] == q[k]
        {
          tmp[i] := q[i];
        }
        assert tmp[..n] == q[..n];
        InsertionSort(tmp, n);
        r := tmp[n / 2];
        assert r == tmp[..n][n / 2];
        return;
      }
      r := q[2];
    }
  }
}

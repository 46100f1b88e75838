/**
 Bit operations of unsigned words, on natural numbers, and what masking with a power
 of two minus one does.
 */
module Bits {
  const WORD := 0x1_0000_0000_0000_0000

  function Pow2(k: nat): (r: nat)
    ensures r > 0
  {
    if k == 0 then 1 else 2 * Pow2(k - 1)
  }

  function And(a: nat, b: nat): nat {
    if a == 0 || b == 0 then 0 else 2 * And(a / 2, b / 2) + (if a % 2 == 1 && b % 2 == 1 then 1 else 0)
  }

  function Or(a: nat, b: nat): nat
    decreases a + b
  {
    if a == 0 then b else if b == 0 then a
    else 2 * Or(a / 2, b / 2) + (if a % 2 == 1 || b % 2 == 1 then 1 else 0)
  }

  predicate Bit(a: nat, i: nat) { if i == 0 then a % 2 == 1 else Bit(a / 2, i - 1) }

  /** `And` and `Or` are the bitwise operations. */
  lemma {:induction false} BitwiseMeaning(a: nat, b: nat, i: nat)
    ensures Bit(And(a, b), i) <==> Bit(a, i) && Bit(b, i)
    ensures Bit(Or(a, b), i) <==> Bit(a, i) || Bit(b, i)
    decreases i
  {
    if a == 0 || b == 0 {
      ZeroBits(i);
    } else if i > 0 {
      BitwiseMeaning(a / 2, b / 2, i - 1);
      assert And(a, b) / 2 == And(a / 2, b / 2) && Or(a, b) / 2 == Or(a / 2, b / 2);
    }
  }

  lemma {:induction false} ZeroBits(i: nat)
    ensures !Bit(0, i)
    decreases i
  {
    if i > 0 { ZeroBits(i - 1); }
  }

  /** Masking with 2^k - 1 is reduction modulo 2^k. */
  lemma {:induction false} MaskIsMod(x: nat, k: nat)
    ensures And(x, Pow2(k) - 1) == x % Pow2(k)
    decreases k
  {
    if k > 0 {
      var m := Pow2(k - 1);
      MaskIsMod(x / 2, k - 1);
      HalfMod(x, m);
      AndOnes(x, m);
      calc {
        And(x, Pow2(k) - 1);
        2 * And(x / 2, m - 1) + x % 2;
        2 * (x / 2 % m) + x % 2;
        x % (2 * m);
      }
    }
  }

  /** `i & (2^bits - 1)`. */
  function Masked(i: nat, bits: nat): (r: nat)
    ensures r == i % Pow2(bits)
  {
    MaskIsMod(i, bits);
    And(i, Pow2(bits) - 1)
  }

  lemma AndOnes(x: nat, m: nat)
    requires m > 0
    ensures And(x, 2 * m - 1) == 2 * And(x / 2, m - 1) + x % 2
  {
    assert (2 * m - 1) / 2 == m - 1 && (2 * m - 1) % 2 == 1;
  }

  lemma HalfMod(x: nat, m: nat)
    requires m > 0
    ensures x % (2 * m) == 2 * (x / 2 % m) + x % 2
  {
    var q, r := x / 2 / m, x / 2 % m;
    assert x / 2 == q * m + r;
    assert x == q * (2 * m) + (2 * r + x % 2);
    ModUnique(x, 2 * m, q, 2 * r + x % 2);
  }

  lemma ModUnique(x: int, n: nat, q: int, r: int)
    requires n > 0 && 0 <= r < n && x == q * n + r
    ensures x % n == r && x / n == q
  {
    var d := q - x / n;
    assert 0 - n < d * n < n;
    assert d == 0;
  }

  /** Numbers less than n apart have distinct residues. */
  lemma ResiduesDistinct(a: nat, b: nat, n: nat)
    requires n > 0 && a < b < a + n
    ensures a % n != b % n
  {
    var d := b / n - a / n;
    assert b - a == d * n + b % n - a % n;
    assert d >= 1 ==> d * n >= n;
    assert d <= 0 ==> d * n <= 0;
  }

  // ----- Bit smearing: the next power of two ---------------------------------------

  lemma {:induction false} Pow2Adds(a: nat, b: nat)
    ensures Pow2(a + b) == Pow2(a) * Pow2(b)
    decreases a
  {
    if a > 0 { Pow2Adds(a - 1, b); }
  }

  lemma {:induction false} Pow2Grows(a: nat, b: nat)
    requires a <= b
    ensures Pow2(a) <= Pow2(b) && (a < b ==> 2 * Pow2(a) <= Pow2(b))
    decreases b
  {
    if a < b { Pow2Grows(a, b - 1); }
  }

  lemma {:induction false} OrBounds(a: nat, b: nat, k: nat)
    ensures a <= Or(a, b) && b <= Or(a, b)
    ensures a < Pow2(k) && b < Pow2(k) ==> Or(a, b) < Pow2(k)
    decreases a + b
  {
    if a > 0 && b > 0 {
      if k > 0 { OrBounds(a / 2, b / 2, k - 1); } else { OrBounds(a / 2, b / 2, 0); }
    }
  }

  /** High parts and low parts of `Or` do not interact. */
  lemma {:induction false} OrSplits(h: nat, x: nat, y: nat, m: nat)
    requires x < Pow2(m) && y < Pow2(m)
    ensures Or(h * Pow2(m) + x, y) == h * Pow2(m) + Or(x, y)
    decreases m
  {
    hide Or;
    if m == 0 {
      OrZero(h);
      OrZero(x);
    } else {
      var p := Pow2(m - 1);
      OrSplits(h, x / 2, y / 2, m - 1);
      OrHalves(h * p, x, y);
      Twice(h, p);
    }
  }

  lemma Twice(h: nat, p: nat)
    ensures h * (2 * p) == 2 * (h * p)
  {
  }

  lemma OrZero(v: nat)
    ensures Or(v, 0) == v
  {
  }

  lemma OrHalves(k: nat, x: nat, y: nat)
    requires Or(k + x / 2, y / 2) == k + Or(x / 2, y / 2)
    ensures Or(2 * k + x, y) == 2 * k + Or(x, y)
  {
    assert (2 * k + x) / 2 == k + x / 2 && (2 * k + x) % 2 == x % 2;
    if x == 0 { assert Or(x / 2, y / 2) == y / 2; }
  }

  function BitLength(w: nat): (r: nat)
    ensures w < Pow2(r) && (w > 0 ==> r > 0 && Pow2(r - 1) <= w)
  {
    if w == 0 then 0 else 1 + BitLength(w / 2)
  }

  /** The top `s` of `len` bits are set. */
  ghost predicate TopSet(v: nat, len: nat, s: nat)
    requires s <= len
  {
    Pow2(len) - Pow2(len - s) <= v < Pow2(len)
  }

  function Min(a: nat, b: nat): nat { if a <= b then a else b }

  /** Or-ing in a shift by `s` doubles a run of `s` leading ones. */
  lemma SmearDoubles(v: nat, len: nat, s: nat)
    requires TopSet(v, len, Min(s, len))
    ensures TopSet(Or(v, Shr(v, s)), len, Min(2 * s, len))
  {
    if s > len {
      ShiftedOut(v, len, s);
    } else {
      SmearRun(v, len, s);
      SmearGoal(v, Or(v, Shr(v, s)), Shr(v, s), len, s);
    }
  }

  lemma ShiftedOut(v: nat, len: nat, s: nat)
    requires v < Pow2(len) && len < s
    ensures Shr(v, s) == 0 && Or(v, Shr(v, s)) == v
  {
    hide Pow2, Or, Quot;
    Pow2Grows(len, s);
    NothingLeft(v, Pow2(s));
    OrZero(v);
  }

  lemma NothingLeft(v: nat, d: nat)
    requires v < d
    ensures Quot(v, d) == 0
  {
  }

  lemma SmearGoal(v: nat, r: nat, y: nat, len: nat, s: nat)
    requires s <= len && Pow2(len) - Pow2(len - s) + y <= r < Pow2(len)
    requires y >= Pow2(len - s) - if len - s >= s then Pow2(len - s - s) else 1
    ensures TopSet(r, len, Min(2 * s, len))
  {
    if len - s >= s {
      assert len - s - s == len - 2 * s;
    } else {
      assert Pow2(0) == 1;
    }
  }

  lemma SmearRun(v: nat, len: nat, s: nat)
    requires s <= len && TopSet(v, len, s)
    ensures Pow2(len) - Pow2(len - s) + Shr(v, s) <= Or(v, Shr(v, s)) < Pow2(len)
    ensures Shr(v, s) >= Pow2(len - s) - if len - s >= s then Pow2(len - s - s) else 1
  {
    TopSetValue(len, s);
    ShiftBounds(v, s, len - s);
    OrHigh(v, Pow2(s) - 1, len - s, Shr(v, s));
  }

  lemma OrHigh(v: nat, h: nat, m: nat, y: nat)
    requires h * Pow2(m) <= v < h * Pow2(m) + Pow2(m) && y < Pow2(m)
    ensures h * Pow2(m) + y <= Or(v, y) < h * Pow2(m) + Pow2(m)
  {
    var x := v - h * Pow2(m);
    OrSplits(h, x, y, m);
    OrBounds(x, y, m);
  }

  lemma MulMono(d: nat, a: int, b: int)
    requires a <= b
    ensures d * a <= d * b
  {
  }

  lemma Galois(v: nat, d: nat, y: nat)
    requires d > 0
    ensures d * y <= v <==> y <= Quot(v, d)
  {
    var q := Quot(v, d);
    assert d * q <= v < d * q + d;
    if y <= q { MulMono(d, y, q); } else { MulMono(d, q + 1, y); }
  }

  lemma DivWindow(v: nat, d: nat, p: nat)
    requires d > 0 && v < d * p
    ensures Quot(v, d) < p
    ensures p <= d && (d - 1) * p <= v ==> Quot(v, d) >= p - 1
  {
    Galois(v, d, p);
    MulMinus(d, p);
    MulMinus(p, d);
    if p > 0 { Galois(v, d, p - 1); }
  }

  lemma DivWindowScaled(v: nat, d: nat, e: nat)
    requires d > 0 && (d - 1) * (d * e) <= v
    ensures Quot(v, d) >= d * e - e
  {
    MulMono(e, 1, d);
    MulMinus(d, d * e);
    assert d * (d * e - e) == d * (d * e) - d * e;
    Galois(v, d, d * e - e);
  }

  lemma ShiftBounds(v: nat, s: nat, m: nat)
    requires (Pow2(s) - 1) * Pow2(m) <= v < Pow2(s) * Pow2(m)
    ensures Pow2(m) - (if m >= s then Pow2(m - s) else 1) <= Shr(v, s) < Pow2(m)
  {
    DivWindow(v, Pow2(s), Pow2(m));
    if m >= s {
      Pow2Adds(s, m - s);
      DivWindowScaled(v, Pow2(s), Pow2(m - s));
    } else {
      Pow2Grows(m, s);
    }
  }

  function Quot(v: nat, d: nat): nat
    requires d > 0
  {
    v / d
  }

  function Shr(v: nat, k: nat): nat { Quot(v, Pow2(k)) }

  lemma MulMinus(d: nat, p: nat)
    ensures (d - 1) * p == d * p - p
  {
  }

  lemma TopSetValue(len: nat, s: nat)
    requires s <= len
    ensures Pow2(len) == Pow2(s) * Pow2(len - s) && (Pow2(s) - 1) * Pow2(len - s) == Pow2(len) - Pow2(len - s)
  {
    Pow2Adds(s, len - s);
    MulMinus(Pow2(s), Pow2(len - s));
  }

  /** `r` is the least power of two that is at least `v`. */
  ghost predicate IsLeastPow2(r: nat, v: nat) {
    && (exists k: nat :: r == Pow2(k))
    && v <= r
    && (forall j: nat :: v <= Pow2(j) ==> r <= Pow2(j))
  }

  lemma BitLengthGivesLeast(v: nat)
    requires v > 0
    ensures IsLeastPow2(Pow2(BitLength(v - 1)), v)
  {
    var k := BitLength(v - 1);
    forall j: nat | v <= Pow2(j) ensures Pow2(k) <= Pow2(j) {
      if j < k { Pow2Grows(j, k - 1); } else { Pow2Grows(k, j); }
    }
  }

  lemma SmallPowers()
    ensures Pow2(8) == 256
  {
    assert Pow2(4) == 16;
  }

  lemma OneMorePower(k: nat)
    ensures Pow2(k + 1) == 2 * Pow2(k)
  {
  }

  lemma WordIsPow2()
    ensures Pow2(64) == WORD && Pow2(63) == WORD / 2
  {
    hide Pow2;
    SmallPowers();
    Pow2Adds(8, 8);
    Pow2Adds(16, 16);
    Pow2Adds(32, 32);
    OneMorePower(63);
  }

  /** One `v |= v >> s`. */
  method Smear(v: nat, ghost len: nat, s: nat) returns (r: nat)
    requires TopSet(v, len, Min(s, len))
    ensures TopSet(r, len, Min(2 * s, len))
  {
    SmearDoubles(v, len, s);
    r := Or(v, Shr(v, s));
  }

  lemma LeastFits(v: nat)
    requires 0 < v < WORD
    ensures var len := BitLength(v - 1); len <= 64 && (v <= WORD / 2 ==> len <= 63) && (v > WORD / 2 ==> len == 64)
  {
    var len := BitLength(v - 1);
    WordIsPow2();
    if len > 64 { Pow2Grows(64, len - 1); }
    if len < 64 { Pow2Grows(len, 63); }
  }

  lemma StartsTop(w: nat)
    ensures TopSet(w, BitLength(w), Min(1, BitLength(w)))
  {
  }

  lemma EndsTop(w: nat, len: nat)
    requires len <= 64 && TopSet(w, len, Min(64, len))
    ensures w + 1 == Pow2(len)
  {
    assert Min(64, len) == len && Pow2(0) == 1;
  }

  lemma RoundsToLeast(v: nat)
    requires 0 < v < WORD
    ensures var r := Pow2(BitLength(v - 1)) % WORD;
      (v <= WORD / 2 ==> IsLeastPow2(r, v) && r <= WORD / 2) && (v > WORD / 2 ==> r == 0)
  {
    var len := BitLength(v - 1);
    LeastFits(v);
    BitLengthGivesLeast(v);
    WordIsPow2();
    if len < 64 {
      Pow2Grows(len, 63);
      Wraps(Pow2(len));
    }
  }

  lemma Wraps(p: nat)
    ensures p < WORD ==> p % WORD == p
  {
  }

  /** Capacity rounding.  Above 2^63 the 64-bit result wraps around to 0. */
  method NextPow2(v: nat) returns (r: nat)
    requires v < WORD
    ensures v == 0 ==> r == 1
    ensures 0 < v <= WORD / 2 ==> IsLeastPow2(r, v) && r <= WORD / 2
    ensures v > WORD / 2 ==> r == 0
  {
    hide TopSet, BitLength, IsLeastPow2, Pow2;
    if v == 0 { return 1; }
    var w := v - 1;
    ghost var len := BitLength(w);
    StartsTop(w);
    w := Smear(w, len, 1);
    w := Smear(w, len, 2);
    w := Smear(w, len, 4);
    w := Smear(w, len, 8);
    w := Smear(w, len, 16);
    w := Smear(w, len, 32);
    LeastFits(v);
    EndsTop(w, len);
    RoundsToLeast(v);
    return (w + 1) % WORD;
  }
}

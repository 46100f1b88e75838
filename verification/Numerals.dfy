/**
 Numbers as text: decimal, and hexadecimal of a fixed width.
 */
module Numerals {
  const HEX := "0123456789abcdef"

  predicate Digit(c: char) { '0' <= c <= '9' }

  function Decimal(n: nat): (r: string)
    ensures r != [] && forall c :: c in r ==> Digit(c)
  {
    (if n < 10 then [] else Decimal(n / 10)) + [('0' as int + n % 10) as char]
  }

  function Hex(n: nat, width: nat): (r: string)
    ensures |r| == width && forall c :: c in r ==> c in HEX
  {
    if width == 0 then [] else Hex(n / 16, width - 1) + [HEX[n % 16]]
  }

  const UPPER := "0123456789ABCDEF"

  function UpperHex(n: nat, width: nat): (r: string)
    ensures |r| == width && forall c :: c in r ==> c in UPPER
  {
    if width == 0 then [] else UpperHex(n / 16, width - 1) + [UPPER[n % 16]]
  }

  // ----- Places ------------------------------------------------------------------------------

  function Pow10(k: nat): (r: nat)
    ensures r > 0
  {
    if k == 0 then 1 else 10 * Pow10(k - 1)
  }

  function Pow16(k: nat): (r: nat)
    ensures r > 0
  {
    if k == 0 then 1 else 16 * Pow16(k - 1)
  }

  lemma Shifted(n: nat, a: nat, b: nat)
    requires a > 0 && b > 0
    ensures n / (a * b) == n / a / b
  {
    Join(n, a, b, n / a, n / a / b, n / a % b, n % a);
  }

  lemma Join(n: nat, a: nat, b: nat, m: nat, q: nat, r: nat, s: nat)
    requires s < a && r < b && n == a * m + s && m == b * q + r
    ensures a * b > 0 && n / (a * b) == q
  {
    Parts(a, b, q, r, s);
    Bound(a, b, r, s);
    Quotient(n, a * b, q, a * r + s);
  }

  lemma Parts(a: nat, b: nat, q: nat, r: nat, s: nat)
    requires a > 0 && b > 0
    ensures a * (b * q + r) + s == q * (a * b) + (a * r + s) && a * b > 0
  {
  }

  lemma Bound(a: nat, b: nat, r: nat, s: nat)
    requires s < a && r < b
    ensures a * r + s < a * b
  {
    assert a * (r + 1) <= a * b;
  }

  lemma Quotient(n: nat, d: nat, q: nat, rest: nat)
    requires d > 0 && rest < d && n == q * d + rest
    ensures n / d == q
  {
    var k := q - n / d;
    assert 0 - d < k * d < d;
    assert k == 0;
  }

  /** Decimal digits: the `k`-th from the right counts the powers of ten, and none is wasted. */
  lemma {:induction false} DecimalPlaces(n: nat, k: nat)
    requires k < |Decimal(n)|
    ensures Decimal(n)[|Decimal(n)| - 1 - k] == ('0' as int + n / Pow10(k) % 10) as char
    ensures n > 0 ==> Decimal(n)[0] != '0'
    decreases n
  {
    if n >= 10 {
      DecimalPlaces(n / 10, if k > 0 then k - 1 else 0);
      if k > 0 { Shifted(n, 10, Pow10(k - 1)); }
    }
  }

  function Place16(n: nat, k: nat): (d: nat)
    ensures d < 16
  {
    n / Pow16(k) % 16
  }

  lemma PlaceStarts(n: nat)
    ensures Place16(n, 0) == n % 16
  {
  }

  lemma PlaceShifts(n: nat, k: nat)
    requires k > 0
    ensures Place16(n, k) == Place16(n / 16, k - 1)
  {
    Shifted(n, 16, Pow16(k - 1));
  }

  lemma {:induction false} HexPlace(n: nat, width: nat, k: nat)
    requires k < width
    ensures Hex(n, width)[width - 1 - k] == HEX[Place16(n, k)]
    ensures UpperHex(n, width)[width - 1 - k] == UPPER[Place16(n, k)]
    decreases width
  {
    hide Place16;
    if k == 0 {
      PlaceStarts(n);
    } else {
      HexPlace(n / 16, width - 1, k - 1);
      PlaceShifts(n, k);
    }
  }

  /** Hexadecimal digits, small and capital: the `k`-th from the right counts the powers of 16. */
  lemma HexPlaces(n: nat, width: nat, k: nat)
    requires k < width
    ensures Hex(n, width)[width - 1 - k] == HEX[n / Pow16(k) % 16]
    ensures UpperHex(n, width)[width - 1 - k] == UPPER[n / Pow16(k) % 16]
  {
    hide Hex, UpperHex, HEX, UPPER;
    HexPlace(n, width, k);
  }
}

/** Integer and real helpers shared by the limiters and the price formulas. */
module Arith {

  function Min(a: int, b: int): int {
    if a <= b then a else b
  }

  function Max(a: int, b: int): int {
    if a >= b then a else b
  }

  function MinR(a: real, b: real): real {
    if a <= b then a else b
  }

  function MaxR(a: real, b: real): real {
    if a >= b then a else b
  }

  /** A real number without a fractional part. */
  predicate Whole(x: real) {
    x.Floor as real == x
  }

  /** Between whole numbers, one below the other, adding one does not pass it. */
  lemma WholeStep(x: real, y: real)
    ensures Whole(x) && Whole(y) && x < y ==> x + 1.0 <= y
  {
    if Whole(x) && Whole(y) && x < y {
      assert x.Floor < y.Floor;
    }
  }

  /** A whole number moved by an integer stays whole. */
  lemma WholeShift(x: real, n: int)
    ensures Whole(x) ==> Whole(x + n as real)
  {
    if Whole(x) {
      assert (x + n as real).Floor == x.Floor + n;
    }
  }

  function Pow(b: nat, n: nat): (r: nat)
    ensures b >= 1 ==> r >= 1
  {
    if n == 0 then 1 else b * Pow(b, n - 1)
  }

  /** `(num / den) ** n` as an exact rational: `Math.pow(1.5, i)` is `Growth(3, 2, i)`. */
  function Growth(num: nat, den: nat, n: nat): real
    requires den >= 1
  {
    Pow(num, n) as real / Pow(den, n) as real
  }

  lemma PowMonotone(b: nat, m: nat, n: nat)
    requires b >= 1 && m <= n
    ensures Pow(b, m) <= Pow(b, n)
    decreases n
  {
    if n > m {
      PowMonotone(b, m, n - 1);
      Grows(b, Pow(b, n - 1));
    }
  }

  lemma Grows(b: nat, p: nat)
    requires b >= 1
    ensures p <= b * p
  {
  }

  /** `Math.floor(m / n)` for a positive divisor is integer division. */
  lemma FloorOfQuotient(m: int, n: int)
    requires n > 0
    ensures (m as real / n as real).Floor == m / n
  {
    var q := m / n;
    var r := m % n;
    assert m == q * n + r;
    assert m as real / n as real == q as real + r as real / n as real;
    assert 0.0 <= r as real / n as real < 1.0;
  }

  lemma PowBase(a: nat)
    ensures Pow(2, a) <= Pow(3, a)
  {
  }

  lemma DivTimesLe(m: int, n: int)
    requires n > 0
    ensures (m / n) * n <= m
  {
  }

  lemma DivLowerBound(q: int, m: int, n: int)
    requires n > 0 && q * n <= m
    ensures q <= m / n
  {
    var d := m / n;
    var r := m % n;
    assert m == d * n + r && r < n;
    if q > d {
      var e := q - d;
      MulAtLeast(e, n);
    }
  }

  lemma MulAtLeast(e: int, n: int)
    requires e >= 1 && n > 0
    ensures e * n >= n
  {
  }

  /** Dividing the floor of a non-negative number is flooring its quotient:
      `Math.floor(Math.floor(y) / n) == Math.floor(y / n)`. */
  lemma FloorThenDivide(y: real, n: int)
    requires y >= 0.0 && n > 0
    ensures y.Floor / n == (y / n as real).Floor
  {
    var f := y.Floor;
    var q := f / n;
    var r := f % n;
    assert f == q * n + r && 0 <= r < n;
    var z := y / n as real;
    assert z * n as real == y;
    assert (q * n) as real <= y;
    assert y < ((q + 1) * n) as real;
    assert q as real <= z < (q + 1) as real;
  }

  /** A product is non-zero only when both factors are. */
  lemma ZeroFactor(x: real, y: real)
    ensures x * y != 0.0 ==> x != 0.0 && y != 0.0
  {
  }

  /** `(mp - open) * qty`, a price move over a quantity: with a positive
      quantity its sign is the sign of the move. */
  function Move(open: real, mp: real, qty: real): (m: real)
    ensures qty > 0.0 ==> (m > 0.0 <==> mp > open) && (m < 0.0 <==> mp < open)
    ensures m == 0.0 <== mp == open || qty == 0.0
  {
    var d := mp - open;
    assert qty > 0.0 && d > 0.0 ==> d * qty > 0.0;
    assert qty > 0.0 && d < 0.0 ==> d * qty < 0.0;
    d * qty
  }

  /** `d > 0 ? n / d : 0` */
  function Ratio(n: real, d: real): (r: real)
    ensures d > 0.0 ==> r * d == n
    ensures d <= 0.0 ==> r == 0.0
  {
    if d > 0.0 then n / d else 0.0
  }

  /** `notional > 0 ? (part / whole) * 100 : 0` */
  function Percent(part: real, whole: real): (r: real)
    ensures whole > 0.0 ==> r * whole == part * 100.0
    ensures whole <= 0.0 ==> r == 0.0
    ensures whole > 0.0 && part == whole ==> r == 100.0
  {
    if whole > 0.0 then
      assert part == whole ==> part / whole == 1.0;
      part / whole * 100.0
    else 0.0
  }
}

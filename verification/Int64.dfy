// Signed 64-bit integers as the generated code computes with them.
module Int64 {

  const MIN: int := -0x8000_0000_0000_0000
  const MAX: int := 0x7FFF_FFFF_FFFF_FFFF
  const MODULUS: int := 0x1_0000_0000_0000_0000

  predicate Fits(x: int) {
    MIN <= x <= MAX
  }

  // A 64-bit literal, or a constant known to be one.
  type Literal = x: int | Fits(x) witness 0

  // A checked operation: its exact result, or a panic.
  datatype Checked = Value(v: int) | Panic

  function Check(x: int): (r: Checked)
    ensures r.Value? <==> Fits(x)
  {
    if Fits(x) then Value(x) else Panic
  }

  // Two's complement: the value of the low 64 bits of `x`.
  function Wrap(x: int): (r: int)
    ensures Fits(r)
  {
    var low := x % MODULUS;
    if low > MAX then low - MODULUS else low
  }

  function Pow(b: int, n: nat): int {
    if n == 0 then 1 else b * Pow(b, n - 1)
  }

  function TruncDiv(l: int, r: int): int
    requires r != 0
  {
    if l >= 0 then (if r > 0 then l / r else -(l / -r))
    else if r > 0 then -(-l / r) else -l / -r
  }

  // Toward zero: what is left over is smaller than the divisor and has the
  // dividend's sign.
  lemma TruncDivTruncates(l: int, r: int)
    requires r != 0
    ensures var rest := l - TruncDiv(l, r) * r;
            (if l >= 0 then 0 <= rest else rest <= 0) && (if r > 0 then -r < rest < r else r < rest < -r)
  {
    var n, d := if l >= 0 then l else -l, if r > 0 then r else -r;
    var q := n / d;
    assert n == q * d + n % d;
    assert (-q) * r == -(q * r) && q * -r == -(q * r);
  }

  function FloorDiv(l: int, r: int): int
    requires r > 0
  {
    if l >= 0 then l / r else -((-l + r - 1) / r)
  }

  // EmitCheckedShl: the amount first, then whether shifting back recovers.
  function CheckedShl(l: int, r: int): Checked {
    if r < 0 || r >= 64 then Panic
    else
      var shifted := Wrap(l * Pow(2, r));
      if FloorDiv(shifted, PowPositive(r)) != l then Panic else Value(shifted)
  }

  function PowPositive(r: nat): (p: int)
    ensures p == Pow(2, r) > 0
  {
    if r == 0 then 1 else 2 * PowPositive(r - 1)
  }

  lemma PowSplit(r: nat, m: nat)
    requires r <= m
    ensures Pow(2, m) == Pow(2, r) * Pow(2, m - r)
  {
    if r > 0 {
      PowSplit(r - 1, m - 1);
    }
  }

  lemma PowTwo64()
    ensures Pow(2, 64) == MODULUS
  {
    assert Pow(2, 4) == 16;
    PowSplit(4, 8);
    PowSplit(8, 16);
    PowSplit(16, 32);
    PowSplit(32, 64);
  }

  // Shifting back recovers the operand exactly when the true product fits.
  lemma ShlTrapsExactlyOnOverflow(l: int, r: nat)
    requires Fits(l) && r < 64
    ensures CheckedShl(l, r) == Check(l * Pow(2, r))
  {
    var p := PowPositive(r);
    var x := l * p;
    if Fits(x) {
      WrapOfFitting(x);
      FloorDivExact(l, p);
    } else {
      WrappedProductIsMoved(l, r);
    }
  }

  // The wrapped product differs by a multiple of 2**64, so of 2**r: shifting
  // it back gives another operand.
  lemma WrappedProductIsMoved(l: int, r: nat)
    requires r < 64 && !Fits(l * Pow(2, r))
    ensures FloorDiv(Wrap(l * Pow(2, r)), PowPositive(r)) != l
  {
    var p, q := PowPositive(r), PowPositive(64 - r);
    PowTwo64();
    PowSplit(r, 64);
    var k := WrapShift(l * p);
    calc {
      l * p + k * MODULUS;
      l * p + k * (p * q);
      { MulAssociates(k, p, q); }
      l * p + k * q * p;
      { Distributes(l, k * q, p); }
      (l + k * q) * p;
    }
    FloorDivExact(l + k * q, p);
    NonZeroProduct(k, q);
  }

  lemma MulAssociates(k: int, p: int, q: int)
    ensures k * (p * q) == k * q * p
  {
  }

  lemma Distributes(a: int, b: int, p: int)
    ensures a * p + b * p == (a + b) * p
  {
  }

  lemma NonZeroProduct(k: int, q: int)
    requires k != 0 && q > 0
    ensures k * q != 0
  {
  }

  lemma WrapOfFitting(x: int)
    requires Fits(x)
    ensures Wrap(x) == x
  {
  }

  lemma WrapShift(x: int) returns (k: int)
    ensures Wrap(x) == x + k * MODULUS
    ensures !Fits(x) ==> k != 0
  {
    k := -(x / MODULUS) - if x % MODULUS > MAX then 1 else 0;
  }

  lemma FloorDivExact(l: int, p: int)
    requires p > 0
    ensures FloorDiv(l * p, p) == l
  {
    if l >= 0 {
      assert l * p >= 0;
      DivExact(l, p, 0);
    } else {
      assert l * p < 0;
      assert -(l * p) == -l * p;
      DivExact(-l, p, p - 1);
    }
  }

  lemma DivExact(l: nat, p: int, rest: nat)
    requires p > 0 && rest < p
    ensures (l * p + rest) / p == l
  {
    var x := l * p + rest;
    QuotientIsUnique(p, x / p, x % p, l, rest, x);
  }

  lemma QuotientIsUnique(p: int, q: int, m: int, l: int, rest: int, x: int)
    requires p > 0 && 0 <= m < p && 0 <= rest < p
    requires x == p * q + m && x == l * p + rest
    ensures q == l
  {
    var d := l - q;
    assert p * d == p * l - p * q;
    MultipleIsFar(p, d);
  }

  lemma MultipleIsFar(p: int, d: int)
    requires p > 0
    ensures d > 0 ==> p * d >= p
    ensures d < 0 ==> p * d <= -p
  {
  }
}

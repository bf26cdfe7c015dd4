// The arithmetic constants are folded in: 65-bit two's complement, each
// operation with LLVM's signed-overflow flag.
module WideInt {
  import opened Options
  import opened Int64

  const HALF: int := 0x1_0000_0000_0000_0000
  const FULL: int := 0x2_0000_0000_0000_0000

  datatype Wide = Wide(v: int, overflow: bool)

  predicate FitsWide(x: int) {
    -HALF <= x < HALF
  }

  function WrapWide(x: int): (r: int)
    ensures FitsWide(r)
  {
    var low := x % FULL;
    if low >= HALF then low - FULL else low
  }

  // sadd_ov: operands of one sign, a result of the other.
  function AddWide(l: int, r: int): Wide {
    var v := WrapWide(l + r);
    Wide(v, (l >= 0) == (r >= 0) && (v >= 0) != (l >= 0))
  }

  function SubWide(l: int, r: int): Wide {
    var v := WrapWide(l - r);
    Wide(v, (l >= 0) != (r >= 0) && (v >= 0) != (l >= 0))
  }

  // smul_ov: dividing the product by one operand does not give the other.
  function MulWide(l: int, r: int): Wide {
    var v := WrapWide(l * r);
    Wide(v, r != 0 && (TruncDiv(v, r) != l || (l == -HALF && r == -1)))
  }

  function DivWide(l: int, r: int): Wide
    requires r != 0
  {
    Wide(WrapWide(TruncDiv(l, r)), l == -HALF && r == -1)
  }

  // The flag clear and the result representable in 64 bits.
  function Narrowed(w: Wide): Option<Literal> {
    if w.overflow || !Fits(w.v) then None else Some(w.v)
  }

  function Exactly(x: int): Option<Literal> {
    if Fits(x) then Some(x) else None
  }

  lemma WrapOfFittingWide(x: int)
    requires FitsWide(x)
    ensures WrapWide(x) == x
  {
  }

  // On 64-bit operands the test is whether the exact result fits 64 bits.
  lemma WideSumIsExact(l: int, r: int)
    requires Fits(l) && Fits(r)
    ensures Narrowed(AddWide(l, r)) == Exactly(l + r)
    ensures Narrowed(SubWide(l, r)) == Exactly(l - r)
  {
    hide WrapWide;
    WrapOfFittingWide(l + r);
    WrapOfFittingWide(l - r);
  }

  lemma WideProductIsExact(l: int, r: int)
    requires Fits(l) && Fits(r)
    ensures Narrowed(MulWide(l, r)) == Exactly(l * r)
  {
    hide TruncDiv, WrapWide;
    if r == 0 {
      WrapOfFittingWide(l * r);
    } else if FitsWide(l * r) {
      WrapOfFittingWide(l * r);
      TruncDivOfProduct(l, r);
    } else {
      WrappedProductDivides(l, r, l * r);
    }
  }

  // A product that wraps is too far off to divide back.
  lemma WrappedProductDivides(l: int, r: int, x: int)
    requires Fits(l) && Fits(r) && r != 0 && x == l * r && !FitsWide(x)
    ensures TruncDiv(WrapWide(x), r) != l
  {
    hide TruncDiv, WrapWide;
    var q := TruncDiv(WrapWide(x), r);
    TruncDivTruncates(WrapWide(x), r);
    WrapMovesFar(x);
    assert q == l ==> q * r == x;
  }

  lemma WrapMovesFar(x: int)
    requires !FitsWide(x)
    ensures WrapWide(x) - x >= FULL || x - WrapWide(x) >= FULL
  {
    var k := x / FULL;
    assert x == k * FULL + x % FULL;
  }

  lemma SignedProduct(q: int, b: int)
    ensures (-q) * b == -(q * b) && (-q) * (-b) == q * b && q * (-b) == -(q * b)
  {
  }

  lemma TruncDivOfProduct(l: int, r: int)
    requires r != 0
    ensures TruncDiv(l * r, r) == l
  {
    hide TruncDiv;
    var q := TruncDiv(l * r, r);
    TruncDivTruncates(l * r, r);
    assert l * r - q * r == (l - q) * r;
    var b, d := if r > 0 then r else -r, l - q;
    SignedProduct(d, r);
    SignedProduct(r, d);
    MultipleIsFar(b, d);
  }

  lemma WideQuotientIsExact(l: int, r: int)
    requires Fits(l) && Fits(r) && r != 0
    ensures Narrowed(DivWide(l, r)) == Exactly(TruncDiv(l, r))
  {
    hide TruncDiv;
    QuotientIsSmaller(l, r);
    WrapOfFittingWide(TruncDiv(l, r));
  }

  lemma QuotientAtMost(a: nat, b: int)
    requires b > 0
    ensures 0 <= a / b <= a
  {
    var q := a / b;
    assert a == q * b + a % b;
    if q > 0 {
      MultipleIsFar(q, b);
    }
  }

  lemma QuotientIsSmaller(l: int, r: int)
    requires Fits(l) && Fits(r) && r != 0
    ensures MIN <= TruncDiv(l, r) <= -MIN
  {
    var a: int := if l >= 0 then l else -l;
    var b: int := if r > 0 then r else -r;
    QuotientAtMost(a, b);
  }

  // One quotient of 64-bit integers does not fit.
  lemma QuotientFits(l: int, r: int)
    requires Fits(l) && Fits(r) && r != 0
    ensures Fits(TruncDiv(l, r)) <==> !(l == MIN && r == -1)
  {
    QuotientIsSmaller(l, r);
    var a: int := if l >= 0 then l else -l;
    var b: int := if r > 0 then r else -r;
    if b > 1 {
      HalfAtMost(a, b);
    }
  }

  lemma HalfAtMost(a: nat, b: int)
    requires b > 1
    ensures 2 * (a / b) <= a
  {
    var q := a / b;
    assert a == q * b + a % b;
    assert q * b == 2 * q + q * (b - 2);
    if q > 0 {
      MultipleIsFar(q, b - 2);
    }
  }
}

// Checked exponentiation by squaring, and why no partial result traps early.
module IntPow {
  import opened Int64

  datatype Outcome = Result(v: int) | Overflow | NegativeExponent

  // The emitted loop: `res`, `b` and `e` are its three phi nodes.
  method CheckedIntPow(base: int, exp: int) returns (r: Outcome)
    requires Fits(base) && Fits(exp)
    ensures r.NegativeExponent? <==> exp < 0
    ensures exp >= 0 && Fits(Pow(base, exp)) ==> r == Result(Pow(base, exp))
    ensures exp >= 0 && !Fits(Pow(base, exp)) ==> r == Overflow
  {
    if exp < 0 {
      return NegativeExponent;
    }
    var res, b, e := 1, base, exp;
    while e != 0
      invariant e >= 0
      invariant res * Pow(b, e) == Pow(base, exp)
      invariant Fits(res) && Fits(b)
      invariant b != 0 ==> res != 0
      decreases e
    {
      var e2 := e / 2;
      PowOfSquare(b, e2);
      if e % 2 == 1 {
        OddStep(res, b, e);
        if !Fits(res * b) {
          return Overflow;
        }
        res := res * b;
      }
      if e2 == 0 {
        return Result(res);
      }
      SquareStep(res, b, e2);
      if !Fits(b * b) {
        return Overflow;
      }
      b := b * b;
      e := e2;
    }
    r := Result(res);
  }

  lemma {:induction false} PowOfSquare(b: int, n: nat)
    ensures Pow(b * b, n) == Pow(b, 2 * n)
  {
    if n > 0 {
      PowOfSquare(b, n - 1);
      assert Pow(b, 2 * n) == b * (b * Pow(b, 2 * n - 2));
      assert b * (b * Pow(b, 2 * n - 2)) == b * b * Pow(b, 2 * (n - 1));
    }
  }

  lemma {:induction false} PowAtLeast(b: int, n: nat)
    requires b >= 1
    ensures Pow(b, n) >= 1
    ensures n > 0 ==> Pow(b, n) >= b
  {
    if n > 0 {
      PowAtLeast(b, n - 1);
      assert b * Pow(b, n - 1) >= b * 1;
    }
  }

  // An even power of a non-zero number is positive.
  lemma EvenPowerPositive(b: int, n: nat)
    requires b != 0
    ensures Pow(b, 2 * n) >= 1
  {
    PowOfSquare(b, n);
    assert b * b >= 1;
    PowAtLeast(b * b, n);
  }

  // Scaling away from zero keeps an unrepresentable number unrepresentable.
  lemma ScalingUp(x: int, k: int)
    requires k >= 1 && !Fits(x)
    ensures !Fits(x * k)
  {
    if x > 0 {
      assert x * k >= x;
    } else {
      assert x * k <= x;
    }
  }

  // The product with the odd bit's base: the remaining factor is an even
  // power, so it cannot bring an overflow back into range.
  lemma OddStep(res: int, b: int, e: nat)
    requires e % 2 == 1
    ensures res * Pow(b, e) == res * b * Pow(b, e - 1)
    ensures !Fits(res * b) ==> !Fits(res * Pow(b, e))
    ensures b != 0 && res != 0 ==> res * b != 0
  {
    assert res * (b * Pow(b, e - 1)) == res * b * Pow(b, e - 1);
    if !Fits(res * b) {
      assert b != 0;
      EvenPowerPositive(b, e / 2);
      assert 2 * (e / 2) == e - 1;
      ScalingUp(res * b, Pow(b, e - 1));
    }
  }

  // No square is 2**63, so an overflowing square exceeds it, and so does
  // every non-zero multiple of its powers.
  lemma SquareStep(res: int, b: int, e2: nat)
    requires e2 > 0
    requires b != 0 ==> res != 0
    ensures !Fits(b * b) ==> !Fits(res * Pow(b * b, e2))
  {
    if !Fits(b * b) {
      SquareIsNotTwoTo63(b);
      PowAtLeast(b * b, e2);
      var p := Pow(b * b, e2);
      if res > 0 {
        assert res * p >= p;
      } else {
        assert res * p <= -p;
      }
    }
  }

  lemma SquareIsNotTwoTo63(b: int)
    requires b * b > MAX
    ensures b * b > MAX + 1
  {
    var a := if b < 0 then -b else b;
    assert a * a == b * b;
    SquareMonotone(a, 3037000499);
    SquareMonotone(3037000500, a);
    assert 3037000499 * 3037000499 < MAX + 1 < 3037000500 * 3037000500;
  }

  lemma SquareMonotone(a: nat, c: nat)
    ensures a <= c ==> a * a <= c * c
  {
    if a <= c {
      assert a * a <= a * c <= c * c;
    }
  }

  // The one power whose magnitude is past MAX and whose value is not.
  lemma MinusTwoTo63()
    ensures Fits(Pow(-2, 63)) && Pow(-2, 63) == MIN
  {
    PowOfSquare(-2, 31);
    PowOfSquare(4, 15);
    PowOfSquare(16, 7);
    PowOfSquare(256, 3);
    assert Pow(-2, 63) == -2 * Pow(-2, 62);
    assert Pow(4, 31) == 4 * Pow(4, 30);
    assert Pow(16, 15) == 16 * Pow(16, 14);
    assert Pow(256, 7) == 256 * Pow(256, 6);
    assert Pow(65536, 3) == 65536 * (65536 * (65536 * Pow(65536, 0)));
  }
}

/** Integer power by squaring: the constant folder of src/compiler/ir_optimizer.cpp and the run-time helper of
    src/compiler/native_compiler.cpp accept exactly the powers that fit in 64 bits. */
module IntPower {
  import opened Wrappers
  import opened Int64

  function Pow(a: int, n: nat): int {
    if n == 0 then 1 else a * Pow(a, n - 1)
  }

  lemma {:induction false} ProductAssoc(a: int, b: int, c: int)
    ensures a * (b * c) == (a * b) * c
  {
  }

  lemma {:induction false} PowSquare(f: int, k: nat)
    ensures Pow(f, 2 * k) == Pow(f * f, k)
  {
    if k > 0 {
      PowSquare(f, k - 1);
      assert Pow(f, 2 * k) == f * (f * Pow(f, 2 * k - 2));
      ProductAssoc(f, f, Pow(f, 2 * k - 2));
    }
  }

  lemma {:induction false} PowNotZero(f: int, n: nat)
    requires f != 0
    ensures Abs(Pow(f, n)) >= 1
  {
    if n > 0 {
      PowNotZero(f, n - 1);
      SignedProduct(f, Pow(f, n - 1));
      Grows(Abs(f), Abs(Pow(f, n - 1)));
    }
  }

  lemma {:induction false} Grows(x: nat, y: nat)
    requires x >= 1 && y >= 1
    ensures x * y >= x && x * y >= y
  {
  }

  lemma {:induction false} PowUnit(f: int, n: nat)
    requires Abs(f) <= 1
    ensures Abs(Pow(f, n)) <= 1
  {
    if n > 0 {
      PowUnit(f, n - 1);
      UnitProduct(f, Pow(f, n - 1));
    }
  }

  lemma {:induction false} UnitProduct(x: int, y: int)
    requires Abs(x) <= 1 && Abs(y) <= 1
    ensures Abs(x * y) <= 1
  {
    assert x == -1 || x == 0 || x == 1;
  }

  /** No square is 2^63: a square that leaves the range leaves it by more than one. */
  lemma {:induction false} SquareOverflow(f: int)
    requires !Fits(f * f)
    ensures f * f > MAX + 1 && Abs(f) >= 2
  {
    SignedProduct(f, f);
    if Abs(f) <= ROOT {
      SmallSquare(f);
      assert false;
    }
    MulBoth(ROOT + 1, Abs(f));
  }

  /** The largest magnitude whose square still fits. */
  const ROOT := 3037000499

  lemma {:induction false} SmallSquare(f: int)
    requires Abs(f) <= ROOT
    ensures Fits(f * f)
  {
    SignedProduct(f, f);
    MulBoth(Abs(f), ROOT);
  }

  lemma {:induction false} MulBoth(x: nat, y: nat)
    requires x <= y
    ensures x * x <= y * y
  {
  }

  /** Magnitudes only grow along the rest of the computation. */
  lemma {:induction false} TooBig(x: int, f: int, n: nat)
    requires f != 0 && Abs(x) > MAX + 1
    ensures !Fits(x * Pow(f, n))
  {
    PowNotZero(f, n);
    SignedProduct(x, Pow(f, n));
    Grows(Abs(x), Abs(Pow(f, n)));
  }

  /** A product that leaves the range by exactly one, 2^63, is still multiplied by at least four. */
  lemma {:induction false} BarelyTooBig(x: int, f: int, n: nat)
    requires Abs(f) >= 2 && !Fits(x) && n > 0
    ensures !Fits(x * Pow(f, n))
  {
    PowNotZero(f, n - 1);
    SignedProduct(f, Pow(f, n - 1));
    Doubles(Abs(f), Abs(Pow(f, n - 1)));
    SignedProduct(x, Pow(f, n));
    Doubles(Abs(Pow(f, n)), Abs(x));
  }

  lemma {:induction false} Doubles(x: nat, y: nat)
    requires x >= 2 && y >= 1
    ensures x * y >= 2 * y && x * y >= x && y * x >= 2 * y
  {
  }

  /** State of the squaring loop: what is left to multiply is `factor` to the `n`. */
  ghost predicate Squaring(a: int, b: nat, result: int, factor: int, n: nat) {
    && result * Pow(factor, n) == Pow(a, b)
    && (a != 0 ==> factor != 0 && result != 0)
    && (a == 0 ==> factor == 0)
    && (Abs(factor) <= 1 ==> Abs(result) <= 1)
  }

  lemma {:induction false} TakeOne(a: int, b: nat, result: int, factor: int, n: nat)
    requires Squaring(a, b, result, factor, n) && n % 2 == 1
    ensures Squaring(a, b, result * factor, factor, n - 1)
    ensures !Fits(result * factor) ==> !Fits(Pow(a, b))
  {
    ProductAssoc(result, factor, Pow(factor, n - 1));
    if Abs(factor) <= 1 {
      UnitProduct(result, factor);
    } else if !Fits(result * factor) && n > 1 {
      BarelyTooBig(result * factor, factor, n - 1);
    }
    if a != 0 { assert result * factor != 0 by { SignedProduct(result, factor); Grows(Abs(result), Abs(factor)); } }
  }

  lemma {:induction false} SquareOnce(a: int, b: nat, result: int, factor: int, n: nat)
    requires Squaring(a, b, result, factor, n) && n % 2 == 0 && n > 0
    ensures Squaring(a, b, result, factor * factor, n / 2)
    ensures !Fits(factor * factor) ==> !Fits(Pow(a, b))
  {
    PowSquare(factor, n / 2);
    SignedProduct(factor, factor);
    if factor != 0 { Grows(Abs(factor), Abs(factor)); }
    if !Fits(factor * factor) {
      SquareOverflow(factor);
      var rest := Pow(factor * factor, n / 2 - 1);
      ProductAssoc(result, factor * factor, rest);
      SignedProduct(result, factor * factor);
      Grows(Abs(result), Abs(factor * factor));
      TooBig(result * (factor * factor), factor * factor, n / 2 - 1);
    }
  }

  /** The squaring loop shared by the folder and the run-time helper. */
  method SquaringLoop(a: int64, b: nat) returns (r: Option<int64>)
    ensures r == if Fits(Pow(a, b)) then Some(Pow(a, b)) else None
  {
    var result: int64 := 1;
    var factor: int64 := a;
    var n := b;
    while n != 0
      invariant Squaring(a, b, result, factor, n)
    {
      if n % 2 == 1 {
        TakeOne(a, b, result, factor, n);
        var next := CheckedMul(result, factor);
        if next.None? { return None; }
        result := next.value;
        n := n - 1;
      }
      if n != 0 {
        SquareOnce(a, b, result, factor, n);
        var next := CheckedMul(factor, factor);
        if next.None? { return None; }
        factor := next.value;
      }
      n := n / 2;
    }
    return Some(result);
  }

  lemma {:induction false} TrivialBases(a: int, b: nat)
    ensures a == 0 && b > 0 ==> Pow(a, b) == 0
    ensures a == 1 ==> Pow(a, b) == 1
    ensures a == -1 ==> Pow(a, b) == if b % 2 == 1 then -1 else 1
  {
    if b > 0 { TrivialBases(a, b - 1); }
  }

  /** The POW branch of `parseConst`. */
  method FoldPower(a: int64, b: int64) returns (r: Option<int64>)
    requires b >= 0
    ensures r == if Fits(Pow(a, b)) then Some(Pow(a, b)) else None
  {
    if b > 63 {
      TrivialBases(a, b);
      if a == 0 { return Some(0); }
      if a == 1 { return Some(1); }
      if a == -1 { return Some(if b % 2 == 1 then -1 else 1); }
    }
    r := SquaringLoop(a, b);
  }

  /** `zl_safe_pow_i64`: a negative exponent raises, an overflow raises, anything else is the power. */
  method RuntimePower(base: int64, exponent: int64) returns (r: Option<int64>)
    ensures exponent < 0 ==> r == None
    ensures exponent >= 0 ==> r == if Fits(Pow(base, exponent)) then Some(Pow(base, exponent)) else None
  {
    if exponent < 0 { return None; }
    r := SquaringLoop(base, exponent);
  }
}

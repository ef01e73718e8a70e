/** Exact 64-bit integer arithmetic: the overflow guards of src/compiler/ir_optimizer.cpp, written with the
    comparisons the source makes, against the mathematical results. */
module Int64 {
  import opened Wrappers

  const MIN: int := -0x8000_0000_0000_0000
  const MAX: int := 0x7fff_ffff_ffff_ffff

  predicate Fits(x: int) {
    MIN <= x <= MAX
  }

  type int64 = x: int | MIN <= x <= MAX

  // ---------- division that truncates toward zero ----------

  function Abs(x: int): nat {
    if x < 0 then -x else x
  }

  /** The C++ quotient. */
  function TruncDiv(x: int, y: int): (q: int)
    requires y != 0
    ensures Abs(q * y) <= Abs(x) < Abs(q * y) + Abs(y)
    ensures q != 0 ==> ((q > 0) <==> ((x > 0) == (y > 0)))
  {
    SignedQuotient(x, y);
    SignedProduct(Abs(x) / Abs(y), y);
    SignedProduct(-(Abs(x) / Abs(y)), y);
    if (x < 0) == (y < 0) then Abs(x) / Abs(y) else -(Abs(x) / Abs(y))
  }

  lemma {:induction false} SignedQuotient(x: int, y: int)
    requires y != 0
    ensures var n := Abs(x) / Abs(y); 0 <= n && n * Abs(y) <= Abs(x) < n * Abs(y) + Abs(y) && (n > 0 ==> x != 0)
  {
    QuotientBounds(Abs(x), Abs(y));
  }

  /** The C++ remainder. */
  function TruncMod(x: int, y: int): (r: int)
    requires y != 0
    ensures Abs(r) < Abs(y)
  {
    var q := TruncDiv(x, y);
    RemainderSmall(x, y, q);
    x - q * y
  }

  lemma {:induction false} QuotientBounds(a: nat, b: nat)
    requires b > 0
    ensures (a / b) * b <= a < (a / b) * b + b
  {
  }

  lemma {:induction false} SignedProduct(q: int, y: int)
    ensures Abs(q * y) == Abs(q) * Abs(y)
  {
  }

  lemma {:induction false} RemainderSmall(x: int, y: int, q: int)
    requires y != 0 && Abs(q * y) <= Abs(x) < Abs(q * y) + Abs(y)
    requires q != 0 ==> ((q > 0) <==> ((x > 0) == (y > 0)))
    ensures Abs(x - q * y) < Abs(y)
  {
    if q != 0 {
      SameSign(x, y, q);
    }
  }

  lemma {:induction false} SameSign(x: int, y: int, q: int)
    requires y != 0 && q != 0 && Abs(q * y) <= Abs(x) && ((q > 0) <==> ((x > 0) == (y > 0)))
    ensures q * y > 0 <==> x > 0
  {
    if q > 0 {
      if y > 0 { assert q * y > 0; } else { assert q * -y > 0; assert q * y == -(q * -y); }
    } else {
      if y > 0 { assert -q * y > 0; assert q * y == -(-q * y); } else { assert -q * -y > 0; assert q * y == -q * -y; }
    }
  }

  /** Only MIN / -1 leaves the range. */
  lemma {:induction false} QuotientFits(x: int64, y: int64)
    requires y != 0 && !(x == MIN && y == -1)
    ensures Fits(TruncDiv(x, y)) && Fits(TruncMod(x, y))
  {
    var q := TruncDiv(x, y);
    SignedProduct(q, y);
    if Abs(y) == 1 {
      assert Abs(q) * 1 <= Abs(x);
    } else {
      Halves(Abs(q), Abs(y));
    }
  }

  lemma {:induction false} Halves(q: nat, y: nat)
    requires y >= 2
    ensures 2 * q <= q * y
  {
  }

  // ---------- the guarded operations ----------

  function CheckedAdd(a: int64, b: int64): (r: Option<int64>)
    ensures r == if Fits(a + b) then Some(a + b) else None
  {
    if (b > 0 && a > MAX - b) || (b < 0 && a < MIN - b) then None else Some(a + b)
  }

  function CheckedSub(a: int64, b: int64): (r: Option<int64>)
    ensures r == if Fits(a - b) then Some(a - b) else None
  {
    if (b > 0 && a < MIN + b) || (b < 0 && a > MAX + b) then None else Some(a - b)
  }

  /** The comparisons `checkedMul` makes before multiplying. */
  predicate MulOverflows(a: int64, b: int64)
    requires a != 0 && b != 0
  {
    if a == -1 then b == MIN
    else if b == -1 then a == MIN
    else if a > 0 then
      if b > 0 then a > TruncDiv(MAX, b) else b < TruncDiv(MIN, a)
    else
      if b > 0 then a < TruncDiv(MIN, b) else b < TruncDiv(MAX, a)
  }

  function CheckedMul(a: int64, b: int64): (r: Option<int64>)
    ensures r == if Fits(a * b) then Some(a * b) else None
  {
    if a == 0 || b == 0 then Some(0)
    else
      MulGuardExact(a, b);
      if MulOverflows(a, b) then None else Some(a * b)
  }

  /** The guard fires exactly when the product leaves the range. */
  lemma {:induction false} MulGuardExact(a: int64, b: int64)
    requires a != 0 && b != 0
    ensures MulOverflows(a, b) <==> !Fits(a * b)
  {
    if a == -1 || b == -1 {
    } else if a > 0 {
      if b > 0 { AboveQuotient(a, b, MAX); } else { BelowQuotient(b, a, MIN); MulSymmetric(a, b); }
    } else {
      if b > 0 { BelowQuotient(a, b, MIN); } else { NegativeQuotient(b, a, MAX); MulSymmetric(a, b); }
    }
  }

  lemma {:induction false} MulSymmetric(a: int, b: int)
    ensures a * b == b * a
  {
  }

  /** For positive `b`: `a * b` exceeds `top` exactly when `a` exceeds the truncated quotient. */
  lemma {:induction false} AboveQuotient(a: int, b: int, top: int)
    requires a > 0 && b > 0 && top > 0
    ensures a > TruncDiv(top, b) <==> a * b > top
    ensures a * b > 0
  {
    var q := TruncDiv(top, b);
    if a > q { MulMonotone(q + 1, a, b); } else { MulMonotone(a, q, b); }
  }

  /** For negative `a` and positive `b`: `a * b` is below `bottom` exactly when `a` is below the quotient. */
  lemma {:induction false} BelowQuotient(a: int, b: int, bottom: int)
    requires a < 0 && b > 0 && bottom < 0
    ensures a < TruncDiv(bottom, b) <==> a * b < bottom
    ensures a * b < 0
  {
    var q := TruncDiv(bottom, b);
    if a < q { MulMonotone(a, q - 1, b); } else { MulMonotone(q, a, b); }
    MulMonotone(a, -1, b);
  }

  lemma {:induction false} NegativeQuotient(b: int, a: int, top: int)
    requires a < 0 && b < 0 && top > 0
    ensures b < TruncDiv(top, a) <==> b * a > top
    ensures b * a > 0
  {
    var q := TruncDiv(top, a);
    assert b * a == -b * -a && q * a == -q * -a;
    if b < q { MulMonotone(-q + 1, -b, -a); } else { MulMonotone(-b, -q, -a); }
    MulMonotone(1, -b, -a);
  }

  lemma {:induction false} MulMonotone(x: int, y: int, k: int)
    requires x <= y && k > 0
    ensures x * k <= y * k
  {
  }
}

/** The bit operations of the virtual machine and its folders on 64-bit integers (src/vm/vm.cpp, src/compiler/compiler.cpp):
    the patterns are unsigned, the values signed. */
module Bits {
  import opened Int64

  const SPAN: int := 0x1_0000_0000_0000_0000

  /** The bit pattern of `x`, read as an unsigned number. */
  function Pattern(x: int): (u: int)
    ensures 0 <= u < SPAN
  {
    x % SPAN
  }

  /** The signed number with the pattern of `x`. */
  function Wrap(x: int): (r: int64)
    ensures (r - x) % SPAN == 0
  {
    WrapMeans(x);
    (x - MIN) % SPAN + MIN
  }

  lemma {:induction false} WrapMeans(x: int)
    ensures ((x - MIN) % SPAN + MIN - x) % SPAN == 0
  {
    var q := (x - MIN) / SPAN;
    assert (x - MIN) % SPAN + MIN - x == -q * SPAN;
    MultipleOfSpan(-q);
  }

  lemma {:induction false} MultipleOfSpan(q: int)
    ensures (q * SPAN) % SPAN == 0
  {
  }

  /** Two numbers in the range with the same pattern are the same. */
  lemma {:induction false} WrapUnique(x: int, r: int)
    requires Fits(r) && (r - x) % SPAN == 0
    ensures Wrap(x) == r
  {
    var a, b := (r - x) / SPAN, (Wrap(x) - x) / SPAN;
    assert r - Wrap(x) == (a - b) * SPAN;
  }

  function Pow2(n: nat): (r: nat)
    ensures r > 0
  {
    if n == 0 then 1 else 2 * Pow2(n - 1)
  }

  lemma {:induction false} Pow2Sum(m: nat, n: nat)
    ensures Pow2(m) * Pow2(n) == Pow2(m + n)
  {
    if m > 0 {
      Pow2Sum(m - 1, n);
      assert Pow2(m) * Pow2(n) == 2 * (Pow2(m - 1) * Pow2(n));
    }
  }

  lemma {:induction false} SpanIsPower()
    ensures Pow2(64) == SPAN
  {
    hide Pow2;
    SmallPower();
    Pow2Sum(8, 8);
    Pow2Sum(16, 16);
    Pow2Sum(32, 32);
  }

  lemma {:induction false} SmallPower()
    ensures Pow2(8) == 256
  {
    assert Pow2(3) == 8 && Pow2(5) == 4 * Pow2(3);
    assert Pow2(8) == 8 * Pow2(5);
  }

  // ---------- and, or, exclusive or, not ----------

  /** Bit `k` of a pattern. */
  predicate BitAt(u: nat, k: nat) {
    if k == 0 then u % 2 == 1 else BitAt(u / 2, k - 1)
  }

  /** Bit `k` of a number in two's complement. */
  predicate Bit(x: int64, k: nat) {
    BitAt(Pattern(x), k)
  }

  /** `n` bits, each made of the bits of `u` and `v` in its place. */
  function Combine(f: (bool, bool) -> bool, u: nat, v: nat, n: nat): nat {
    if n == 0 then 0 else 2 * Combine(f, u / 2, v / 2, n - 1) + if f(u % 2 == 1, v % 2 == 1) then 1 else 0
  }

  function BitAnd(x: int64, y: int64): int64 {
    Wrap(Combine((p, q) => p && q, Pattern(x), Pattern(y), 64))
  }

  function BitOr(x: int64, y: int64): int64 {
    Wrap(Combine((p, q) => p || q, Pattern(x), Pattern(y), 64))
  }

  function BitXor(x: int64, y: int64): int64 {
    Wrap(Combine((p, q) => p != q, Pattern(x), Pattern(y), 64))
  }

  function BitNot(x: int64): int64 {
    -1 - x
  }

  lemma {:induction false} CombineBit(f: (bool, bool) -> bool, u: nat, v: nat, n: nat, k: nat)
    requires k < n
    ensures BitAt(Combine(f, u, v, n), k) <==> f(BitAt(u, k), BitAt(v, k))
  {
    var rest := Combine(f, u / 2, v / 2, n - 1);
    var low := if f(u % 2 == 1, v % 2 == 1) then 1 else 0;
    Halved(rest, low);
    if k > 0 { CombineBit(f, u / 2, v / 2, n - 1, k - 1); }
  }

  lemma {:induction false} Halved(rest: nat, low: nat)
    requires low < 2
    ensures (2 * rest + low) / 2 == rest && (2 * rest + low) % 2 == low
  {
  }

  lemma {:induction false} CombineSmall(f: (bool, bool) -> bool, u: nat, v: nat, n: nat)
    ensures Combine(f, u, v, n) < Pow2(n)
  {
    if n > 0 { CombineSmall(f, u / 2, v / 2, n - 1); }
  }

  lemma {:induction false} PatternWrap(u: int)
    requires 0 <= u < SPAN
    ensures Pattern(Wrap(u)) == u
  {
  }

  lemma {:induction false} WrappedBit(f: (bool, bool) -> bool, x: int64, y: int64, k: nat)
    requires k < 64
    ensures Bit(Wrap(Combine(f, Pattern(x), Pattern(y), 64)), k) <==> f(Bit(x, k), Bit(y, k))
  {
    hide Wrap, Pattern, Combine, Pow2;
    CombineBit(f, Pattern(x), Pattern(y), 64, k);
    CombineSmall(f, Pattern(x), Pattern(y), 64);
    SpanIsPower();
    PatternWrap(Combine(f, Pattern(x), Pattern(y), 64));
  }

  /** Each bit of the result is made of the bits of the operands in its place. */
  lemma {:induction false} BitByBit(x: int64, y: int64, k: nat)
    requires k < 64
    ensures Bit(BitAnd(x, y), k) <==> Bit(x, k) && Bit(y, k)
    ensures Bit(BitOr(x, y), k) <==> Bit(x, k) || Bit(y, k)
    ensures Bit(BitXor(x, y), k) <==> Bit(x, k) != Bit(y, k)
    ensures Bit(BitNot(x), k) <==> !Bit(x, k)
  {
    hide Bit, Combine, Wrap;
    WrappedBit((p, q) => p && q, x, y, k);
    WrappedBit((p, q) => p || q, x, y, k);
    WrappedBit((p, q) => p != q, x, y, k);
    NotBit(x, k);
  }

  lemma {:induction false} Complement(u: nat, n: nat, k: nat)
    requires u < Pow2(n) && k < n
    ensures BitAt(Pow2(n) - 1 - u, k) <==> !BitAt(u, k)
  {
    var half := Pow2(n - 1) - 1 - u / 2;
    Halved(half, 1 - u % 2);
    assert Pow2(n) - 1 - u == 2 * half + (1 - u % 2);
    if k > 0 { Complement(u / 2, n - 1, k - 1); }
  }

  lemma {:induction false} NotBit(x: int64, k: nat)
    requires k < 64
    ensures Bit(BitNot(x), k) <==> !Bit(x, k)
  {
    hide Pow2, BitAt;
    SpanIsPower();
    Complement(Pattern(x), 64, k);
    assert Pattern(BitNot(x)) == SPAN - 1 - Pattern(x);
  }

  /** Numbers with the same 64 bits are the same. */
  lemma {:induction false} BitsDetermine(x: int64, y: int64)
    requires forall k: nat :: k < 64 ==> (Bit(x, k) <==> Bit(y, k))
    ensures x == y
  {
    hide Pow2;
    SpanIsPower();
    forall k: nat | k < 64 ensures BitAt(Pattern(x), k) <==> BitAt(Pattern(y), k) { assert Bit(x, k) <==> Bit(y, k); }
    PatternsDetermine(Pattern(x), Pattern(y), 64);
  }

  lemma {:induction false} PatternsDetermine(u: nat, v: nat, n: nat)
    requires u < Pow2(n) && v < Pow2(n) && forall k: nat :: k < n ==> (BitAt(u, k) <==> BitAt(v, k))
    ensures u == v
  {
    if n > 0 {
      assert BitAt(u, 0) <==> BitAt(v, 0);
      forall k: nat | k < n - 1 ensures BitAt(u / 2, k) <==> BitAt(v / 2, k) { assert BitAt(u, k + 1) <==> BitAt(v, k + 1); }
      PatternsDetermine(u / 2, v / 2, n - 1);
    }
  }

  // ---------- shifts ----------

  function ShiftLeft(x: int64, n: nat): int64 {
    Wrap(Pattern(x) * Pow2(n))
  }

  function ShiftRightLogical(x: int64, n: nat): int64 {
    Wrap(Pattern(x) / Pow2(n))
  }

  /** The pattern shifted down, and for a negative number the vacated upper bits filled with ones. The shifted pattern
      has none of them, so filling is adding. */
  function ShiftRight(x: int64, n: nat): int64
    requires n < 64
  {
    var shifted := Pattern(x) / Pow2(n);
    Wrap(if x < 0 && n != 0 then shifted + (SPAN - Pow2(64 - n)) else shifted)
  }

  /** Filling with the sign makes the shift a division that rounds down. */
  lemma {:induction false} ShiftRightDivides(x: int64, n: nat)
    requires n < 64
    ensures ShiftRight(x, n) == x / Pow2(n)
  {
    hide Pow2, Wrap, Pattern;
    PatternOf(x);
    if x >= 0 {
      QuotientInRange(x, Pow2(n));
      WrapSame(x / Pow2(n));
    } else if n == 0 {
      NoShift();
      WrapSpan(x);
    } else {
      SpanIsPower();
      Pow2Sum(n, 64 - n);
      FilledShift(x, Pow2(n), Pow2(64 - n));
    }
  }

  lemma {:induction false} PatternOf(x: int64)
    ensures Pattern(x) == if x < 0 then x + SPAN else x
  {
  }

  lemma {:induction false} WrapSame(x: int64)
    ensures Wrap(x) == x
  {
  }

  lemma {:induction false} WrapSpan(x: int64)
    ensures Wrap(x + SPAN) == x
  {
    WrapUnique(x + SPAN, x);
  }

  lemma {:induction false} FilledShift(x: int64, p: int, q: int)
    requires p > 0 && p * q == SPAN
    ensures Wrap((x + SPAN) / p + (SPAN - q)) == x / p
  {
    ShiftedBy(x, p, q);
    QuotientInRange(x, p);
    WrapSpan(x / p);
  }

  lemma {:induction false} NoShift()
    ensures Pow2(0) == 1
  {
  }

  lemma {:induction false} ShiftedBy(x: int, p: int, q: int)
    requires p > 0
    ensures (x + p * q) / p == x / p + q
  {
    var r := x % p;
    assert x + p * q == (x / p + q) * p + r;
    QuotientUnique(x + p * q, p, x / p + q, r);
  }

  lemma {:induction false} QuotientUnique(a: int, p: int, q: int, r: int)
    requires p > 0 && 0 <= r < p && a == q * p + r
    ensures a / p == q
  {
    var d := a / p - q;
    assert a % p - r == -d * p;
    Scaled(d, p);
    Scaled(-d, p);
  }

  lemma {:induction false} QuotientInRange(x: int64, p: int)
    requires p > 0
    ensures Fits(x / p)
  {
    var q := x / p;
    assert x == q * p + x % p;
    Scaled(q, p);
  }

  lemma {:induction false} Scaled(q: int, p: int)
    requires p >= 1
    ensures q >= 0 ==> q * p >= q
    ensures q >= 1 ==> q * p >= p
    ensures q <= -1 ==> q * p <= q && q * p <= -p
  {
    if q >= 1 { assert q * p == p + (q - 1) * p; }
    if q <= -1 { assert q * p == -p + (q + 1) * p; }
  }

  /** Shifting left multiplies, as far as the pattern has room. */
  lemma {:induction false} ShiftLeftMultiplies(x: int64, n: nat)
    ensures (ShiftLeft(x, n) - x * Pow2(n)) % SPAN == 0
  {
    hide Pow2, Wrap;
    var u, p := Pattern(x), Pow2(n);
    var q := x / SPAN;
    var r := ShiftLeft(x, n);
    assert u == x - q * SPAN;
    assert (r - u * p) % SPAN == 0;
    var d := (r - u * p) / SPAN;
    assert r - u * p == d * SPAN;
    Regroup(x, q, p, d);
    assert r - x * p == (d - q * p) * SPAN;
    MultipleOfSpan(d - q * p);
  }

  lemma {:induction false} Regroup(x: int, q: int, p: int, d: int)
    ensures d * SPAN + (x - q * SPAN) * p - x * p == (d - q * p) * SPAN
  {
  }

  /** Shifting right without the sign divides the pattern. */
  lemma {:induction false} ShiftRightLogicalDivides(x: int64, n: nat)
    ensures Pattern(ShiftRightLogical(x, n)) == Pattern(x) / Pow2(n)
  {
    hide Pow2, Wrap, Pattern;
    QuotientSmall(Pattern(x), Pow2(n));
    PatternWrap(Pattern(x) / Pow2(n));
  }

  lemma {:induction false} QuotientSmall(u: int, p: int)
    requires 0 <= u < SPAN && p >= 1
    ensures 0 <= u / p < SPAN
  {
    var q := u / p;
    assert u == q * p + u % p;
    Scaled(q, p);
  }
}

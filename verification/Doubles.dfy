/** The double nearest to an integer (`static_cast<double>` in src/mir/folding.cpp): 53 significant bits, ties to even. */
module Doubles {

  /** Up to here every integer is a double: 2^53. */
  const EXACT: int := 0x20_0000_0000_0000

  /** The distance between doubles around `n`. */
  function Spacing(n: nat): (s: nat)
    ensures s >= 1
  {
    if n < EXACT then 1 else 2 * Spacing(n / 2)
  }

  /** Does `q` and a remainder of `r` out of `s` round up? */
  predicate Up(q: int, r: int, s: int) {
    2 * r > s || (2 * r == s && q % 2 == 1)
  }

  function RoundNat(n: nat): int {
    var s := Spacing(n);
    (if Up(n / s, n % s, s) then n / s + 1 else n / s) * s
  }

  /** The result is a whole number again. */
  function Round(i: int): int {
    if i < 0 then -RoundNat(-i) else RoundNat(i)
  }

  lemma {:induction false} RoundSmall(i: int)
    requires -EXACT <= i <= EXACT
    ensures Round(i) == i
  {
    var n := if i < 0 then -i else i;
    if n == EXACT { assert Spacing(n) == 2 * Spacing(n / 2) && Spacing(n / 2) == 1; }
  }

  lemma {:induction false} SpacingBounds(n: nat)
    ensures n < EXACT * Spacing(n)
    ensures n >= EXACT ==> EXACT / 2 * Spacing(n) <= n
  {
    if n >= EXACT { SpacingBounds(n / 2); }
  }

  lemma {:induction false} SpacingGrows(m: nat, n: nat)
    requires m <= n
    ensures Spacing(m) == Spacing(n) || 2 * Spacing(m) <= Spacing(n)
  {
    if m >= EXACT { SpacingGrows(m / 2, n / 2); }
  }

  lemma {:induction false} SpacingOne(n: nat)
    requires n < EXACT
    ensures Spacing(n) == 1
  {
  }

  lemma {:induction false} Times(a: int, b: int, s: int)
    requires a <= b && s >= 0
    ensures a * s <= b * s
  {
    assert (b - a) * s >= 0;
  }

  lemma {:induction false} QuotientBound(n: nat, s: nat, k: nat)
    requires s >= 1
    ensures n < k * s ==> n / s < k
    ensures k * s <= n ==> k <= n / s
  {
    var q := n / s;
    assert q * s <= n < (q + 1) * s;
    if n < k * s && q >= k { Times(k, q, s); assert false; }
    if k * s <= n && k > q { Times(q + 1, k, s); assert false; }
  }

  /** Rounding goes to one of the two neighbours. */
  lemma {:induction false} RoundBetween(n: nat)
    ensures var s := Spacing(n); n / s * s <= RoundNat(n) <= (n / s + 1) * s
  {
    var s := Spacing(n);
    Times(n / s, n / s + 1, s);
  }

  lemma {:induction false} Division(n: nat, s: nat)
    requires s >= 1
    ensures n == n / s * s + n % s
  {
  }

  lemma {:induction false} SameSpacing(m: nat, n: nat, s: nat)
    requires m <= n && s == Spacing(m) == Spacing(n)
    ensures RoundNat(m) <= RoundNat(n)
  {
    hide Spacing, Up;
    var p, q := m / s, n / s;
    Division(m, s);
    Division(n, s);
    QuotientBound(n, s, p);
    if p < q {
      RoundBetween(m);
      RoundBetween(n);
      Times(p + 1, q, s);
    } else {
      assert p == q;
      if Up(p, m % s, s) { UpMore(p, m % s, n % s, s); }
      Times(p, p + 1, s);
    }
  }

  lemma {:induction false} UpMore(q: int, r: int, t: int, s: int)
    requires r <= t && Up(q, r, s)
    ensures Up(q, t, s)
  {
  }

  lemma {:induction false} RoundMonotone(m: nat, n: nat)
    requires m <= n
    ensures RoundNat(m) <= RoundNat(n)
  {
    var s, t := Spacing(m), Spacing(n);
    SpacingGrows(m, n);
    if s == t {
      SameSpacing(m, n, s);
    } else {
      SpacingBounds(m);
      SpacingBounds(n);
      RoundBetween(m);
      RoundBetween(n);
      QuotientBound(m, s, EXACT);
      Times(m / s + 1, EXACT, s);
      if n < EXACT { SpacingOne(n); }
      QuotientBound(n, t, EXACT / 2);
      Times(EXACT / 2, n / t, t);
    }
  }

  lemma {:induction false} NotNegative(n: nat)
    ensures RoundNat(n) >= 0
  {
    hide Up, Spacing;
    Times(0, n / Spacing(n), Spacing(n));
    Times(0, n / Spacing(n) + 1, Spacing(n));
  }

  /** Rounding keeps the order of integers, though it may make different ones equal. */
  lemma {:induction false} RoundKeepsOrder(x: int, y: int)
    requires x <= y
    ensures Round(x) <= Round(y)
  {
    hide RoundNat;
    if x >= 0 {
      RoundMonotone(x, y);
    } else if y < 0 {
      RoundMonotone(-y, -x);
    } else {
      NotNegative(-x);
      NotNegative(y);
    }
  }

  lemma {:induction false} RoundAtMost(n: nat)
    ensures RoundNat(n) <= 2 * n + 1
  {
    hide RoundNat;
    RoundBetween(n);
    SpacingBounds(n);
    Division(n, Spacing(n));
    if n < EXACT { SpacingOne(n); }
  }

  /** 2^53 and its successor are different integers and the same double. */
  lemma {:induction false} NeighboursCollide()
    ensures Round(EXACT) == Round(EXACT + 1) == EXACT
  {
    assert Spacing(EXACT / 2) == 1 && Spacing((EXACT + 1) / 2) == 1;
    assert Spacing(EXACT) == 2 && Spacing(EXACT + 1) == 2;
    assert (EXACT + 1) / 2 == EXACT / 2 && (EXACT + 1) % 2 == 1 && (EXACT / 2) % 2 == 0;
  }

  // ---------- the nearest double ----------

  function Power2(k: nat): (r: nat)
    ensures r >= 1
  {
    if k == 0 then 1 else 2 * Power2(k - 1)
  }

  /** A whole number with at most 53 significant bits: `m` times a power of two. */
  ghost predicate IsDouble(d: int, m: nat, k: nat) {
    m < EXACT && d == m * Power2(k)
  }

  lemma {:induction false} SpacingIsPower(n: nat) returns (k: nat)
    ensures Spacing(n) == Power2(k)
  {
    if n < EXACT {
      k := 0;
    } else {
      var j := SpacingIsPower(n / 2);
      k := j + 1;
    }
  }

  /** What rounds is a double. */
  lemma {:induction false} RoundIsDouble(n: nat) returns (m: nat, k: nat)
    ensures IsDouble(RoundNat(n), m, k)
  {
    hide Spacing, Power2;
    var s := Spacing(n);
    k := SpacingIsPower(n);
    SpacingBounds(n);
    QuotientBound(n, s, EXACT);
    Times(0, n / s, s);
    m := if Up(n / s, n % s, s) then n / s + 1 else n / s;
    if m == EXACT {
      Carry(k);
      m, k := EXACT / 2, k + 1;
    }
  }

  lemma {:induction false} Carry(k: nat)
    ensures EXACT * Power2(k) == EXACT / 2 * Power2(k + 1)
  {
    assert Power2(k + 1) == 2 * Power2(k);
  }

  lemma {:induction false} PowersDivide(j: nat, k: nat) returns (q: nat)
    requires j <= k
    ensures Power2(k) == q * Power2(j)
  {
    if j == k {
      q := 1;
    } else {
      var h := PowersDivide(j, k - 1);
      q := 2 * h;
      Doubling(h, Power2(j));
    }
  }

  lemma {:induction false} Doubling(h: int, p: int)
    ensures 2 * h * p == 2 * (h * p)
  {
  }

  /** From `EXACT / 2` spacings on, doubles are whole multiples of the spacing. */
  lemma {:induction false} DoubleOnGrid(d: nat, m: nat, k: nat, j: nat) returns (q: nat)
    requires IsDouble(d, m, k) && EXACT / 2 * Power2(j) <= d
    ensures d == q * Power2(j)
  {
    hide Power2;
    if j <= k {
      var h := PowersDivide(j, k);
      q := m * h;
      Assoc(m, h, Power2(j));
    } else {
      var h := PowersDivide(k + 1, j);
      TooSmall(m, k, j, h);
      assert false;
    }
  }

  lemma {:induction false} Assoc(a: int, b: int, c: int)
    ensures a * (b * c) == a * b * c
  {
  }

  /** Below its grid a double is below `EXACT / 2` spacings. */
  lemma {:induction false} TooSmall(m: nat, k: nat, j: nat, h: nat)
    requires m < EXACT && Power2(j) == h * Power2(k + 1)
    ensures m * Power2(k) < EXACT / 2 * Power2(j)
  {
    var p := Power2(k);
    assert Power2(k + 1) == 2 * p;
    if h == 0 { assert false; }
    Times(1, h, 2 * p);
    Times(m, EXACT - 1, p);
    assert (EXACT - 1) * p < EXACT * p == EXACT / 2 * (2 * p);
    Times(2 * p, Power2(j), EXACT / 2);
  }

  /** No double is nearer, and of two that are equally near the even multiple of their distance is taken. */
  lemma {:induction false} RoundNearest(n: nat, d: nat, m: nat, k: nat)
    requires IsDouble(d, m, k)
    ensures Distance(n, RoundNat(n)) <= Distance(n, d)
    ensures d != RoundNat(n) && Distance(n, RoundNat(n)) == Distance(n, d) ==> exists e: nat :: RoundNat(n) == 2 * e * Spacing(n)
  {
    var s := Spacing(n);
    var q := n / s;
    Division(n, s);
    SpacingBounds(n);
    if n < EXACT {
      SpacingOne(n);
    } else {
      QuotientBound(n, s, EXACT / 2);
      Times(EXACT / 2, q, s);
      Neighbours(n, d, m, k, q, s);
      Nearer(n, d, q, s);
    }
  }

  lemma {:induction false} Neighbours(n: nat, d: nat, m: nat, k: nat, q: nat, s: nat)
    requires IsDouble(d, m, k) && s == Spacing(n) && EXACT / 2 * s <= q * s
    ensures d <= q * s || d >= (q + 1) * s
  {
    hide Spacing, IsDouble, Power2;
    if d > q * s {
      var j := SpacingIsPower(n);
      var g := DoubleOnGrid(d, m, k, j);
      if g <= q { Times(g, q, s); assert false; }
      Times(q + 1, g, s);
    }
  }

  function Distance(a: int, b: int): nat { if a < b then b - a else a - b }

  lemma {:induction false} Nearer(n: nat, d: nat, q: nat, s: nat)
    requires s == Spacing(n) && q == n / s && n == q * s + n % s && (d <= q * s || d >= (q + 1) * s)
    ensures Distance(n, RoundNat(n)) <= Distance(n, d)
    ensures d != RoundNat(n) && Distance(n, RoundNat(n)) == Distance(n, d) ==> exists e: nat :: RoundNat(n) == 2 * e * s
  {
    hide Spacing;
    var r := n % s;
    var low, high := q * s, (q + 1) * s;
    assert high == low + s;
    if d != RoundNat(n) && Distance(n, RoundNat(n)) == Distance(n, d) {
      assert 2 * r == s || r == 0;
      if 2 * r == s {
        var even := if q % 2 == 0 then q else q + 1;
        assert RoundNat(n) == even * s;
        var e := even / 2;
        assert even == 2 * e;
        assert RoundNat(n) == 2 * e * s;
      }
    }
  }
}

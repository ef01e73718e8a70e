/** What the operators and loops of the language mean, told by arithmetic: the operations of src/vm/vm.cpp that both the
    source semantics and the machine use. */
module LanguageLaws {
  import opened Wrappers
  import opened Int64
  import opened BytecodeVm
  import opened SourceLanguage
  import Bits
  import IntPower

  // ---------- operators ----------

  /** Nil, false and zero, and nothing else, count as false. */
  lemma {:induction false} FalseValues(v: Value)
    ensures !Truthy(v) <==> v == Nil || v == Bool(false) || v == Int(0)
  {
  }

  /** Sums, differences and products are exact, or an arithmetic error where no 64-bit integer is the result. */
  lemma {:induction false} ExactArithmetic(x: int64, y: int64, r: Result<Value>)
    ensures r == ApplyBinary(Add, Int(x), Int(y)) <==> r == if Fits(x + y) then Ok(Int(x + y)) else Err(ArithmeticError)
    ensures r == ApplyBinary(Sub, Int(x), Int(y)) <==> r == if Fits(x - y) then Ok(Int(x - y)) else Err(ArithmeticError)
    ensures r == ApplyBinary(Mul, Int(x), Int(y)) <==> r == if Fits(x * y) then Ok(Int(x * y)) else Err(ArithmeticError)
  {
  }

  /** What a quotient and a remainder that round towards zero are. */
  predicate Divides(x: int, y: int, q: int, r: int) {
    && x == q * y + r && Abs(r) < Abs(y)
    && (r != 0 ==> (r > 0 <==> x > 0))
  }

  lemma {:induction false} RemainderSign(x: int, y: int)
    requires y != 0
    ensures Divides(x, y, TruncDiv(x, y), TruncMod(x, y))
  {
    hide TruncDiv;
    var q := TruncDiv(x, y);
    assert Abs(q * y) <= Abs(x);
    SignOf(x, y, q);
  }

  lemma {:induction false} SignOf(x: int, y: int, q: int)
    requires y != 0 && Abs(q * y) <= Abs(x) && (q != 0 ==> (q > 0 <==> (x > 0) == (y > 0)))
    ensures x - q * y != 0 ==> (x - q * y > 0 <==> x > 0)
  {
    if q != 0 {
      if (q > 0) == (y > 0) { Positive(q, y); } else { Positive(-q, y); assert q * y == -(-q * y); }
    }
  }

  lemma {:induction false} Positive(q: int, y: int)
    requires q != 0 && y != 0 && ((q > 0) == (y > 0))
    ensures q * y > 0
  {
    if q < 0 { assert q * y == -q * -y; }
  }

  /** Division and remainder fit together and round towards zero; division by zero raises, and so does the one quotient that
      does not fit. */
  lemma {:induction false} DivisionLaw(x: int64, y: int64)
    ensures y == 0 ==> ApplyBinary(Div, Int(x), Int(y)) == ApplyBinary(Mod, Int(x), Int(y)) == Err(ArithmeticError)
    ensures y != 0 && !(x == MIN && y == -1) ==>
              exists q: int64, r: int64 ::
                ApplyBinary(Div, Int(x), Int(y)) == Ok(Int(q)) && ApplyBinary(Mod, Int(x), Int(y)) == Ok(Int(r)) && Divides(x, y, q, r)
    ensures ApplyBinary(Div, Int(MIN), Int(-1)) == Err(ArithmeticError) && ApplyBinary(Mod, Int(MIN), Int(-1)) == Ok(Int(0))
  {
    if y != 0 && !(x == MIN && y == -1) {
      hide TruncDiv, TruncMod, Divides;
      QuotientFits(x, y);
      RemainderSign(x, y);
      var q: int64 := TruncDiv(x, y);
      var r: int64 := TruncMod(x, y);
      assert ApplyBinary(Div, Int(x), Int(y)) == Ok(Int(q)) && ApplyBinary(Mod, Int(x), Int(y)) == Ok(Int(r));
    }
  }

  /** A power is a product of equal factors. */
  lemma {:induction false} PowerLaw(x: int64, n: int64, p: int64)
    requires 0 <= n < MAX
    ensures ApplyBinary(Pow, Int(x), Int(0)) == Ok(Int(1))
    ensures ApplyBinary(Pow, Int(x), Int(n)) == Ok(Int(p)) ==> ApplyBinary(Pow, Int(x), Int(n + 1)) == ApplyBinary(Mul, Int(p), Int(x))
    ensures n > 0 ==> ApplyBinary(Pow, Int(x), Int(-n)) == Err(RuntimeError)
  {
    hide IntPower.Pow;
    OnePower(x, n);
  }

  lemma {:induction false} OnePower(x: int, n: nat)
    ensures IntPower.Pow(x, 0) == 1 && IntPower.Pow(x, n + 1) == IntPower.Pow(x, n) * x
  {
  }

  /** The order of integers: `x` is below what a positive number leads to from it, and that is not below `x`. Any two
      different integers stand in this relation, one way or the other. */
  lemma {:induction false} OrderLaw(x: int64, d: int)
    requires d > 0 && Fits(x + d)
    ensures ApplyBinary(Lt, Int(x), Int(x + d)) == ApplyBinary(Lte, Int(x), Int(x + d)) == Ok(Bool(true))
    ensures ApplyBinary(Gt, Int(x), Int(x + d)) == ApplyBinary(Gte, Int(x), Int(x + d)) == Ok(Bool(false))
    ensures ApplyBinary(Lt, Int(x + d), Int(x)) == ApplyBinary(Lte, Int(x + d), Int(x)) == Ok(Bool(false))
    ensures ApplyBinary(Gt, Int(x + d), Int(x)) == ApplyBinary(Gte, Int(x + d), Int(x)) == Ok(Bool(true))
    ensures ApplyBinary(Lt, Int(x), Int(x)) == ApplyBinary(Gt, Int(x), Int(x)) == Ok(Bool(false))
    ensures ApplyBinary(Lte, Int(x), Int(x)) == ApplyBinary(Gte, Int(x), Int(x)) == Ok(Bool(true))
  {
  }

  /** Equality is sameness, on all values. */
  lemma {:induction false} EqualityLaw(a: Value, b: Value)
    ensures ApplyBinary(Eq, a, b) == Ok(Bool(a == b)) && ApplyBinary(Neq, a, b) == Ok(Bool(a != b))
  {
  }

  /** Every other operator takes integers only. */
  lemma {:induction false} OnlyIntegers(op: BinaryOp, a: Value, b: Value)
    requires op != Eq && op != Neq && !(a.Int? && b.Int?)
    ensures ApplyBinary(op, a, b) == Err(RuntimeError)
  {
  }

  /** The bit operators work bit by bit, and shifts multiply and divide by powers of two; other shift counts raise. */
  lemma {:induction false} BitLaw(x: int64, y: int64, k: nat)
    requires k < 64
    ensures exists r: int64 :: ApplyBinary(BitAnd, Int(x), Int(y)) == Ok(Int(r)) && (Bits.Bit(r, k) <==> Bits.Bit(x, k) && Bits.Bit(y, k))
    ensures exists r: int64 :: ApplyBinary(BitOr, Int(x), Int(y)) == Ok(Int(r)) && (Bits.Bit(r, k) <==> Bits.Bit(x, k) || Bits.Bit(y, k))
    ensures exists r: int64 :: ApplyBinary(BitXor, Int(x), Int(y)) == Ok(Int(r)) && (Bits.Bit(r, k) <==> Bits.Bit(x, k) != Bits.Bit(y, k))
    ensures exists r: int64 :: ApplyUnary(BitNot, Int(x)) == Ok(Int(r)) && (Bits.Bit(r, k) <==> !Bits.Bit(x, k))
  {
    hide Bits.Bit, Bits.BitAnd, Bits.BitOr, Bits.BitXor, Bits.BitNot;
    Bits.BitByBit(x, y, k);
    assert ApplyBinary(BitAnd, Int(x), Int(y)) == Ok(Int(Bits.BitAnd(x, y)));
    assert ApplyBinary(BitOr, Int(x), Int(y)) == Ok(Int(Bits.BitOr(x, y)));
    assert ApplyBinary(BitXor, Int(x), Int(y)) == Ok(Int(Bits.BitXor(x, y)));
    assert ApplyUnary(BitNot, Int(x)) == Ok(Int(Bits.BitNot(x)));
  }

  lemma {:induction false} ShiftLaw(x: int64, y: int64)
    ensures y < 0 || y >= 64 ==> forall op :: op in {Shl, Shr, Ushr} ==> ApplyBinary(op, Int(x), Int(y)) == Err(RuntimeError)
    ensures 0 <= y < 64 ==>
              && (exists r: int64 :: ApplyBinary(Shl, Int(x), Int(y)) == Ok(Int(r)) && (r - x * Bits.Pow2(y)) % Bits.SPAN == 0)
              && ApplyBinary(Shr, Int(x), Int(y)) == Ok(Int(Bits.ShiftRight(x, y))) && Bits.ShiftRight(x, y) == x / Bits.Pow2(y)
              && (exists r: int64 :: ApplyBinary(Ushr, Int(x), Int(y)) == Ok(Int(r)) && Bits.Pattern(r) == Bits.Pattern(x) / Bits.Pow2(y))
  {
    hide Bits.ShiftLeft, Bits.ShiftRight, Bits.ShiftRightLogical, Bits.Pattern, Bits.Pow2;
    if 0 <= y < 64 {
      Bits.ShiftLeftMultiplies(x, y);
      Bits.ShiftRightDivides(x, y);
      Bits.ShiftRightLogicalDivides(x, y);
      assert ApplyBinary(Shl, Int(x), Int(y)) == Ok(Int(Bits.ShiftLeft(x, y)));
      assert ApplyBinary(Ushr, Int(x), Int(y)) == Ok(Int(Bits.ShiftRightLogical(x, y)));
    }
  }

  lemma {:induction false} NegationLaw(v: Value)
    ensures ApplyUnary(Not, v) == Ok(Bool(v == Nil || v == Bool(false) || v == Int(0)))
    ensures v.Int? ==> ApplyUnary(Neg, v) == ApplyBinary(Sub, Int(0), v)
    ensures !v.Int? ==> ApplyUnary(Neg, v) == ApplyUnary(BitNot, v) == Err(RuntimeError)
  {
  }

  // ---------- for loops ----------

  /** How many values lie on the way from `a` to `b` in steps of `s`, `b` not included. */
  function Count(a: int, b: int, s: int): nat
    requires s != 0
    decreases if s > 0 then (if a < b then b - a else 0) else (if a > b then a - b else 0)
  {
    if (s > 0 && a < b) || (s < 0 && a > b) then 1 + Count(a + s, b, s) else 0
  }

  /** The values of the count are exactly those on the way. */
  lemma {:induction false} CountedValues(a: int, b: int, s: int, k: nat)
    requires s != 0
    ensures k < Count(a, b, s) <==> if s > 0 then a + k * s < b else a + k * s > b
    decreases if s > 0 then (if a < b then b - a else 0) else (if a > b then a - b else 0)
  {
    if (s > 0 && a < b) || (s < 0 && a > b) {
      if k > 0 {
        CountedValues(a + s, b, s, k - 1);
        assert a + s + (k - 1) * s == a + k * s;
      }
    } else {
      Away(k, s);
    }
  }

  lemma {:induction false} Away(k: nat, s: int)
    ensures s > 0 ==> k * s >= 0
    ensures s < 0 ==> k * s <= 0
  {
    if s < 0 { assert k * s == -(k * -s); }
  }

  /** A body that always ends normally (or by `continue`) when it has at least `need` fuel, and leaves `x` as it was. */
  ghost predicate LeavesAlone(body: Stmt, x: string, need: nat) {
    forall env: Env, fuel: nat {:trigger Exec(body, env, fuel)} :: fuel >= need && x in env.vars ==>
      var r := Exec(body, env, fuel);
      (r.Normal? || r.Continued?) && x in r.env.vars && r.env.vars[x] == env.vars[x]
  }

  /** Run the body once for each of `n` values `a`, `a + s` and so on, with `x` bound to the value; `x` ends one step later. */
  ghost function RunOver(x: string, a: int, s: int, n: nat, body: Stmt, env: Env, fuel: nat, need: nat): Env
    requires LeavesAlone(body, x, need) && Fits(a) && (forall k :: 0 <= k <= n ==> Fits(a + k * s)) && fuel >= n + need
    decreases n
  {
    var here := Bind(env, x, Int(a));
    if n == 0 then here
    else
      Shifted(a, s, n);
      RunOver(x, a + s, s, n - 1, body, Exec(body, here, fuel).env, fuel - 1, need)
  }

  lemma {:induction false} Shifted(a: int, s: int, n: nat)
    requires n > 0 && forall k :: 0 <= k <= n ==> Fits(a + k * s)
    ensures Fits(a + s) && forall k :: 0 <= k <= n - 1 ==> Fits(a + s + k * s)
  {
    assert Fits(a + 1 * s);
    forall k | 0 <= k <= n - 1 ensures Fits(a + s + k * s) {
      assert Fits(a + (k + 1) * s);
      assert a + (k + 1) * s == a + s + k * s;
    }
  }

  /** A `for` loop from `a` to `b` in steps of `s` runs its body for exactly the values on the way, in order. */
  lemma {:induction false} ForCounts(x: string, a: int64, b: int64, s: int64, body: Stmt, env: Env, fuel: nat, need: nat)
    requires s != 0 && LeavesAlone(body, x, need) && fuel > Count(a, b, s) + need
    requires forall k :: 0 <= k <= Count(a, b, s) ==> Fits(a + k * s)
    ensures ExecFor(x, Int(b), Int(s), body, Bind(env, x, Int(a)), fuel)
         == Normal(RunOver(x, a, s, Count(a, b, s), body, env, fuel, need))
    decreases Count(a, b, s)
  {
    hide Exec, LeavesAlone;
    var n := Count(a, b, s);
    var here := Bind(env, x, Int(a));
    CountedValues(a, b, s, 0);
    if n > 0 {
      Shifted(a, s, n);
      BodyRuns(body, x, need, here, fuel);
      var r := Exec(body, here, fuel);
      ForCounts(x, a + s, b, s, body, r.env, fuel - 1, need);
    }
  }

  lemma {:induction false} BodyRuns(body: Stmt, x: string, need: nat, env: Env, fuel: nat)
    requires LeavesAlone(body, x, need) && fuel >= need && x in env.vars
    ensures var r := Exec(body, env, fuel); (r.Normal? || r.Continued?) && x in r.env.vars && r.env.vars[x] == env.vars[x]
  {
    hide Exec;
  }

  /** A step of zero raises, and so does a loop over anything but integers. */
  lemma {:induction false} ForRaises(x: string, end: Value, step: Value, body: Stmt, env: Env, fuel: nat)
    requires fuel > 0 && x in env.vars
    requires step == Int(0) || !env.vars[x].Int? || !end.Int? || !step.Int?
    ensures ExecFor(x, end, step, body, env, fuel) == Threw(RuntimeError, env)
  {
  }

  /** A step that would leave the 64-bit range raises after the body. */
  lemma {:induction false} ForOverflows(x: string, a: int64, b: int64, s: int64, body: Stmt, env: Env, fuel: nat, need: nat)
    requires s != 0 && LeavesAlone(body, x, need) && fuel > need && Count(a, b, s) > 0 && !Fits(a + s)
    ensures ExecFor(x, Int(b), Int(s), body, Bind(env, x, Int(a)), fuel)
         == Threw(ArithmeticError, Exec(body, Bind(env, x, Int(a)), fuel).env)
  {
    hide Exec, LeavesAlone;
    CountedValues(a, b, s, 0);
    BodyRuns(body, x, need, Bind(env, x, Int(a)), fuel);
  }

  /** The loop that logs its variable logs exactly the values on the way. */
  lemma {:induction false} ForLogs(x: string, a: int64, b: int64, s: int64, env: Env, fuel: nat)
    requires s != 0 && fuel > Count(a, b, s) && forall k :: 0 <= k <= Count(a, b, s) ==> Fits(a + k * s)
    ensures var r := Exec(For(x, Lit(Int(a)), Lit(Int(b)), Lit(Int(s)), LogStmt(Var(x))), env, fuel);
            && r.Normal? && |r.env.out| == |env.out| + Count(a, b, s)
            && r.env.out[..|env.out|] == env.out
            && forall k: nat :: k < Count(a, b, s) ==> Fits(a + k * s) && r.env.out[|env.out| + k] == Int(a + k * s)
  {
    hide ExecFor, RunOver;
    LogLeaves(x);
    ForCounts(x, a, b, s, LogStmt(Var(x)), env, fuel, 0);
    OverLogs(x, a, s, Count(a, b, s), env, fuel);
  }

  lemma {:induction false} LogLeaves(x: string)
    ensures LeavesAlone(LogStmt(Var(x)), x, 0)
  {
  }

  lemma {:induction false} OverLogs(x: string, a: int64, s: int64, n: nat, env: Env, fuel: nat)
    requires LeavesAlone(LogStmt(Var(x)), x, 0) && (forall k :: 0 <= k <= n ==> Fits(a + k * s)) && fuel >= n
    ensures var out := RunOver(x, a, s, n, LogStmt(Var(x)), env, fuel, 0).out;
            && |out| == |env.out| + n && out[..|env.out|] == env.out
            && forall k: nat :: k < n ==> out[|env.out| + k] == Int(a + k * s)
    decreases n
  {
    if n > 0 {
      Shifted(a, s, n);
      var r := Exec(LogStmt(Var(x)), Bind(env, x, Int(a)), fuel).env;
      assert r.out == env.out + [Int(a)];
      OverLogs(x, a + s, s, n - 1, r, fuel - 1);
      var out := RunOver(x, a, s, n, LogStmt(Var(x)), env, fuel, 0).out;
      assert out[..|env.out|] == env.out && out[|env.out|] == Int(a) by {
        assert out[..|env.out| + 1] == r.out;
        assert out[|env.out|] == out[..|env.out| + 1][|env.out|];
        assert out[..|env.out|] == out[..|env.out| + 1][..|env.out|];
      }
      forall k: nat | k < n ensures out[|env.out| + k] == Int(a + k * s) {
        if k > 0 {
          assert out[|r.out| + (k - 1)] == Int(a + s + (k - 1) * s);
          assert a + s + (k - 1) * s == a + k * s;
        }
      }
    }
  }
}

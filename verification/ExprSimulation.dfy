/** Running the code of an expression pushes exactly its value, or raises exactly its error. */
module ExprSimulation {
  import opened Wrappers
  import opened BytecodeVm
  import opened SourceLanguage
  import opened CodeShape

  // ---------- fragments of code ----------

  /** `frag` stands in `code` at `base`. */
  ghost predicate At(code: seq<Instr>, base: nat, frag: seq<Instr>) {
    base + |frag| <= |code| && forall i :: 0 <= i < |frag| ==> code[base + i] == frag[i]
  }

  lemma {:induction false} AtSplit(code: seq<Instr>, base: nat, a: seq<Instr>, b: seq<Instr>)
    requires At(code, base, a + b)
    ensures At(code, base, a) && At(code, base + |a|, b)
  {
    forall i | 0 <= i < |a| ensures code[base + i] == a[i] { assert (a + b)[i] == a[i]; }
    forall i | 0 <= i < |b| ensures code[base + |a| + i] == b[i] { assert (a + b)[|a| + i] == b[i]; }
  }

  lemma {:induction false} AtOne(code: seq<Instr>, base: nat, i: Instr)
    requires At(code, base, [i])
    ensures base < |code| && code[base] == i
  {
    assert code[base + 0] == [i][0];
  }

  // ---------- reaching a state ----------

  /** `c` reaches `d` in at least `k` steps. */
  ghost predicate Reaches(code: seq<Instr>, c: Config, d: Config, k: nat) {
    exists n: nat :: n >= k && Run(code, c, n) == d
  }

  lemma {:induction false} ReachesTrans(code: seq<Instr>, c: Config, d: Config, e: Config, j: nat, k: nat)
    requires Reaches(code, c, d, j) && Reaches(code, d, e, k)
    ensures Reaches(code, c, e, j + k)
  {
    var m: nat :| m >= j && Run(code, c, m) == d;
    var n: nat :| n >= k && Run(code, d, n) == e;
    RunAdd(code, c, m, n);
  }

  lemma {:induction false} ReachesFewer(code: seq<Instr>, c: Config, d: Config, j: nat, k: nat)
    requires Reaches(code, c, d, j) && k <= j
    ensures Reaches(code, c, d, k)
  {
  }

  lemma {:induction false} ReachesSelf(code: seq<Instr>, c: Config)
    ensures Reaches(code, c, c, 0)
  {
    assert Run(code, c, 0) == c;
  }

  /** Going on by one instruction. */
  lemma {:induction false} ReachesStep(code: seq<Instr>, c: Config, d: Config, k: nat)
    requires d.Running? && d.pc < |code| && Reaches(code, c, d, k)
    ensures Reaches(code, c, Do(code[d.pc], d), k)
  {
    var n: nat :| n >= k && Run(code, c, n) == d;
    RunAdd(code, c, n, 1);
    assert Run(code, d, 1) == Run(code, Step(code, d), 0);
    assert n + 1 >= k && Run(code, c, n + 1) == Do(code[d.pc], d);
  }

  lemma {:induction false} FirstStep(code: seq<Instr>, c: Config)
    requires c.Running? && c.pc < |code|
    ensures Reaches(code, c, Do(code[c.pc], c), 1)
  {
    assert Run(code, c, 1) == Run(code, Step(code, c), 0);
  }

  // ---------- expressions ----------

  function AfterExpr(r: Evaluated, pc: nat, stack: Stack, temps: map<Temp, Value>): Config {
    match r
    case Got(v, env) => Running(pc, Push(v, stack), env, temps)
    case Failed(e, env) => Raised(e, env)
  }

  ghost predicate SimulatesExpr(code: seq<Instr>, e: Expr, base: nat, stack: Stack, env: Env, temps: map<Temp, Value>) {
    Reaches(code, Running(base, stack, env, temps), AfterExpr(Eval(e, env), base + ExprLen(e), stack, temps), 1)
  }

  /** The code of `e`, wherever it stands, pushes exactly the value of `e` on an otherwise unchanged stack, or raises
      the error `e` raises; the variables and the log end up as evaluation leaves them. */
  lemma {:induction false} ExprSim(code: seq<Instr>, e: Expr, base: nat, stack: Stack, env: Env, temps: map<Temp, Value>)
    requires At(code, base, ExprCode(e, base))
    ensures SimulatesExpr(code, e, base, stack, env, temps)
    decreases e, 1
  {
    hide Reaches, Do;
    if TryFold(e).Some? {
      ConstSim(code, e, TryFold(e).value, base, stack, env, temps);
    } else {
      match e
      case Lit(v) => ConstSim(code, e, v, base, stack, env, temps);
      case Var(x) => VarSim(code, e, base, stack, env, temps);
      case UnaryExpr(_, _) => UnarySim(code, e, base, stack, env, temps);
      case BinaryExpr(_, _, _) => BinarySim(code, e, base, stack, env, temps);
      case AndExpr(_, _) => AndSim(code, e, base, stack, env, temps);
      case OrExpr(_, _) => OrSim(code, e, base, stack, env, temps);
      case Assign(_, _) => AssignSim(code, e, base, stack, env, temps);
    }
  }

  lemma {:induction false} ConstSim(code: seq<Instr>, e: Expr, v: Value, base: nat, stack: Stack, env: Env, temps: map<Temp, Value>)
    requires At(code, base, ExprCode(e, base)) && ExprCode(e, base) == [PushConst(v)]
    requires TryFold(e) == Some(v) || e == Lit(v)
    ensures SimulatesExpr(code, e, base, stack, env, temps)
  {
    hide Reaches;
    if TryFold(e).Some? { FoldIsEvaluation(e, env); }
    AtOne(code, base, PushConst(v));
    FirstStep(code, Running(base, stack, env, temps));
  }

  lemma {:induction false} VarSim(code: seq<Instr>, e: Expr, base: nat, stack: Stack, env: Env, temps: map<Temp, Value>)
    requires At(code, base, ExprCode(e, base)) && e.Var?
    ensures SimulatesExpr(code, e, base, stack, env, temps)
  {
    hide Reaches;
    AtOne(code, base, LoadVar(User(e.x)));
    FirstStep(code, Running(base, stack, env, temps));
  }

  lemma {:induction false} UnarySim(code: seq<Instr>, e: Expr, base: nat, stack: Stack, env: Env, temps: map<Temp, Value>)
    requires At(code, base, ExprCode(e, base)) && e.UnaryExpr?
    ensures SimulatesExpr(code, e, base, stack, env, temps)
    decreases e, 0
  {
    hide Reaches;
    var c := Running(base, stack, env, temps);
    AtSplit(code, base, ExprCode(e.operand, base), [Unary(e.un)]);
    var pc := base + ExprLen(e.operand);
    AtOne(code, pc, Unary(e.un));
    ExprSim(code, e.operand, base, stack, env, temps);
    var d := AfterExpr(Eval(e.operand, env), pc, stack, temps);
    if d.Running? { ReachesStep(code, c, d, 1); }
  }

  lemma {:induction false} BinarySim(code: seq<Instr>, e: Expr, base: nat, stack: Stack, env: Env, temps: map<Temp, Value>)
    requires At(code, base, ExprCode(e, base)) && e.BinaryExpr? && TryFold(e).None?
    ensures SimulatesExpr(code, e, base, stack, env, temps)
    decreases e, 0
  {
    hide Reaches;
    var c := Running(base, stack, env, temps);
    var mid := base + ExprLen(e.left);
    var pc := mid + ExprLen(e.right);
    AtSplit(code, base, ExprCode(e.left, base), ExprCode(e.right, mid) + [Binary(e.bin)]);
    AtSplit(code, mid, ExprCode(e.right, mid), [Binary(e.bin)]);
    AtOne(code, pc, Binary(e.bin));
    ExprSim(code, e.left, base, stack, env, temps);
    var a := Eval(e.left, env);
    if a.Got? {
      var d := AfterExpr(a, mid, stack, temps);
      ExprSim(code, e.right, mid, d.stack, a.env, temps);
      var f := AfterExpr(Eval(e.right, a.env), pc, d.stack, temps);
      ReachesTrans(code, c, d, f, 1, 1);
      ReachesFewer(code, c, f, 2, 1);
      if f.Running? { ReachesStep(code, c, f, 1); }
    }
  }

  lemma {:induction false} AssignSim(code: seq<Instr>, e: Expr, base: nat, stack: Stack, env: Env, temps: map<Temp, Value>)
    requires At(code, base, ExprCode(e, base)) && e.Assign?
    ensures SimulatesExpr(code, e, base, stack, env, temps)
    decreases e, 0
  {
    hide Reaches;
    var c := Running(base, stack, env, temps);
    var tail := [Dup, DefineVar(User(e.x))];
    AtSplit(code, base, ExprCode(e.rhs, base), tail);
    var pc := base + ExprLen(e.rhs);
    assert code[pc + 0] == tail[0] && code[pc + 1] == tail[1];
    ExprSim(code, e.rhs, base, stack, env, temps);
    var d := AfterExpr(Eval(e.rhs, env), pc, stack, temps);
    if d.Running? {
      ReachesStep(code, c, d, 1);
      ReachesStep(code, c, Do(Dup, d), 1);
    }
  }

  /** From the right operand of `&&` or `||` on: two negations make it a boolean, then the jump over the constant. */
  lemma {:induction false} RightOperandSim(code: seq<Instr>, c: Config, r: Expr, right: nat, stack: Stack, env: Env,
                                           temps: map<Temp, Value>, last: Instr)
    requires Reaches(code, c, Running(right, stack, env, temps), 1)
    requires var end := right + ExprLen(r) + 4;
             At(code, right, ExprCode(r, right) + [Unary(Not), Unary(Not), Jump(end), last])
    ensures var b := Eval(r, env);
            Reaches(code, c, AfterExpr(if b.Failed? then b else Got(Bool(Truthy(b.v)), b.env),
                                       right + ExprLen(r) + 4, stack, temps), 1)
    decreases r, 2
  {
    hide Reaches;
    var pc := right + ExprLen(r);
    var tail := [Unary(Not), Unary(Not), Jump(pc + 4), last];
    AtSplit(code, right, ExprCode(r, right), tail);
    assert code[pc + 0] == tail[0] && code[pc + 1] == tail[1] && code[pc + 2] == tail[2];
    ExprSim(code, r, right, stack, env, temps);
    var d := AfterExpr(Eval(r, env), pc, stack, temps);
    ReachesTrans(code, c, Running(right, stack, env, temps), d, 1, 1);
    ReachesFewer(code, c, d, 2, 1);
    if d.Running? {
      ReachesStep(code, c, d, 1);
      var d1 := Do(Unary(Not), d);
      ReachesStep(code, c, d1, 1);
      var d2 := Do(Unary(Not), d1);
      ReachesStep(code, c, d2, 1);
    }
  }

  lemma {:induction false} ConstantSim(code: seq<Instr>, c: Config, pc: nat, stack: Stack, env: Env, temps: map<Temp, Value>)
    requires Reaches(code, c, Running(pc, stack, env, temps), 1) && pc < |code| && code[pc].PushConst?
    ensures Reaches(code, c, Running(pc + 1, Push(code[pc].v, stack), env, temps), 1)
  {
    hide Reaches;
    ReachesStep(code, c, Running(pc, stack, env, temps), 1);
  }

  /** The test of `&&`: over the right operand if the left one is not truthy. */
  lemma {:induction false} AndTest(code: seq<Instr>, c: Config, pc: nat, otherwise: nat, v: Value, stack: Stack, env: Env, temps: map<Temp, Value>)
    requires Reaches(code, c, Running(pc, Push(v, stack), env, temps), 1)
    requires pc < |code| && code[pc] == JumpIfFalse(otherwise)
    ensures Reaches(code, c, Running(if Truthy(v) then pc + 1 else otherwise, stack, env, temps), 1)
  {
    hide Reaches;
    ReachesStep(code, c, Running(pc, Push(v, stack), env, temps), 1);
  }

  lemma {:induction false} AndSim(code: seq<Instr>, e: Expr, base: nat, stack: Stack, env: Env, temps: map<Temp, Value>)
    requires At(code, base, ExprCode(e, base)) && e.AndExpr? && TryFold(e).None?
    ensures SimulatesExpr(code, e, base, stack, env, temps)
    decreases e, 0
  {
    hide Reaches, Do;
    var c := Running(base, stack, env, temps);
    var pc := base + ExprLen(e.left);
    var right := pc + 1;
    var otherwise := right + ExprLen(e.right) + 3;
    var tail := ExprCode(e.right, right) + [Unary(Not), Unary(Not), Jump(otherwise + 1), PushConst(Bool(false))];
    AtSplit(code, base, ExprCode(e.left, base), [JumpIfFalse(otherwise)] + tail);
    AtSplit(code, pc, [JumpIfFalse(otherwise)], tail);
    AtOne(code, pc, JumpIfFalse(otherwise));
    ExprSim(code, e.left, base, stack, env, temps);
    var a := Eval(e.left, env);
    if a.Got? {
      AndTest(code, c, pc, otherwise, a.v, stack, a.env, temps);
      if Truthy(a.v) {
        RightOperandSim(code, c, e.right, right, stack, a.env, temps, PushConst(Bool(false)));
      } else {
        assert code[right + (|tail| - 1)] == tail[|tail| - 1];
        ConstantSim(code, c, otherwise, stack, a.env, temps);
      }
    }
  }

  /** The inverted test of `||`: over the right operand if the left one is truthy. */
  lemma {:induction false} OrTest(code: seq<Instr>, c: Config, pc: nat, otherwise: nat, v: Value, stack: Stack, env: Env, temps: map<Temp, Value>)
    requires Reaches(code, c, Running(pc, Push(v, stack), env, temps), 1)
    requires pc + 1 < |code| && code[pc] == Unary(Not) && code[pc + 1] == JumpIfFalse(otherwise)
    ensures Reaches(code, c, Running(if Truthy(v) then otherwise else pc + 2, stack, env, temps), 1)
  {
    hide Reaches;
    var d := Running(pc, Push(v, stack), env, temps);
    ReachesStep(code, c, d, 1);
    ReachesStep(code, c, Do(Unary(Not), d), 1);
  }

  lemma {:induction false} OrSim(code: seq<Instr>, e: Expr, base: nat, stack: Stack, env: Env, temps: map<Temp, Value>)
    requires At(code, base, ExprCode(e, base)) && e.OrExpr? && TryFold(e).None?
    ensures SimulatesExpr(code, e, base, stack, env, temps)
    decreases e, 0
  {
    hide Reaches, Do;
    var c := Running(base, stack, env, temps);
    var pc := base + ExprLen(e.left);
    var right := pc + 2;
    var otherwise := right + ExprLen(e.right) + 3;
    var head := [Unary(Not), JumpIfFalse(otherwise)];
    var tail := ExprCode(e.right, right) + [Unary(Not), Unary(Not), Jump(otherwise + 1), PushConst(Bool(true))];
    AtSplit(code, base, ExprCode(e.left, base), head + tail);
    AtSplit(code, pc, head, tail);
    assert code[pc + 0] == head[0] && code[pc + 1] == head[1];
    ExprSim(code, e.left, base, stack, env, temps);
    var a := Eval(e.left, env);
    if a.Got? {
      OrTest(code, c, pc, otherwise, a.v, stack, a.env, temps);
      if !Truthy(a.v) {
        RightOperandSim(code, c, e.right, right, stack, a.env, temps, PushConst(Bool(true)));
      } else {
        assert code[right + (|tail| - 1)] == tail[|tail| - 1];
        ConstantSim(code, c, otherwise, stack, a.env, temps);
      }
    }
  }

  lemma {:induction false} OrNilSim(code: seq<Instr>, e: Option<Expr>, base: nat, stack: Stack, env: Env, temps: map<Temp, Value>)
    requires At(code, base, OrNilCode(e, base))
    ensures Reaches(code, Running(base, stack, env, temps),
                    AfterExpr(EvalOrNil(e, env), base + OrNilLen(e), stack, temps), 1)
  {
    hide Reaches;
    match e
    case Some(e1) => ExprSim(code, e1, base, stack, env, temps);
    case None =>
      AtOne(code, base, PushConst(Nil));
      FirstStep(code, Running(base, stack, env, temps));
  }
}

/** A whole function body: the implicit return at its end, and the theorem that the compiled body and the source
    body give the same results. */
module FunctionCompile {
  import opened Wrappers
  import opened BytecodeVm
  import opened SourceLanguage
  import opened CodeShape
  import opened ExprSimulation
  import opened StmtSimulation
  import opened Backpatch
  import opened BytecodeCompiler

  // ---------- running off the end ----------

  /** Can control leave `s` by running off its end? */
  predicate CanFallThrough(s: Stmt) {
    match s
    case ReturnStmt(_) => false
    case Block(ss) => ss == [] || CanFallThrough(ss[|ss| - 1])
    case If(arms) => ArmsFallThrough(arms)
    case VarDecl(_, _) => true
    case ExprStmt(_) => true
    case LogStmt(_) => true
    case While(_, _) => true
    case Repeat(_, _) => true
    case For(_, _, _, _, _) => true
    case Break => true
    case Continue => true
  }

  /** An `if` without an `else` always has a path that skips it. */
  predicate ArmsFallThrough(arms: Arms) {
    match arms
    case Otherwise(orElse) => orElse.None? || CanFallThrough(orElse.value)
    case When(_, body, rest) => CanFallThrough(body) || ArmsFallThrough(rest)
  }

  /** A body judged unable to fall through never ends normally, so it needs no implicit return. */
  lemma {:induction false} NeverFallsThrough(s: Stmt, env: Env, fuel: nat)
    requires !CanFallThrough(s)
    ensures !Exec(s, env, fuel).Normal?
    decreases s
  {
    hide Eval;
    match s
    case ReturnStmt(_) =>
    case Block(ss) => BlockNeverFallsThrough(ss, env, fuel);
    case If(arms) => ArmsNeverFallThrough(arms, env, fuel);
  }

  lemma {:induction false} BlockNeverFallsThrough(ss: seq<Stmt>, env: Env, fuel: nat)
    requires ss != [] && !CanFallThrough(ss[|ss| - 1])
    ensures !ExecAll(ss, env, fuel).Normal?
    decreases ss
  {
    hide Exec, CanFallThrough;
    if |ss| == 1 {
      NeverFallsThrough(ss[0], env, fuel);
    } else {
      var o := Exec(ss[0], env, fuel);
      assert ss[1..][|ss| - 2] == ss[|ss| - 1];
      if o.Normal? { BlockNeverFallsThrough(ss[1..], o.env, fuel); }
    }
  }

  lemma {:induction false} ArmsNeverFallThrough(arms: Arms, env: Env, fuel: nat)
    requires !ArmsFallThrough(arms)
    ensures !ExecIf(arms, env, fuel).Normal?
    decreases arms
  {
    hide Exec, CanFallThrough, Eval;
    match arms
    case Otherwise(orElse) => NeverFallsThrough(orElse.value, env, fuel);
    case When(cond, body, rest) =>
      var a := Eval(cond, env);
      if a.Got? {
        NeverFallsThrough(body, a.env, fuel);
        ArmsNeverFallThrough(rest, a.env, fuel);
      }
  }

  // ---------- no break or continue escapes ----------

  lemma {:induction false} NothingEscapes(s: Stmt, env: Env, fuel: nat)
    requires WellPlaced(s, false)
    ensures var o := Exec(s, env, fuel); !o.Broke? && !o.Continued?
    decreases s
  {
    hide Eval, ExecFor, ExecWhile, ExecRepeat, ExecAll, ExecIf;
    match s
    case VarDecl(_, _) =>
    case ExprStmt(_) =>
    case LogStmt(_) =>
    case ReturnStmt(_) =>
    case Block(ss) => NothingEscapesBlock(ss, env, fuel);
    case If(arms) => NothingEscapesArms(arms, env, fuel);
    case While(c, b) => WhileKeepsInside(c, b, env, fuel);
    case Repeat(b, c) => RepeatKeepsInside(b, c, env, fuel);
    case For(x, start, end, step, b) =>
      var a := Eval(start, env);
      if a.Got? {
        var e := Eval(end, Bind(a.env, x, a.v));
        if e.Got? {
          var d := Eval(step, e.env);
          if d.Got? { ForKeepsInside(x, e.v, d.v, b, d.env, fuel); }
        }
      }
  }

  lemma {:induction false} NothingEscapesBlock(ss: seq<Stmt>, env: Env, fuel: nat)
    requires AllPlaced(ss, false)
    ensures var o := ExecAll(ss, env, fuel); !o.Broke? && !o.Continued?
    decreases ss
  {
    hide Exec, WellPlaced;
    if ss != [] {
      NothingEscapes(ss[0], env, fuel);
      var o := Exec(ss[0], env, fuel);
      if o.Normal? { NothingEscapesBlock(ss[1..], o.env, fuel); }
    }
  }

  lemma {:induction false} NothingEscapesArms(arms: Arms, env: Env, fuel: nat)
    requires ArmsPlaced(arms, false)
    ensures var o := ExecIf(arms, env, fuel); !o.Broke? && !o.Continued?
    decreases arms
  {
    hide Exec, WellPlaced, Eval;
    match arms
    case Otherwise(orElse) => if orElse.Some? { NothingEscapes(orElse.value, env, fuel); }
    case When(cond, body, rest) =>
      var a := Eval(cond, env);
      if a.Got? {
        NothingEscapes(body, a.env, fuel);
        NothingEscapesArms(rest, a.env, fuel);
      }
  }

  lemma {:induction false} WhileKeepsInside(c: Expr, b: Stmt, env: Env, fuel: nat)
    ensures var o := ExecWhile(c, b, env, fuel); !o.Broke? && !o.Continued?
    decreases fuel
  {
    hide Exec, Eval;
    if fuel > 0 {
      var a := Eval(c, env);
      if a.Got? && Truthy(a.v) {
        var r := Exec(b, a.env, fuel);
        if r.Normal? || r.Continued? { WhileKeepsInside(c, b, r.env, fuel - 1); }
      }
    }
  }

  lemma {:induction false} RepeatKeepsInside(b: Stmt, c: Expr, env: Env, fuel: nat)
    ensures var o := ExecRepeat(b, c, env, fuel); !o.Broke? && !o.Continued?
    decreases fuel
  {
    hide Exec, Eval;
    if fuel > 0 {
      var r := Exec(b, env, fuel);
      if r.Normal? || r.Continued? {
        var a := Eval(c, r.env);
        if a.Got? && Truthy(a.v) { RepeatKeepsInside(b, c, a.env, fuel - 1); }
      }
    }
  }

  lemma {:induction false} ForKeepsInside(x: string, end: Value, step: Value, b: Stmt, env: Env, fuel: nat)
    ensures var o := ExecFor(x, end, step, b, env, fuel); !o.Broke? && !o.Continued?
    decreases fuel
  {
    hide Exec, ApplyBinary, RangeContinue;
    if fuel > 0 {
      var r := Exec(b, env, fuel);
      if (r.Normal? || r.Continued?) && x in r.env.vars {
        var next := ApplyBinary(Add, r.env.vars[x], step);
        if next.Ok? { ForKeepsInside(x, end, step, b, Bind(r.env, x, next.value), fuel - 1); }
      }
    }
  }

  // ---------- functions ----------

  function Tail(body: Stmt): seq<Instr> {
    if CanFallThrough(body) then [PushConst(Nil), Return] else []
  }

  function FunctionCode(body: Stmt, base: nat, id: nat): seq<Instr> {
    Emitted(Shape(body, base, id)) + Tail(body)
  }

  /** Compile a function body and, where it can fall through, the implicit `return nil`. */
  method CompileFunction(compiler: Compiler, body: Stmt) returns (ok: bool)
    requires compiler.loops == []
    modifies compiler
    ensures ok <==> WellPlaced(body, false)
    ensures ok ==> compiler.code == old(compiler.code) + FunctionCode(body, |old(compiler.code)|, old(compiler.loopCounter))
    ensures ok ==> compiler.loops == [] && compiler.loopCounter == old(compiler.loopCounter) + Fors(body)
    ensures ok ==> Compiled(compiler.code, body, |old(compiler.code)|, old(compiler.loopCounter))
  {
    hide Shape, Fors, WellPlaced, Emitted;
    ghost var xs := Shape(body, |compiler.code|, compiler.loopCounter);
    ok := compiler.CompileStatement(body);
    if ok && CanFallThrough(body) {
      var _ := compiler.Emit(PushConst(Nil));
      var _ := compiler.Emit(Return);
    }
    if ok {
      assert compiler.code == old(compiler.code) + (Emitted(xs) + Tail(body));
      AtEnd(old(compiler.code), FunctionCode(body, |old(compiler.code)|, old(compiler.loopCounter)));
    }
  }

  /** What calling the function gives: falling off the end returns nil. */
  function Called(body: Stmt, env: Env, fuel: nat): Outcome {
    var o := Exec(body, env, fuel);
    if o.Normal? then Gave(Nil, o.env) else o
  }

  /** The final machine state that an outcome stands for. */
  function Final(o: Outcome): Config
    requires o.Gave? || o.Threw?
  {
    match o
    case Gave(v, env) => Returned(v, env)
    case Threw(e, env) => Raised(e, env)
  }

  /** The compiled function stands in `code` at `base`. */
  ghost predicate Compiled(code: seq<Instr>, body: Stmt, base: nat, id: nat) {
    WellPlaced(body, false) && At(code, base, FunctionCode(body, base, id))
  }

  lemma {:induction false} AtEnd(pre: seq<Instr>, frag: seq<Instr>)
    ensures At(pre + frag, |pre|, frag)
  {
  }

  lemma {:induction false} EmittedPlaced(code: seq<Instr>, base: nat, xs: seq<Sym>)
    requires At(code, base, Emitted(xs))
    ensures Placed(code, base, xs, Targets(0, 0, 0))
  {
    forall i | 0 <= i < |xs| ensures code[base + i] == Resolved(xs[i], Targets(0, 0, 0)) {
      assert Emitted(xs)[i] == Resolved(xs[i], Targets(0, 0, 0));
    }
  }

  /** Forward simulation of a call: the machine reaches the result of the source, or still runs when the source does. */
  lemma {:induction false} FunctionSim(code: seq<Instr>, body: Stmt, base: nat, id: nat, c: Config, fuel: nat)
    requires Compiled(code, body, base, id) && c.Running? && c.pc == base
    ensures var o := Called(body, c.env, fuel);
            if o.OutOfFuel? then Run(code, c, fuel).Running?
            else (o.Gave? || o.Threw?) && Reaches(code, c, Final(o), 0)
  {
    hide Shape, Exec, Reaches, Emitted, CanFallThrough, At, Placed, WellPlaced, Kept;
    var xs := Shape(body, base, id);
    AtSplit(code, base, Emitted(xs), Tail(body));
    EmittedPlaced(code, base, xs);
    StmtSim(code, body, base, id, Targets(0, 0, 0), c, fuel);
    NothingEscapes(body, c.env, fuel);
    var o := Exec(body, c.env, fuel);
    if o.Normal? {
      if !CanFallThrough(body) { NeverFallsThrough(body, c.env, fuel); assert false; }
      var d := SimNormal(code, c, base + StmtLen(body), Targets(0, 0, 0), id, id + Fors(body), o, fuel);
      TailSim(code, c, d);
    }
  }

  lemma {:induction false} TailSim(code: seq<Instr>, c: Config, d: Config)
    requires d.Running? && At(code, d.pc, [PushConst(Nil), Return]) && Reaches(code, c, d, 0)
    ensures Reaches(code, c, Returned(Nil, d.env), 0)
  {
    hide Reaches;
    var tail := [PushConst(Nil), Return];
    assert code[d.pc + 1] == tail[1];
    assert tail == [PushConst(Nil)] + [Return];
    AtSplit(code, d.pc, [PushConst(Nil)], [Return]);
    AtOne(code, d.pc, PushConst(Nil));
    ReachesStep(code, c, d, 0);
    ReachesStep(code, c, Do(PushConst(Nil), d), 0);
  }

  /** Does some run of the source give the final state `d`? */
  ghost predicate Gives(body: Stmt, env: Env, d: Config) {
    exists fuel: nat :: var o := Called(body, env, fuel); (o.Gave? || o.Threw?) && Final(o) == d
  }

  /** Correctness of compilation: the machine halts in state `d` exactly when the source gives `d`. It never gets
      stuck, never returns or raises anything else, and runs forever exactly when the source does. */
  lemma {:induction false} CompilationCorrect(code: seq<Instr>, body: Stmt, base: nat, id: nat, c: Config, d: Config)
    requires Compiled(code, body, base, id) && c.Running? && c.pc == base
    ensures !d.Running? && Reaches(code, c, d, 0) <==> Gives(body, c.env, d)
  {
    hide Called, Compiled, Reaches;
    if Gives(body, c.env, d) {
      var fuel: nat :| var o := Called(body, c.env, fuel); (o.Gave? || o.Threw?) && Final(o) == d;
      FunctionSim(code, body, base, id, c, fuel);
    }
    if !d.Running? && Reaches(code, c, d, 0) {
      var n := StepsTo(code, c, d);
      FunctionSim(code, body, base, id, c, n);
      var o := Called(body, c.env, n);
      assert !o.OutOfFuel?;
      var m := StepsTo(code, c, Final(o));
      HaltsOnce(code, c, m, n);
      assert (o.Gave? || o.Threw?) && Final(o) == d;
    }
  }

  lemma {:induction false} StepsTo(code: seq<Instr>, c: Config, d: Config) returns (n: nat)
    requires Reaches(code, c, d, 0)
    ensures Run(code, c, n) == d
  {
    n :| n >= 0 && Run(code, c, n) == d;
  }
}

/** Running the code of a statement reaches exactly the state its execution describes: forward simulation for every
    amount of fuel, so in particular the machine runs forever when the source does. */
module StmtSimulation {
  import opened Wrappers
  import opened BytecodeVm
  import opened SourceLanguage
  import opened CodeShape
  import opened ExprSimulation

  // ---------- shapes in code ----------

  datatype Targets = Targets(exit: nat, again: nat, join: nat)

  function Target(t: Targets, l: Label): nat {
    match l
    case Exit => t.exit
    case Again => t.again
    case Join => t.join
  }

  function Retarget(t: Targets, l: Label, target: nat): Targets {
    match l
    case Exit => t.(exit := target)
    case Again => t.(again := target)
    case Join => t.(join := target)
  }

  function Resolved(x: Sym, t: Targets): Instr {
    match x
    case Op(i) => i
    case Hole(l) => Jump(Target(t, l))
  }

  /** The shape `xs` stands in `code` at `base`, its holes patched with `t`. */
  ghost predicate Placed(code: seq<Instr>, base: nat, xs: seq<Sym>, t: Targets) {
    base + |xs| <= |code| && forall i :: 0 <= i < |xs| ==> code[base + i] == Resolved(xs[i], t)
  }

  lemma {:induction false} PlacedSplit(code: seq<Instr>, base: nat, a: seq<Sym>, b: seq<Sym>, t: Targets)
    requires Placed(code, base, a + b, t)
    ensures Placed(code, base, a, t) && Placed(code, base + |a|, b, t)
  {
    forall i | 0 <= i < |a| ensures code[base + i] == Resolved(a[i], t) { assert (a + b)[i] == a[i]; }
    forall i | 0 <= i < |b| ensures code[base + |a| + i] == Resolved(b[i], t) { assert (a + b)[|a| + i] == b[i]; }
  }

  lemma {:induction false} PlacedOps(code: seq<Instr>, base: nat, frag: seq<Instr>, t: Targets)
    requires Placed(code, base, Ops(frag), t)
    ensures At(code, base, frag)
  {
    forall i | 0 <= i < |frag| ensures code[base + i] == frag[i] { assert Ops(frag)[i] == Op(frag[i]); }
  }

  lemma {:induction false} PlacedOne(code: seq<Instr>, base: nat, x: Sym, t: Targets)
    requires Placed(code, base, [x], t)
    ensures base < |code| && code[base] == Resolved(x, t)
  {
    assert code[base + 0] == Resolved([x][0], t);
  }

  lemma {:induction false} PlacedFill(code: seq<Instr>, base: nat, xs: seq<Sym>, l: Label, target: nat, t: Targets)
    requires Placed(code, base, Fill(xs, l, target), t)
    ensures Placed(code, base, xs, Retarget(t, l, target))
  {
    forall i | 0 <= i < |xs| ensures code[base + i] == Resolved(xs[i], Retarget(t, l, target)) {
      assert code[base + i] == Resolved(Fill(xs, l, target)[i], t);
    }
  }

  lemma {:induction false} PlacedLoopBody(code: seq<Instr>, base: nat, xs: seq<Sym>, exit: nat, again: nat, t: Targets)
    requires Placed(code, base, LoopBody(xs, exit, again), t)
    ensures Placed(code, base, xs, Targets(exit, again, t.join))
  {
    PlacedFill(code, base, Fill(xs, Exit, exit), Again, again, t);
    PlacedFill(code, base, xs, Exit, exit, Retarget(t, Again, again));
  }

  // ---------- hidden variables ----------

  /** Only hidden variables of loops numbered from `lo` up to `hi` may differ. */
  ghost predicate Kept(a: map<Temp, Value>, b: map<Temp, Value>, lo: nat, hi: nat) {
    forall t: Temp :: !(lo <= t.loop < hi) ==> (t in a <==> t in b) && (t in a ==> a[t] == b[t])
  }

  lemma {:induction false} KeptTrans(a: map<Temp, Value>, b: map<Temp, Value>, c: map<Temp, Value>,
                                     lo: nat, hi: nat, lo1: nat, hi1: nat, lo2: nat, hi2: nat)
    requires Kept(a, b, lo1, hi1) && Kept(b, c, lo2, hi2)
    requires lo <= lo1 && hi1 <= hi && lo <= lo2 && hi2 <= hi
    ensures Kept(a, c, lo, hi)
  {
  }

  // ---------- the simulation relation ----------

  ghost predicate Arrives(code: seq<Instr>, c: Config, pc: nat, env: Env, lo: nat, hi: nat)
    requires c.Running?
  {
    exists temps {:trigger Kept(c.temps, temps, lo, hi)} ::
      Kept(c.temps, temps, lo, hi) && Reaches(code, c, Running(pc, c.stack, env, temps), 0)
  }

  lemma {:induction false} Landing(code: seq<Instr>, c: Config, pc: nat, env: Env, lo: nat, hi: nat)
    returns (temps: map<Temp, Value>)
    requires c.Running? && Arrives(code, c, pc, env, lo, hi)
    ensures Kept(c.temps, temps, lo, hi) && Reaches(code, c, Running(pc, c.stack, env, temps), 0)
  {
    temps :| Kept(c.temps, temps, lo, hi) && Reaches(code, c, Running(pc, c.stack, env, temps), 0);
  }

  /** From `c` the machine does what outcome `o` says: it stands at `end`, at the loop exit or at the next iteration
      with the stack of `c`, or it has returned or raised, or it still runs after `fuel` steps. */
  ghost predicate Sim(code: seq<Instr>, c: Config, end: nat, t: Targets, lo: nat, hi: nat, o: Outcome, fuel: nat)
    requires c.Running?
  {
    match o
    case Normal(env) => Arrives(code, c, end, env, lo, hi)
    case Broke(env) => Arrives(code, c, t.exit, env, lo, hi)
    case Continued(env) => Arrives(code, c, t.again, env, lo, hi)
    case Gave(v, env) => Reaches(code, c, Returned(v, env), 0)
    case Threw(e, env) => Reaches(code, c, Raised(e, env), 0)
    case OutOfFuel => Run(code, c, fuel).Running?
  }

  lemma {:induction false} ArrivesNow(code: seq<Instr>, c: Config, d: Config, k: nat, lo: nat, hi: nat)
    requires c.Running? && d.Running? && d.stack == c.stack && Kept(c.temps, d.temps, lo, hi) && Reaches(code, c, d, k)
    ensures Arrives(code, c, d.pc, d.env, lo, hi)
  {
    ReachesFewer(code, c, d, k, 0);
    assert d == Running(d.pc, c.stack, d.env, d.temps);
  }

  lemma {:induction false} ArrivesAfter(code: seq<Instr>, c: Config, d: Config, pc: nat, env: Env,
                                        k: nat, lo: nat, hi: nat, lo2: nat, hi2: nat)
    requires c.Running? && d.Running? && d.stack == c.stack && Kept(c.temps, d.temps, lo, hi) && Reaches(code, c, d, k)
    requires lo <= lo2 && hi2 <= hi && Arrives(code, d, pc, env, lo2, hi2)
    ensures Arrives(code, c, pc, env, lo, hi)
  {
    hide Reaches, Kept;
    var temps := Landing(code, d, pc, env, lo2, hi2);
    KeptTrans(c.temps, d.temps, temps, lo, hi, lo, hi, lo2, hi2);
    ReachesTrans(code, c, d, Running(pc, c.stack, env, temps), k, 0);
    ReachesFewer(code, c, Running(pc, c.stack, env, temps), k, 0);
  }

  lemma {:induction false} StillRunning(code: seq<Instr>, c: Config, d: Config, k: nat, fuel: nat, fuel2: nat)
    requires Reaches(code, c, d, k) && Run(code, d, fuel2).Running? && fuel <= fuel2 + k
    ensures Run(code, c, fuel).Running?
  {
    var n: nat :| n >= k && Run(code, c, n) == d;
    RunAdd(code, c, n, fuel2);
    RunningEarlier(code, c, fuel, n + fuel2);
  }

  /** What simulates `o` from `d` simulates it from any state that reaches `d`. */
  lemma {:induction false} SimAfter(code: seq<Instr>, c: Config, d: Config, k: nat, end: nat, t: Targets,
                                    lo: nat, hi: nat, lo2: nat, hi2: nat, o: Outcome, fuel: nat, fuel2: nat)
    requires c.Running? && d.Running? && d.stack == c.stack && Kept(c.temps, d.temps, lo, hi) && Reaches(code, c, d, k)
    requires lo <= lo2 && hi2 <= hi && fuel <= fuel2 + k && Sim(code, d, end, t, lo2, hi2, o, fuel2)
    ensures Sim(code, c, end, t, lo, hi, o, fuel)
  {
    hide Reaches, Kept, Arrives;
    match o
    case Normal(env) => ArrivesAfter(code, c, d, end, env, k, lo, hi, lo2, hi2);
    case Broke(env) => ArrivesAfter(code, c, d, t.exit, env, k, lo, hi, lo2, hi2);
    case Continued(env) => ArrivesAfter(code, c, d, t.again, env, k, lo, hi, lo2, hi2);
    case Gave(v, env) =>
      ReachesTrans(code, c, d, Returned(v, env), k, 0);
      ReachesFewer(code, c, Returned(v, env), k, 0);
    case Threw(e, env) =>
      ReachesTrans(code, c, d, Raised(e, env), k, 0);
      ReachesFewer(code, c, Raised(e, env), k, 0);
    case OutOfFuel => StillRunning(code, c, d, k, fuel, fuel2);
  }

  lemma {:induction false} SimRaised(code: seq<Instr>, c: Config, k: nat, end: nat, t: Targets, lo: nat, hi: nat,
                                     e: Error, env: Env, fuel: nat)
    requires c.Running? && Reaches(code, c, Raised(e, env), k)
    ensures Sim(code, c, end, t, lo, hi, Threw(e, env), fuel)
  {
    ReachesFewer(code, c, Raised(e, env), k, 0);
  }

  // ---------- statements ----------

  ghost predicate SimStmt(code: seq<Instr>, s: Stmt, base: nat, id: nat, t: Targets, c: Config, fuel: nat)
    requires c.Running?
  {
    Sim(code, c, base + StmtLen(s), t, id, id + Fors(s), Exec(s, c.env, fuel), fuel)
  }

  /** The code of `s`, placed anywhere and its holes patched with `t`, does what executing `s` says, with the stack as
      it was and only the hidden variables of its own loops changed. */
  lemma {:induction false} StmtSim(code: seq<Instr>, s: Stmt, base: nat, id: nat, t: Targets, c: Config, fuel: nat)
    requires c.Running? && c.pc == base && Placed(code, base, Shape(s, base, id), t)
    ensures SimStmt(code, s, base, id, t, c, fuel)
    decreases fuel, s, 0, 0
  {
    hide Reaches, Kept, Arrives, Do, Placed, Sim, LoopBody, ForLoop, ForSetup;
    match s
    case VarDecl(_, _) => LeafSim(code, s, base, id, t, c, fuel);
    case ExprStmt(_) => LeafSim(code, s, base, id, t, c, fuel);
    case LogStmt(_) => LeafSim(code, s, base, id, t, c, fuel);
    case ReturnStmt(_) => LeafSim(code, s, base, id, t, c, fuel);
    case Break => JumpSim(code, s, base, id, t, c, fuel);
    case Continue => JumpSim(code, s, base, id, t, c, fuel);
    case Block(ss) => BlockSim(code, ss, base, id, t, c, fuel);
    case If(arms) => IfSim(code, arms, base, id, t, c, fuel);
    case While(cond, b) => WhileSim(code, cond, b, base, id, t, c, fuel);
    case Repeat(b, cond) => RepeatSim(code, b, cond, base, id, t, c, fuel);
    case For(_, _, _, _, _) => ForSim(code, s, base, id, t, c, fuel);
  }

  lemma {:induction false} IfSim(code: seq<Instr>, arms: Arms, base: nat, id: nat, t: Targets, c: Config, fuel: nat)
    requires c.Running? && c.pc == base && Placed(code, base, Shape(If(arms), base, id), t)
    ensures SimStmt(code, If(arms), base, id, t, c, fuel)
    decreases fuel, arms, 1, 0
  {
    hide Reaches, Kept, Arrives, Do, Placed, Sim, LoopBody, ForLoop, ForSetup;
    var join := base + ArmsLen(arms);
    PlacedFill(code, base, ArmsShape(arms, base, id), Join, join, t);
    ArmsSim(code, arms, base, id, t.(join := join), c, fuel);
    SimTargets(code, c, join, t.(join := join), t, id, id + Fors(If(arms)), Exec(If(arms), c.env, fuel), fuel);
  }

  lemma {:induction false} SimTargets(code: seq<Instr>, c: Config, end: nat, t: Targets, u: Targets, lo: nat, hi: nat,
                                      o: Outcome, fuel: nat)
    requires c.Running? && Sim(code, c, end, t, lo, hi, o, fuel) && t.exit == u.exit && t.again == u.again
    ensures Sim(code, c, end, u, lo, hi, o, fuel)
  {
    hide Reaches, Arrives;
  }

  lemma {:induction false} LeafSim(code: seq<Instr>, s: Stmt, base: nat, id: nat, t: Targets, c: Config, fuel: nat)
    requires c.Running? && c.pc == base && Placed(code, base, Shape(s, base, id), t)
    requires s.VarDecl? || s.ExprStmt? || s.LogStmt? || s.ReturnStmt?
    ensures SimStmt(code, s, base, id, t, c, fuel)
  {
    hide Reaches, Arrives, Placed, ExprLen, ExprCode, Eval;
    var e := match s case VarDecl(_, init) => init case ReturnStmt(r) => r case ExprStmt(e) => Some(e) case LogStmt(e) => Some(e)
      case _ => None;
    var i := match s case VarDecl(x, _) => DefineVar(User(x)) case ExprStmt(_) => Discard case LogStmt(_) => Log
      case _ => Return;
    var pc := base + OrNilLen(e);
    PlacedSplit(code, base, Ops(OrNilCode(e, base)), [Op(i)], t);
    PlacedOps(code, base, OrNilCode(e, base), t);
    PlacedOne(code, pc, Op(i), t);
    OrNilSim(code, e, base, c.stack, c.env, c.temps);
    var d := AfterExpr(EvalOrNil(e, c.env), pc, c.stack, c.temps);
    if d.Raised? {
      SimRaised(code, c, 1, pc + 1, t, id, id, d.err, d.env, fuel);
    } else {
      ReachesStep(code, c, d, 1);
      if s.ReturnStmt? {
        ReachesFewer(code, c, Returned(d.stack.top, d.env), 1, 0);
      } else {
        ArrivesNow(code, c, Do(i, d), 1, id, id);
      }
    }
  }

  lemma {:induction false} JumpSim(code: seq<Instr>, s: Stmt, base: nat, id: nat, t: Targets, c: Config, fuel: nat)
    requires c.Running? && c.pc == base && Placed(code, base, Shape(s, base, id), t)
    requires s.Break? || s.Continue?
    ensures SimStmt(code, s, base, id, t, c, fuel)
  {
    hide Reaches, Arrives, Placed;
    PlacedOne(code, base, Shape(s, base, id)[0], t);
    FirstStep(code, c);
    ArrivesNow(code, c, Do(code[base], c), 1, id, id);
  }

  lemma {:induction false} BlockSim(code: seq<Instr>, ss: seq<Stmt>, base: nat, id: nat, t: Targets, c: Config, fuel: nat)
    requires c.Running? && c.pc == base && Placed(code, base, BlockShape(ss, base, id), t)
    ensures Sim(code, c, base + BlockLen(ss), t, id, id + ForsIn(ss), ExecAll(ss, c.env, fuel), fuel)
    decreases fuel, ss, 0, 0
  {
    hide Reaches, Kept, Arrives, Do, Placed, Exec, Shape, StmtLen, Fors, Sim;
    if ss == [] {
      EmptySim(code, c, t, id, fuel);
    } else {
      var mid, next := base + StmtLen(ss[0]), id + Fors(ss[0]);
      PlacedSplit(code, base, Shape(ss[0], base, id), BlockShape(ss[1..], mid, next), t);
      StmtSim(code, ss[0], base, id, t, c, fuel);
      var o := Exec(ss[0], c.env, fuel);
      if o.Normal? {
        var d := SimNormal(code, c, mid, t, id, next, o, fuel);
        BlockSim(code, ss[1..], mid, next, t, d, fuel);
        KeptWider(c.temps, d.temps, id, next, id + ForsIn(ss));
        SimAfter(code, c, d, 0, base + BlockLen(ss), t, id, id + ForsIn(ss), next, id + ForsIn(ss),
                 ExecAll(ss[1..], o.env, fuel), fuel, fuel);
      } else {
        SimWider(code, c, mid, base + BlockLen(ss), t, id, next, id + ForsIn(ss), o, fuel);
      }
    }
  }

  lemma {:induction false} EmptySim(code: seq<Instr>, c: Config, t: Targets, id: nat, fuel: nat)
    requires c.Running?
    ensures Sim(code, c, c.pc, t, id, id, Normal(c.env), fuel)
  {
    ReachesSelf(code, c);
    ArrivesNow(code, c, c, 0, id, id);
  }

  lemma {:induction false} KeptWider(a: map<Temp, Value>, b: map<Temp, Value>, lo: nat, hi: nat, hi2: nat)
    requires Kept(a, b, lo, hi) && hi <= hi2
    ensures Kept(a, b, lo, hi2)
  {
  }

  lemma {:induction false} ArrivesWider(code: seq<Instr>, c: Config, pc: nat, env: Env, lo: nat, hi: nat, hi2: nat)
    requires c.Running? && Arrives(code, c, pc, env, lo, hi) && hi <= hi2
    ensures Arrives(code, c, pc, env, lo, hi2)
  {
    hide Reaches, Kept;
    var temps := Landing(code, c, pc, env, lo, hi);
    KeptWider(c.temps, temps, lo, hi, hi2);
  }

  /** An outcome that does not fall through does not depend on where the end is. */
  lemma {:induction false} SimWider(code: seq<Instr>, c: Config, end: nat, end2: nat, t: Targets, lo: nat, hi: nat, hi2: nat,
                                    o: Outcome, fuel: nat)
    requires c.Running? && Sim(code, c, end, t, lo, hi, o, fuel) && hi <= hi2 && (o.Normal? ==> end == end2)
    ensures Sim(code, c, end2, t, lo, hi2, o, fuel)
  {
    hide Reaches, Arrives;
    match o
    case Normal(env) => ArrivesWider(code, c, end, env, lo, hi, hi2);
    case Broke(env) => ArrivesWider(code, c, t.exit, env, lo, hi, hi2);
    case Continued(env) => ArrivesWider(code, c, t.again, env, lo, hi, hi2);
    case Gave(_, _) =>
    case Threw(_, _) =>
    case OutOfFuel =>
  }

  /** Where a fall-through, a break or a continue lands. */
  lemma {:induction false} SimNormal(code: seq<Instr>, c: Config, end: nat, t: Targets, lo: nat, hi: nat, o: Outcome, fuel: nat)
    returns (d: Config)
    requires c.Running? && Sim(code, c, end, t, lo, hi, o, fuel) && (o.Normal? || o.Broke? || o.Continued?)
    ensures d.Running? && d.stack == c.stack && d.env == o.env && Kept(c.temps, d.temps, lo, hi) && Reaches(code, c, d, 0)
    ensures d.pc == if o.Normal? then end else if o.Broke? then t.exit else t.again
  {
    hide Reaches, Arrives, Kept;
    var pc := if o.Normal? then end else if o.Broke? then t.exit else t.again;
    var temps := Landing(code, c, pc, o.env, lo, hi);
    d := Running(pc, c.stack, o.env, temps);
  }

  lemma {:induction false} ArmsSim(code: seq<Instr>, arms: Arms, base: nat, id: nat, t: Targets, c: Config, fuel: nat)
    requires c.Running? && c.pc == base && Placed(code, base, ArmsShape(arms, base, id), t)
    requires t.join == base + ArmsLen(arms)
    ensures Sim(code, c, t.join, t, id, id + ForsInArms(arms), ExecIf(arms, c.env, fuel), fuel)
    decreases fuel, arms, 0, 0
  {
    hide Reaches, Kept, Arrives, Do, Placed, Exec, Shape, StmtLen, Fors, Sim, ExprCode, ExprLen, Eval;
    match arms
    case Otherwise(orElse) =>
      if orElse.Some? {
        StmtSim(code, orElse.value, base, id, t, c, fuel);
      } else {
        EmptySim(code, c, t, id, fuel);
      }
    case When(cond, body, rest) =>
      var first := base + ExprLen(cond) + 1;
      var next := first + StmtLen(body) + 1;
      var d := CondSim(code, cond, base, next, t, Shape(body, first, id) + ([Hole(Join)] + ArmsShape(rest, next, id + Fors(body))), c);
      var a := Eval(cond, c.env);
      if a.Failed? {
        SimRaised(code, c, 1, t.join, t, id, id + ForsInArms(arms), a.err, a.env, fuel);
      } else if Truthy(a.v) {
        TakenSim(code, body, first, id, t, ArmsShape(rest, next, id + Fors(body)), d, fuel);
        SimWider(code, d, t.join, t.join, t, id, id + Fors(body), id + ForsInArms(arms), Exec(body, d.env, fuel), fuel);
        KeptSelf(c.temps, id, id + ForsInArms(arms));
        SimAfter(code, c, d, 1, t.join, t, id, id + ForsInArms(arms), id, id + ForsInArms(arms),
                 Exec(body, a.env, fuel), fuel, fuel);
      } else {
        PlacedSplit(code, first, Shape(body, first, id), [Hole(Join)] + ArmsShape(rest, next, id + Fors(body)), t);
        PlacedSplit(code, next - 1, [Hole(Join)], ArmsShape(rest, next, id + Fors(body)), t);
        ArmsSim(code, rest, next, id + Fors(body), t, d, fuel);
        KeptSelf(c.temps, id, id + ForsInArms(arms));
        SimAfter(code, c, d, 1, t.join, t, id, id + ForsInArms(arms), id + Fors(body), id + ForsInArms(arms),
                 ExecIf(rest, a.env, fuel), fuel, fuel);
      }
  }

  lemma {:induction false} KeptSelf(a: map<Temp, Value>, lo: nat, hi: nat)
    ensures Kept(a, a, lo, hi)
  {
  }

  /** A condition and the jump that tests it. */
  lemma {:induction false} CondSim(code: seq<Instr>, cond: Expr, base: nat, otherwise: nat, t: Targets, rest: seq<Sym>, c: Config)
    returns (d: Config)
    requires c.Running? && c.pc == base
    requires Placed(code, base, Ops(ExprCode(cond, base)) + ([Op(JumpIfFalse(otherwise))] + rest), t)
    ensures Placed(code, base + ExprLen(cond) + 1, rest, t)
    ensures Reaches(code, c, d, 1)
    ensures var a := Eval(cond, c.env);
            if a.Failed? then d == Raised(a.err, a.env)
            else d == Running(if Truthy(a.v) then base + ExprLen(cond) + 1 else otherwise, c.stack, a.env, c.temps)
  {
    hide Reaches, Placed, ExprCode, ExprLen, Eval, At;
    var pc := base + ExprLen(cond);
    PlacedSplit(code, base, Ops(ExprCode(cond, base)), [Op(JumpIfFalse(otherwise))] + rest, t);
    PlacedSplit(code, pc, [Op(JumpIfFalse(otherwise))], rest, t);
    PlacedOps(code, base, ExprCode(cond, base), t);
    PlacedOne(code, pc, Op(JumpIfFalse(otherwise)), t);
    ExprSim(code, cond, base, c.stack, c.env, c.temps);
    d := AfterExpr(Eval(cond, c.env), pc, c.stack, c.temps);
    if d.Running? {
      ReachesStep(code, c, d, 1);
      d := Do(JumpIfFalse(otherwise), d);
    }
  }

  /** A taken branch runs its body and jumps to the end of the `if`. */
  lemma {:induction false} TakenSim(code: seq<Instr>, body: Stmt, base: nat, id: nat, t: Targets, rest: seq<Sym>, c: Config, fuel: nat)
    requires c.Running? && c.pc == base && Placed(code, base, Shape(body, base, id) + ([Hole(Join)] + rest), t)
    ensures Sim(code, c, t.join, t, id, id + Fors(body), Exec(body, c.env, fuel), fuel)
    decreases fuel, body, 1, 0
  {
    hide Reaches, Kept, Arrives, Placed, Exec, Shape, StmtLen, Fors, Sim;
    var pc := base + StmtLen(body);
    PlacedSplit(code, base, Shape(body, base, id), [Hole(Join)] + rest, t);
    PlacedSplit(code, pc, [Hole(Join)], rest, t);
    PlacedOne(code, pc, Hole(Join), t);
    StmtSim(code, body, base, id, t, c, fuel);
    var o := Exec(body, c.env, fuel);
    if o.Normal? {
      var d := SimNormal(code, c, pc, t, id, id + Fors(body), o, fuel);
      ReachesStep(code, c, d, 0);
      SimLanded(code, c, Running(t.join, d.stack, d.env, d.temps), t, id, id + Fors(body), fuel);
    } else {
      SimWider(code, c, pc, t.join, t, id, id + Fors(body), id + Fors(body), o, fuel);
    }
  }

  lemma {:induction false} SimLanded(code: seq<Instr>, c: Config, d: Config, t: Targets, lo: nat, hi: nat, fuel: nat)
    requires c.Running? && d.Running? && d.stack == c.stack && Kept(c.temps, d.temps, lo, hi) && Reaches(code, c, d, 0)
    ensures Sim(code, c, d.pc, t, lo, hi, Normal(d.env), fuel)
  {
    ArrivesNow(code, c, d, 0, lo, hi);
  }

  // ---------- loops ----------

  /** An outcome that leaves the loop altogether. */
  lemma {:induction false} SimLeaves(code: seq<Instr>, c: Config, d: Config, k: nat, end: nat, u: Targets, end2: nat, t: Targets,
                                     lo: nat, hi: nat, lo2: nat, hi2: nat, o: Outcome, fuel: nat)
    requires c.Running? && d.Running? && d.stack == c.stack && Reaches(code, c, d, k)
    requires Kept(c.temps, d.temps, lo, hi)
    requires o.Gave? || o.Threw? || o.OutOfFuel?
    requires lo <= lo2 && hi2 <= hi && Sim(code, d, end, u, lo2, hi2, o, fuel)
    ensures Sim(code, c, end2, t, lo, hi, o, fuel)
  {
    hide Reaches, Arrives, Kept;
    assert Sim(code, d, end2, t, lo2, hi2, o, fuel);
    SimAfter(code, c, d, k, end2, t, lo, hi, lo2, hi2, o, fuel, fuel);
  }

  lemma {:induction false} ReachesThrough(code: seq<Instr>, c: Config, d: Config, e: Config, lo: nat, hi: nat, lo2: nat, hi2: nat)
    requires c.Running? && d.Running? && e.Running?
    requires Reaches(code, c, d, 1) && Reaches(code, d, e, 0) && lo <= lo2 && hi2 <= hi
    requires Kept(c.temps, d.temps, lo, hi) && Kept(d.temps, e.temps, lo2, hi2)
    ensures Reaches(code, c, e, 1) && Kept(c.temps, e.temps, lo, hi)
  {
    hide Reaches, Kept;
    ReachesTrans(code, c, d, e, 1, 0);
    KeptTrans(c.temps, d.temps, e.temps, lo, hi, lo, hi, lo2, hi2);
  }

  lemma {:induction false} LandsLater(code: seq<Instr>, c: Config, d: Config, t: Targets, lo: nat, hi: nat, fuel: nat)
    requires c.Running? && d.Running? && d.stack == c.stack && Kept(c.temps, d.temps, lo, hi) && Reaches(code, c, d, 1)
    ensures Sim(code, c, d.pc, t, lo, hi, Normal(d.env), fuel)
  {
    ReachesFewer(code, c, d, 1, 0);
    SimLanded(code, c, d, t, lo, hi, fuel);
  }

  lemma {:induction false} StartsRunning(code: seq<Instr>, c: Config, end: nat, t: Targets, lo: nat, hi: nat)
    requires c.Running?
    ensures Sim(code, c, end, t, lo, hi, OutOfFuel, 0)
  {
  }

  lemma {:induction false} WhileSim(code: seq<Instr>, cond: Expr, b: Stmt, base: nat, id: nat, t: Targets, c: Config, fuel: nat)
    requires c.Running? && c.pc == base && Placed(code, base, Shape(While(cond, b), base, id), t)
    ensures Sim(code, c, base + ExprLen(cond) + 1 + StmtLen(b) + 1, t, id, id + Fors(b), ExecWhile(cond, b, c.env, fuel), fuel)
    decreases fuel, b, 1, 0
  {
    hide Reaches, Kept, Arrives, Placed, Exec, StmtLen, Fors, Sim, ExprCode, ExprLen, Eval, LoopBody;
    var body := base + ExprLen(cond) + 1;
    var exit := body + StmtLen(b) + 1;
    var hi := id + Fors(b);
    if fuel == 0 {
      StartsRunning(code, c, exit, t, id, hi);
    } else {
      var rest := LoopBody(Shape(b, body, id), exit, base) + [Op(Jump(base))];
      var d := CondSim(code, cond, base, exit, t, rest, c);
      var a := Eval(cond, c.env);
      if a.Failed? {
        SimRaised(code, c, 1, exit, t, id, hi, a.err, a.env, fuel);
      } else {
        KeptSelf(c.temps, id, hi);
        if !Truthy(a.v) {
          LandsLater(code, c, d, t, id, hi, fuel);
        } else {
          WhileBodySim(code, cond, b, base, id, t, c, d, fuel);
        }
      }
    }
  }

  /** One more iteration: `c` stood at the top of the loop and `d` stands at its body. */
  lemma {:induction false} WhileBodySim(code: seq<Instr>, cond: Expr, b: Stmt, base: nat, id: nat, t: Targets, c: Config, d: Config,
                                        fuel: nat)
    requires fuel > 0 && c.Running? && c.pc == base && Placed(code, base, Shape(While(cond, b), base, id), t)
    requires var body := base + ExprLen(cond) + 1;
             Placed(code, body, LoopBody(Shape(b, body, id), body + StmtLen(b) + 1, base) + [Op(Jump(base))], t)
    requires d.Running? && d.pc == base + ExprLen(cond) + 1 && d.stack == c.stack && Reaches(code, c, d, 1)
    requires Kept(c.temps, d.temps, id, id + Fors(b))
    requires var a := Eval(cond, c.env); a.Got? && a.env == d.env && Truthy(a.v)
    ensures Sim(code, c, base + ExprLen(cond) + 1 + StmtLen(b) + 1, t, id, id + Fors(b), ExecWhile(cond, b, c.env, fuel), fuel)
    decreases fuel, b, 0, 1
  {
    hide Reaches, Kept, Arrives, Placed, Exec, Shape, StmtLen, Fors, Sim, ExprLen, Eval, LoopBody;
    var body := base + ExprLen(cond) + 1;
    var jump := body + StmtLen(b);
    var exit := jump + 1;
    var hi := id + Fors(b);
    var u := Targets(exit, base, t.join);
    PlacedSplit(code, body, LoopBody(Shape(b, body, id), exit, base), [Op(Jump(base))], t);
    PlacedLoopBody(code, body, Shape(b, body, id), exit, base, t);
    PlacedOne(code, jump, Op(Jump(base)), t);
    StmtSim(code, b, body, id, u, d, fuel);
    var o := Exec(b, d.env, fuel);
    if o.Gave? || o.Threw? || o.OutOfFuel? {
      SimLeaves(code, c, d, 1, jump, u, exit, t, id, hi, id, hi, o, fuel);
    } else {
      var e := SimNormal(code, d, jump, u, id, hi, o, fuel);
      if o.Normal? { ReachesStep(code, d, e, 0); }
      var f := if o.Broke? then e else Running(base, e.stack, e.env, e.temps);
      ReachesThrough(code, c, d, f, id, hi, id, hi);
      if o.Broke? {
        LandsLater(code, c, f, t, id, hi, fuel);
      } else {
        WhileSim(code, cond, b, base, id, t, f, fuel - 1);
        SimAfter(code, c, f, 1, exit, t, id, hi, id, hi, ExecWhile(cond, b, f.env, fuel - 1), fuel, fuel - 1);
      }
    }
  }

  /** The condition of a `repeat`, inverted and tested: true goes back to `base`. */
  lemma {:induction false} UntilSim(code: seq<Instr>, cond: Expr, check: nat, base: nat, t: Targets, c: Config) returns (d: Config)
    requires c.Running? && c.pc == check
    requires Placed(code, check, Ops(ExprCode(cond, check)) + [Op(Unary(Not)), Op(JumpIfFalse(base))], t)
    ensures Reaches(code, c, d, 1)
    ensures var a := Eval(cond, c.env);
            if a.Failed? then d == Raised(a.err, a.env)
            else d == Running(if Truthy(a.v) then base else check + ExprLen(cond) + 2, c.stack, a.env, c.temps)
  {
    hide Reaches, Placed, ExprCode, ExprLen, Eval, At;
    var pc := check + ExprLen(cond);
    var tail := [Op(Unary(Not)), Op(JumpIfFalse(base))];
    PlacedSplit(code, check, Ops(ExprCode(cond, check)), tail, t);
    assert tail == [Op(Unary(Not))] + [Op(JumpIfFalse(base))];
    PlacedSplit(code, pc, [Op(Unary(Not))], [Op(JumpIfFalse(base))], t);
    PlacedOps(code, check, ExprCode(cond, check), t);
    PlacedOne(code, pc, Op(Unary(Not)), t);
    PlacedOne(code, pc + 1, Op(JumpIfFalse(base)), t);
    ExprSim(code, cond, check, c.stack, c.env, c.temps);
    d := AfterExpr(Eval(cond, c.env), pc, c.stack, c.temps);
    if d.Running? {
      ReachesStep(code, c, d, 1);
      var e := Do(Unary(Not), d);
      ReachesStep(code, c, e, 1);
      d := Do(JumpIfFalse(base), e);
    }
  }

  lemma {:induction false} RepeatSim(code: seq<Instr>, b: Stmt, cond: Expr, base: nat, id: nat, t: Targets, c: Config, fuel: nat)
    requires c.Running? && c.pc == base && Placed(code, base, Shape(Repeat(b, cond), base, id), t)
    ensures Sim(code, c, base + StmtLen(b) + ExprLen(cond) + 2, t, id, id + Fors(b), ExecRepeat(b, cond, c.env, fuel), fuel)
    decreases fuel, b, 1, 0
  {
    hide Reaches, Kept, Arrives, Placed, Exec, StmtLen, Fors, Sim, ExprCode, ExprLen, Eval, LoopBody;
    var check := base + StmtLen(b);
    var exit := check + ExprLen(cond) + 2;
    var hi := id + Fors(b);
    var u := Targets(exit, check, t.join);
    if fuel == 0 {
      StartsRunning(code, c, exit, t, id, hi);
    } else {
      var test := Ops(ExprCode(cond, check)) + [Op(Unary(Not)), Op(JumpIfFalse(base))];
      PlacedSplit(code, base, LoopBody(Shape(b, base, id), exit, check), test, t);
      PlacedLoopBody(code, base, Shape(b, base, id), exit, check, t);
      StmtSim(code, b, base, id, u, c, fuel);
      var o := Exec(b, c.env, fuel);
      if o.Gave? || o.Threw? || o.OutOfFuel? {
        ReachesSelf(code, c);
        KeptSelf(c.temps, id, hi);
        SimLeaves(code, c, c, 0, check, u, exit, t, id, hi, id, hi, o, fuel);
      } else {
        var e := SimNormal(code, c, check, u, id, hi, o, fuel);
        if o.Broke? {
          SimLanded(code, c, e, t, id, hi, fuel);
        } else {
          var f := UntilSim(code, cond, check, base, t, e);
          RepeatAgain(code, b, cond, base, id, t, c, e, f, fuel);
        }
      }
    }
  }

  /** After the body of a `repeat`: `e` stands at the condition and `f` is what testing it leads to. */
  lemma {:induction false} RepeatAgain(code: seq<Instr>, b: Stmt, cond: Expr, base: nat, id: nat, t: Targets,
                                       c: Config, e: Config, f: Config, fuel: nat)
    requires fuel > 0 && c.Running? && c.pc == base && Placed(code, base, Shape(Repeat(b, cond), base, id), t)
    requires e.Running? && e.stack == c.stack && Reaches(code, c, e, 0) && Kept(c.temps, e.temps, id, id + Fors(b))
    requires Reaches(code, e, f, 1)
    requires var a := Eval(cond, e.env);
             if a.Failed? then f == Raised(a.err, a.env)
             else f == Running(if Truthy(a.v) then base else base + StmtLen(b) + ExprLen(cond) + 2, e.stack, a.env, e.temps)
    requires var o := Exec(b, c.env, fuel); (o.Normal? || o.Continued?) && o.env == e.env
    ensures Sim(code, c, base + StmtLen(b) + ExprLen(cond) + 2, t, id, id + Fors(b), ExecRepeat(b, cond, c.env, fuel), fuel)
    decreases fuel, b, 0, 1
  {
    hide Reaches, Kept, Arrives, Placed, Exec, StmtLen, Shape, Fors, Sim, ExprLen, Eval;
    var exit := base + StmtLen(b) + ExprLen(cond) + 2;
    var hi := id + Fors(b);
    ReachesTrans(code, c, e, f, 0, 1);
    var a := Eval(cond, e.env);
    if a.Failed? {
      SimRaised(code, c, 1, exit, t, id, hi, a.err, a.env, fuel);
    } else if Truthy(a.v) {
      RepeatSim(code, b, cond, base, id, t, f, fuel - 1);
      SimAfter(code, c, f, 1, exit, t, id, hi, id, hi, ExecRepeat(b, cond, f.env, fuel - 1), fuel, fuel - 1);
    } else {
      LandsLater(code, c, f, t, id, hi, fuel);
    }
  }

  // ---------- for ----------

  /** An expression and the definition that stores it. */
  lemma {:induction false} DefineSim(code: seq<Instr>, e: Expr, name: Name, base: nat, t: Targets, rest: seq<Sym>, c: Config)
    returns (d: Config)
    requires c.Running? && c.pc == base
    requires Placed(code, base, Ops(ExprCode(e, base)) + ([Op(DefineVar(name))] + rest), t)
    ensures Placed(code, base + ExprLen(e) + 1, rest, t)
    ensures Reaches(code, c, d, 1)
    ensures var a := Eval(e, c.env);
            if a.Failed? then d == Raised(a.err, a.env)
            else d == Define(name, a.v, Running(base + ExprLen(e) + 1, c.stack, a.env, c.temps))
  {
    hide Reaches, Placed, ExprCode, ExprLen, Eval, At;
    var pc := base + ExprLen(e);
    PlacedSplit(code, base, Ops(ExprCode(e, base)), [Op(DefineVar(name))] + rest, t);
    PlacedSplit(code, pc, [Op(DefineVar(name))], rest, t);
    PlacedOps(code, base, ExprCode(e, base), t);
    PlacedOne(code, pc, Op(DefineVar(name)), t);
    ExprSim(code, e, base, c.stack, c.env, c.temps);
    d := AfterExpr(Eval(e, c.env), pc, c.stack, c.temps);
    if d.Running? {
      ReachesStep(code, c, d, 1);
      d := Do(DefineVar(name), d);
    }
  }

  /** Start, end and step are computed once, in that order; the loop variable is already bound when `end` is. */
  lemma {:induction false} ForSetupSim(code: seq<Instr>, s: Stmt, base: nat, id: nat, t: Targets, c: Config)
    returns (d: Config)
    requires s.For? && c.Running? && c.pc == base && Placed(code, base, ForSetup(s.x, s.start, s.end, s.step, base, id), t)
    ensures Reaches(code, c, d, 1)
    ensures var a := Eval(s.start, c.env);
            if a.Failed? then d == Raised(a.err, a.env) else
            var e := Eval(s.end, Bind(a.env, s.x, a.v));
            if e.Failed? then d == Raised(e.err, e.env) else
            var f := Eval(s.step, e.env);
            if f.Failed? then d == Raised(f.err, f.env) else
            d == Running(base + ExprLen(s.start) + 1 + ExprLen(s.end) + 1 + ExprLen(s.step) + 1, c.stack, f.env,
                         c.temps[ForEnd(id) := e.v][ForStep(id) := f.v])
  {
    hide Reaches, Placed, ExprCode, ExprLen, Eval;
    var second := base + ExprLen(s.start) + 1;
    var third := second + ExprLen(s.end) + 1;
    var r3 := Ops(ExprCode(s.step, third)) + [Op(DefineVar(Hidden(ForStep(id))))];
    var r2 := Ops(ExprCode(s.end, second)) + ([Op(DefineVar(Hidden(ForEnd(id))))] + r3);
    assert r3 == Ops(ExprCode(s.step, third)) + ([Op(DefineVar(Hidden(ForStep(id))))] + []);
    d := DefineSim(code, s.start, User(s.x), base, t, r2, c);
    if d.Running? {
      var d1 := d;
      d := DefineSim(code, s.end, Hidden(ForEnd(id)), second, t, r3, d1);
      ReachesTrans(code, c, d1, d, 1, 1);
      ReachesFewer(code, c, d, 2, 1);
      if d.Running? {
        var d2 := d;
        d := DefineSim(code, s.step, Hidden(ForStep(id)), third, t, [], d2);
        ReachesTrans(code, c, d2, d, 1, 1);
        ReachesFewer(code, c, d, 2, 1);
      }
    }
  }

  lemma {:induction false} PlacedHere(code: seq<Instr>, base: nat, xs: seq<Sym>, k: nat, t: Targets)
    requires Placed(code, base, xs, t) && k < |xs|
    ensures base + k < |code| && code[base + k] == Resolved(xs[k], t)
  {
  }

  ghost predicate HoldsRange(c: Config, id: nat, end: Value, step: Value) {
    && c.Running? && ForEnd(id) in c.temps && c.temps[ForEnd(id)] == end
    && ForStep(id) in c.temps && c.temps[ForStep(id)] == step
  }

  lemma {:induction false} ForTestSim(code: seq<Instr>, x: string, id: nat, top: nat, exit: nat, t: Targets, c: Config,
                                      end: Value, step: Value) returns (d: Config)
    requires HoldsRange(c, id, end, step) && c.pc == top && Placed(code, top, ForTest(x, id, exit), t)
    ensures Reaches(code, c, d, 1)
    ensures if x !in c.env.vars then d == Raised(RuntimeError, c.env) else
            var go := RangeContinue(c.env.vars[x], end, step);
            if go.Err? then d == Raised(go.error, c.env)
            else d == Running(if go.value then top + 5 else exit, c.stack, c.env, c.temps)
  {
    hide Reaches, Placed, RangeContinue;
    var xs := ForTest(x, id, exit);
    PlacedHere(code, top, xs, 0, t);
    PlacedHere(code, top, xs, 1, t);
    PlacedHere(code, top, xs, 2, t);
    PlacedHere(code, top, xs, 3, t);
    PlacedHere(code, top, xs, 4, t);
    FirstStep(code, c);
    d := Do(code[top], c);
    if x in c.env.vars {
      ReachesStep(code, c, d, 1);
      d := Do(code[top + 1], d);
      ReachesStep(code, c, d, 1);
      d := Do(code[top + 2], d);
      ReachesStep(code, c, d, 1);
      d := Do(code[top + 3], d);
      if d.Running? {
        ReachesStep(code, c, d, 1);
        d := Do(code[top + 4], d);
      }
    }
  }

  lemma {:induction false} ForAdvanceSim(code: seq<Instr>, x: string, id: nat, pc: nat, top: nat, t: Targets, c: Config,
                                         end: Value, step: Value) returns (d: Config)
    requires HoldsRange(c, id, end, step) && c.pc == pc && Placed(code, pc, ForAdvance(x, id, top), t)
    ensures Reaches(code, c, d, 1)
    ensures if x !in c.env.vars then d == Raised(RuntimeError, c.env) else
            var next := ApplyBinary(Add, c.env.vars[x], step);
            if next.Err? then d == Raised(next.error, c.env)
            else d == Running(top, c.stack, Bind(c.env, x, next.value), c.temps)
  {
    hide Reaches, Placed, ApplyBinary;
    var xs := ForAdvance(x, id, top);
    PlacedHere(code, pc, xs, 0, t);
    PlacedHere(code, pc, xs, 1, t);
    PlacedHere(code, pc, xs, 2, t);
    PlacedHere(code, pc, xs, 3, t);
    PlacedHere(code, pc, xs, 4, t);
    FirstStep(code, c);
    d := Do(code[pc], c);
    if x in c.env.vars {
      ReachesStep(code, c, d, 1);
      d := Do(code[pc + 1], d);
      ReachesStep(code, c, d, 1);
      d := Do(code[pc + 2], d);
      if d.Running? {
        ReachesStep(code, c, d, 1);
        d := Do(code[pc + 3], d);
        ReachesStep(code, c, d, 1);
        d := Do(code[pc + 4], d);
      }
    }
  }

  lemma {:induction false} HoldsAfter(c: Config, d: Config, id: nat, hi: nat, end: Value, step: Value)
    requires HoldsRange(c, id, end, step) && d.Running? && Kept(c.temps, d.temps, id + 1, hi)
    ensures HoldsRange(d, id, end, step) && Kept(c.temps, d.temps, id, hi)
  {
    assert ForEnd(id).loop == id && ForStep(id).loop == id;
  }

  /** The loop proper. Its own `end` and `step` are out of reach of the body, whose loops have higher numbers. */
  lemma {:induction false} ForLoopSim(code: seq<Instr>, x: string, b: Stmt, top: nat, id: nat, t: Targets, c: Config,
                                      end: Value, step: Value, fuel: nat)
    requires HoldsRange(c, id, end, step) && c.pc == top
    requires Placed(code, top, ForLoop(x, Shape(b, top + 5, id + 1), top, id), t)
    ensures Sim(code, c, top + 5 + StmtLen(b) + 5, t, id, id + 1 + Fors(b), ExecFor(x, end, step, b, c.env, fuel), fuel)
    decreases fuel, b, 1, 0
  {
    hide Reaches, Kept, Arrives, Placed, Exec, Shape, StmtLen, Fors, Sim, LoopBody, ForTest, ForAdvance;
    hide ForLoop, RangeContinue, ApplyBinary;
    var advance := top + 5 + StmtLen(b);
    var exit := advance + 5;
    var hi := id + 1 + Fors(b);
    if fuel == 0 {
      StartsRunning(code, c, exit, t, id, hi);
    } else {
      ForPlaced(code, x, Shape(b, top + 5, id + 1), top, id, t);
      var d := ForTestSim(code, x, id, top, exit, t, c, end, step);
      KeptSelf(c.temps, id, hi);
      if d.Raised? {
        SimRaised(code, c, 1, exit, t, id, hi, d.err, d.env, fuel);
      } else if !RangeContinue(c.env.vars[x], end, step).value {
        LandsLater(code, c, d, t, id, hi, fuel);
      } else {
        ForBodySim(code, x, b, top, id, t, c, d, end, step, fuel);
      }
    }
  }

  lemma {:induction false} ForPlaced(code: seq<Instr>, x: string, body: seq<Sym>, top: nat, id: nat, t: Targets)
    requires Placed(code, top, ForLoop(x, body, top, id), t)
    ensures var advance := top + 5 + |body|;
            && Placed(code, top, ForTest(x, id, advance + 5), t)
            && Placed(code, top + 5, body, Targets(advance + 5, advance, t.join))
            && Placed(code, advance, ForAdvance(x, id, top), t)
  {
    hide Placed, LoopBody, ForTest, ForAdvance;
    var advance := top + 5 + |body|;
    PlacedSplit(code, top, ForTest(x, id, advance + 5), LoopBody(body, advance + 5, advance) + ForAdvance(x, id, top), t);
    PlacedSplit(code, top + 5, LoopBody(body, advance + 5, advance), ForAdvance(x, id, top), t);
    PlacedLoopBody(code, top + 5, body, advance + 5, advance, t);
  }

  /** The body of an iteration that was entered. */
  lemma {:induction false} ForBodySim(code: seq<Instr>, x: string, b: Stmt, top: nat, id: nat, t: Targets, c: Config, d: Config,
                                      end: Value, step: Value, fuel: nat)
    requires fuel > 0 && HoldsRange(c, id, end, step) && c.pc == top
    requires Placed(code, top, ForLoop(x, Shape(b, top + 5, id + 1), top, id), t)
    requires x in c.env.vars && RangeContinue(c.env.vars[x], end, step) == Ok(true)
    requires d == Running(top + 5, c.stack, c.env, c.temps) && Reaches(code, c, d, 1)
    ensures Sim(code, c, top + 5 + StmtLen(b) + 5, t, id, id + 1 + Fors(b), ExecFor(x, end, step, b, c.env, fuel), fuel)
    decreases fuel, b, 0, 2
  {
    hide Reaches, Kept, Arrives, Placed, Exec, Shape, StmtLen, Fors, Sim, LoopBody, ForTest, ForAdvance;
    hide ForLoop, RangeContinue, ApplyBinary;
    var advance := top + 5 + StmtLen(b);
    var exit := advance + 5;
    var hi := id + 1 + Fors(b);
    var u := Targets(exit, advance, t.join);
    ForPlaced(code, x, Shape(b, top + 5, id + 1), top, id, t);
    KeptSelf(c.temps, id, hi);
    StmtSim(code, b, top + 5, id + 1, u, d, fuel);
    var o := Exec(b, d.env, fuel);
    if o.Gave? || o.Threw? || o.OutOfFuel? {
      SimLeaves(code, c, d, 1, advance, u, exit, t, id, hi, id + 1, hi, o, fuel);
    } else {
      var e := SimNormal(code, d, advance, u, id + 1, hi, o, fuel);
      HoldsAfter(d, e, id, hi, end, step);
      ReachesThrough(code, c, d, e, id, hi, id, hi);
      if o.Broke? {
        LandsLater(code, c, e, t, id, hi, fuel);
      } else {
        ForAgain(code, x, b, top, id, t, c, e, end, step, fuel);
      }
    }
  }

  /** After the body of a `for`: `e` stands at the increment. */
  lemma {:induction false} ForAgain(code: seq<Instr>, x: string, b: Stmt, top: nat, id: nat, t: Targets, c: Config, e: Config,
                                    end: Value, step: Value, fuel: nat)
    requires fuel > 0 && c.Running? && HoldsRange(e, id, end, step) && e.pc == top + 5 + StmtLen(b)
    requires Placed(code, top, ForLoop(x, Shape(b, top + 5, id + 1), top, id), t)
    requires x in c.env.vars && RangeContinue(c.env.vars[x], end, step) == Ok(true)
    requires e.stack == c.stack && Reaches(code, c, e, 1) && Kept(c.temps, e.temps, id, id + 1 + Fors(b))
    requires var o := Exec(b, c.env, fuel); (o.Normal? || o.Continued?) && o.env == e.env
    ensures Sim(code, c, top + 5 + StmtLen(b) + 5, t, id, id + 1 + Fors(b), ExecFor(x, end, step, b, c.env, fuel), fuel)
    decreases fuel, b, 0, 1
  {
    hide Reaches, Kept, Arrives, Placed, Exec, Shape, StmtLen, Fors, Sim, LoopBody, ForTest, ForAdvance;
    hide ForLoop, RangeContinue, ApplyBinary;
    var advance := top + 5 + StmtLen(b);
    var exit := advance + 5;
    var hi := id + 1 + Fors(b);
    ForPlaced(code, x, Shape(b, top + 5, id + 1), top, id, t);
    var f := ForAdvanceSim(code, x, id, advance, top, t, e, end, step);
    ReachesTrans(code, c, e, f, 1, 1);
    ReachesFewer(code, c, f, 2, 1);
    if f.Raised? {
      SimRaised(code, c, 1, exit, t, id, hi, f.err, f.env, fuel);
    } else {
      ForLoopSim(code, x, b, top, id, t, f, end, step, fuel - 1);
      SimAfter(code, c, f, 1, exit, t, id, hi, id, hi, ExecFor(x, end, step, b, f.env, fuel - 1), fuel, fuel - 1);
    }
  }

  lemma {:induction false} KeptOwn(a: map<Temp, Value>, id: nat, hi: nat, v: Value, w: Value)
    requires id < hi
    ensures Kept(a, a[ForEnd(id) := v][ForStep(id) := w], id, hi)
  {
  }

  lemma {:induction false} ForSim(code: seq<Instr>, s: Stmt, base: nat, id: nat, t: Targets, c: Config, fuel: nat)
    requires s.For? && c.Running? && c.pc == base && Placed(code, base, Shape(s, base, id), t)
    ensures SimStmt(code, s, base, id, t, c, fuel)
    decreases fuel, s.body, 2, 0
  {
    hide Reaches, Kept, Arrives, Placed, Sim, ForLoop, ForSetup, ExprLen, ExprCode, Eval, ExecFor;
    var top := base + ExprLen(s.start) + 1 + ExprLen(s.end) + 1 + ExprLen(s.step) + 1;
    var hi := id + 1 + Fors(s.body);
    PlacedSplit(code, base, ForSetup(s.x, s.start, s.end, s.step, base, id), ForLoop(s.x, Shape(s.body, top + 5, id + 1), top, id), t);
    var d := ForSetupSim(code, s, base, id, t, c);
    if d.Raised? {
      SimRaised(code, c, 1, base + StmtLen(s), t, id, hi, d.err, d.env, fuel);
    } else {
      var a := Eval(s.start, c.env);
      var e := Eval(s.end, Bind(a.env, s.x, a.v));
      var f := Eval(s.step, e.env);
      ForLoopSim(code, s.x, s.body, top, id, t, d, e.v, f.v, fuel);
      KeptOwn(c.temps, id, hi, e.v, f.v);
      SimAfter(code, c, d, 1, base + StmtLen(s), t, id, hi, id, hi, ExecFor(s.x, e.v, f.v, s.body, f.env, fuel), fuel, fuel);
    }
  }
}

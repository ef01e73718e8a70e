/** The structured fragment of the source language, and what it means: expressions are evaluated directly on the
    variables, statements are executed with explicit break, continue, return and raise outcomes. Nothing here knows
    of stacks, jumps or addresses. */
module SourceLanguage {
  import opened Wrappers
  import opened BytecodeVm

  datatype Expr =
    | Lit(v: Value)
    | Var(x: string)
    | UnaryExpr(un: UnaryOp, operand: Expr)
    | BinaryExpr(bin: BinaryOp, left: Expr, right: Expr)
    | AndExpr(left: Expr, right: Expr)
    | OrExpr(left: Expr, right: Expr)
    | Assign(x: string, rhs: Expr)

  /** The arms of an `if`: the conditional branches in order, then the `else` body if there is one. */
  datatype Arms = When(cond: Expr, body: Stmt, rest: Arms) | Otherwise(orElse: Option<Stmt>)

  datatype Stmt =
    | VarDecl(x: string, init: Option<Expr>)
    | ExprStmt(e: Expr)
    | LogStmt(e: Expr)
    | Block(stmts: seq<Stmt>)
    | If(arms: Arms)
    | While(cond: Expr, body: Stmt)
    | Repeat(body: Stmt, cond: Expr)
    | For(x: string, start: Expr, end: Expr, step: Expr, body: Stmt)
    | Break
    | Continue
    | ReturnStmt(result: Option<Expr>)

  // ---------- expressions ----------

  datatype Evaluated = Got(v: Value, env: Env) | Failed(err: Error, env: Env)

  function Lifted(r: Result<Value>, env: Env): Evaluated {
    match r
    case Ok(v) => Got(v, env)
    case Err(e) => Failed(e, env)
  }

  function Bind(env: Env, x: string, v: Value): Env {
    env.(vars := env.vars[x := v])
  }

  /** Operands left to right; `&&` and `||` skip the right operand when the left one decides, and give a boolean. */
  function Eval(e: Expr, env: Env): Evaluated {
    match e
    case Lit(v) => Got(v, env)
    case Var(x) => if x in env.vars then Got(env.vars[x], env) else Failed(RuntimeError, env)
    case UnaryExpr(op, e1) =>
      var a := Eval(e1, env);
      if a.Failed? then a else Lifted(ApplyUnary(op, a.v), a.env)
    case BinaryExpr(op, l, r) =>
      var a := Eval(l, env);
      if a.Failed? then a else
      var b := Eval(r, a.env);
      if b.Failed? then b else Lifted(ApplyBinary(op, a.v, b.v), b.env)
    case AndExpr(l, r) =>
      var a := Eval(l, env);
      if a.Failed? then a
      else if !Truthy(a.v) then Got(Bool(false), a.env)
      else var b := Eval(r, a.env); if b.Failed? then b else Got(Bool(Truthy(b.v)), b.env)
    case OrExpr(l, r) =>
      var a := Eval(l, env);
      if a.Failed? then a
      else if Truthy(a.v) then Got(Bool(true), a.env)
      else var b := Eval(r, a.env); if b.Failed? then b else Got(Bool(Truthy(b.v)), b.env)
    case Assign(x, e1) =>
      var a := Eval(e1, env);
      if a.Failed? then a else Got(a.v, Bind(a.env, x, a.v))
  }

  function EvalOrNil(e: Option<Expr>, env: Env): Evaluated {
    if e.Some? then Eval(e.value, env) else Got(Nil, env)
  }

  // ---------- statements ----------

  datatype Outcome =
    | Normal(env: Env)
    | Broke(env: Env)
    | Continued(env: Env)
    | Gave(v: Value, env: Env)
    | Threw(err: Error, env: Env)
    | OutOfFuel

  /** Fuel bounds the number of iterations of each loop; a run that needs more gives `OutOfFuel`. */
  function Exec(s: Stmt, env: Env, fuel: nat): Outcome
    decreases fuel, s, 0
  {
    match s
    case VarDecl(x, init) =>
      var a := EvalOrNil(init, env);
      if a.Failed? then Threw(a.err, a.env) else Normal(Bind(a.env, x, a.v))
    case ExprStmt(e) =>
      var a := Eval(e, env);
      if a.Failed? then Threw(a.err, a.env) else Normal(a.env)
    case LogStmt(e) =>
      var a := Eval(e, env);
      if a.Failed? then Threw(a.err, a.env) else Normal(a.env.(out := a.env.out + [a.v]))
    case Block(ss) => ExecAll(ss, env, fuel)
    case If(arms) => ExecIf(arms, env, fuel)
    case While(c, b) => ExecWhile(c, b, env, fuel)
    case Repeat(b, c) => ExecRepeat(b, c, env, fuel)
    case For(x, start, end, step, b) =>
      var a := Eval(start, env);
      if a.Failed? then Threw(a.err, a.env) else
      var e := Eval(end, Bind(a.env, x, a.v));
      if e.Failed? then Threw(e.err, e.env) else
      var d := Eval(step, e.env);
      if d.Failed? then Threw(d.err, d.env) else ExecFor(x, e.v, d.v, b, d.env, fuel)
    case Break => Broke(env)
    case Continue => Continued(env)
    case ReturnStmt(e) =>
      var a := EvalOrNil(e, env);
      if a.Failed? then Threw(a.err, a.env) else Gave(a.v, a.env)
  }

  function ExecAll(ss: seq<Stmt>, env: Env, fuel: nat): Outcome
    decreases fuel, ss, 0
  {
    if ss == [] then Normal(env) else
    var r := Exec(ss[0], env, fuel);
    if r.Normal? then ExecAll(ss[1..], r.env, fuel) else r
  }

  function ExecIf(arms: Arms, env: Env, fuel: nat): Outcome
    decreases fuel, arms, 0
  {
    match arms
    case Otherwise(orElse) => if orElse.Some? then Exec(orElse.value, env, fuel) else Normal(env)
    case When(cond, body, rest) =>
      var a := Eval(cond, env);
      if a.Failed? then Threw(a.err, a.env)
      else if Truthy(a.v) then Exec(body, a.env, fuel)
      else ExecIf(rest, a.env, fuel)
  }

  function ExecWhile(c: Expr, b: Stmt, env: Env, fuel: nat): Outcome
    decreases fuel, b, 1
  {
    if fuel == 0 then OutOfFuel else
    var a := Eval(c, env);
    if a.Failed? then Threw(a.err, a.env)
    else if !Truthy(a.v) then Normal(a.env)
    else
      var r := Exec(b, a.env, fuel);
      if r.Normal? || r.Continued? then ExecWhile(c, b, r.env, fuel - 1)
      else if r.Broke? then Normal(r.env)
      else r
  }

  function ExecRepeat(b: Stmt, c: Expr, env: Env, fuel: nat): Outcome
    decreases fuel, b, 1
  {
    if fuel == 0 then OutOfFuel else
    var r := Exec(b, env, fuel);
    if r.Normal? || r.Continued? then
      var a := Eval(c, r.env);
      if a.Failed? then Threw(a.err, a.env)
      else if Truthy(a.v) then ExecRepeat(b, c, a.env, fuel - 1)
      else Normal(a.env)
    else if r.Broke? then Normal(r.env)
    else r
  }

  /** `end` and `step` were computed once; the loop variable is read afresh, so the body may change it. */
  function ExecFor(x: string, end: Value, step: Value, b: Stmt, env: Env, fuel: nat): Outcome
    decreases fuel, b, 1
  {
    if fuel == 0 then OutOfFuel else
    if x !in env.vars then Threw(RuntimeError, env) else
    var go := RangeContinue(env.vars[x], end, step);
    if go.Err? then Threw(go.error, env)
    else if !go.value then Normal(env)
    else
      var r := Exec(b, env, fuel);
      if r.Normal? || r.Continued? then
        if x !in r.env.vars then Threw(RuntimeError, r.env) else
        var next := ApplyBinary(Add, r.env.vars[x], step);
        if next.Err? then Threw(next.error, r.env)
        else ExecFor(x, end, step, b, Bind(r.env, x, next.value), fuel - 1)
      else if r.Broke? then Normal(r.env)
      else r
  }

  // ---------- where break and continue may stand ----------

  predicate WellPlaced(s: Stmt, inLoop: bool)
    decreases s
  {
    match s
    case VarDecl(_, _) => true
    case ExprStmt(_) => true
    case LogStmt(_) => true
    case Block(ss) => AllPlaced(ss, inLoop)
    case If(arms) => ArmsPlaced(arms, inLoop)
    case While(_, b) => WellPlaced(b, true)
    case Repeat(b, _) => WellPlaced(b, true)
    case For(_, _, _, _, b) => WellPlaced(b, true)
    case Break => inLoop
    case Continue => inLoop
    case ReturnStmt(_) => true
  }

  predicate AllPlaced(ss: seq<Stmt>, inLoop: bool)
    decreases ss
  {
    ss != [] ==> WellPlaced(ss[0], inLoop) && AllPlaced(ss[1..], inLoop)
  }

  predicate ArmsPlaced(arms: Arms, inLoop: bool)
    decreases arms
  {
    match arms
    case Otherwise(orElse) => orElse.Some? ==> WellPlaced(orElse.value, inLoop)
    case When(_, body, rest) => WellPlaced(body, inLoop) && ArmsPlaced(rest, inLoop)
  }
}

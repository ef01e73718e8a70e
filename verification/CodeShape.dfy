/** What src/compiler/compiler.cpp emits, as functions of the tree: `ExprCode` for expressions, and for statements a
    shape whose not yet patched jumps are labelled holes. */
module CodeShape {
  import opened Wrappers
  import opened Int64
  import opened BytecodeVm
  import Bits
  import opened SourceLanguage

  // ---------- constant folding ----------

  /** `tryFoldBinaryLiterals` on two integer literals: an operation that would raise is left for the machine, and a
      power is never folded. */
  function FoldInts(op: BinaryOp, x: int64, y: int64): Option<Value> {
    match op
    case Add => if CheckedAdd(x, y).Some? then Some(Int(CheckedAdd(x, y).value)) else None
    case Sub => if CheckedSub(x, y).Some? then Some(Int(CheckedSub(x, y).value)) else None
    case Mul => if CheckedMul(x, y).Some? then Some(Int(CheckedMul(x, y).value)) else None
    case Div =>
      if y != 0 && !(x == MIN && y == -1) then
        QuotientFits(x, y);
        Some(Int(TruncDiv(x, y)))
      else None
    case Mod =>
      if y == 0 then None
      else if x == MIN && y == -1 then Some(Int(0))
      else
        QuotientFits(x, y);
        Some(Int(TruncMod(x, y)))
    case Pow => None
    case Lt => Some(Bool(x < y))
    case Gt => Some(Bool(x > y))
    case Lte => Some(Bool(x <= y))
    case Gte => Some(Bool(x >= y))
    case Eq => Some(Bool(x == y))
    case Neq => Some(Bool(x != y))
    case BitAnd => Some(Int(Bits.BitAnd(x, y)))
    case BitOr => Some(Int(Bits.BitOr(x, y)))
    case BitXor => Some(Int(Bits.BitXor(x, y)))
    case Shl => if 0 <= y < 64 then Some(Int(Bits.ShiftLeft(x, y))) else None
    case Shr => if 0 <= y < 64 then Some(Int(Bits.ShiftRight(x, y))) else None
    case Ushr => if 0 <= y < 64 then Some(Int(Bits.ShiftRightLogical(x, y))) else None
  }

  function TryFold(e: Expr): Option<Value> {
    match e
    case BinaryExpr(op, Lit(Int(x)), Lit(Int(y))) => FoldInts(op, x, y)
    case BinaryExpr(Eq, Lit(Bool(a)), Lit(Bool(b))) => Some(Bool(a == b))
    case BinaryExpr(Neq, Lit(Bool(a)), Lit(Bool(b))) => Some(Bool(a != b))
    case AndExpr(Lit(Bool(a)), Lit(Bool(b))) => Some(Bool(a && b))
    case OrExpr(Lit(Bool(a)), Lit(Bool(b))) => Some(Bool(a || b))
    case _ => None
  }

  /** A folded expression always evaluates to the folded constant; it never raises and changes nothing. */
  lemma {:induction false} FoldIsEvaluation(e: Expr, env: Env)
    requires TryFold(e).Some?
    ensures Eval(e, env) == Got(TryFold(e).value, env)
  {
    match e
    case BinaryExpr(op, l, r) =>
      assert Eval(l, env) == Got(l.v, env) && Eval(r, env) == Got(r.v, env);
    case AndExpr(l, r) =>
      assert Eval(l, env) == Got(l.v, env) && Eval(r, env) == Got(r.v, env);
    case OrExpr(l, r) =>
      assert Eval(l, env) == Got(l.v, env) && Eval(r, env) == Got(r.v, env);
  }

  /** Exactly the operations on two integer literals that do not raise are folded, except powers, and on two boolean literals
      equality, `&&` and `||`. */
  lemma {:induction false} FoldsExactly(e: Expr)
    ensures TryFold(e).Some? <==>
            match e
            case BinaryExpr(op, Lit(a), Lit(b)) =>
              (a.Int? && b.Int? && op != Pow && ApplyBinary(op, a, b).Ok?) || (a.Bool? && b.Bool? && (op == Eq || op == Neq))
            case AndExpr(Lit(a), Lit(b)) => a.Bool? && b.Bool?
            case OrExpr(Lit(a), Lit(b)) => a.Bool? && b.Bool?
            case _ => false
  {
    hide Bits.BitAnd, Bits.BitOr, Bits.BitXor, Bits.ShiftLeft, Bits.ShiftRight, Bits.ShiftRightLogical;
  }

  // ---------- expressions ----------

  function ExprLen(e: Expr): nat {
    if TryFold(e).Some? then 1 else
    match e
    case Lit(_) => 1
    case Var(_) => 1
    case UnaryExpr(_, e1) => ExprLen(e1) + 1
    case BinaryExpr(_, l, r) => ExprLen(l) + ExprLen(r) + 1
    case AndExpr(l, r) => ExprLen(l) + ExprLen(r) + 5
    case OrExpr(l, r) => ExprLen(l) + ExprLen(r) + 6
    case Assign(_, e1) => ExprLen(e1) + 2
  }

  /** Code of `e` when its first instruction lands at `base`. */
  function ExprCode(e: Expr, base: nat): (r: seq<Instr>)
    ensures |r| == ExprLen(e)
  {
    if TryFold(e).Some? then [PushConst(TryFold(e).value)] else
    match e
    case Lit(v) => [PushConst(v)]
    case Var(x) => [LoadVar(User(x))]
    case UnaryExpr(op, e1) => ExprCode(e1, base) + [Unary(op)]
    case BinaryExpr(op, l, r) => ExprCode(l, base) + (ExprCode(r, base + ExprLen(l)) + [Binary(op)])
    case AndExpr(l, r) =>
      var right := base + ExprLen(l) + 1;
      var otherwise := right + ExprLen(r) + 3;
      ExprCode(l, base) + ([JumpIfFalse(otherwise)] + (ExprCode(r, right) +
        [Unary(Not), Unary(Not), Jump(otherwise + 1), PushConst(Bool(false))]))
    case OrExpr(l, r) =>
      var right := base + ExprLen(l) + 2;
      var otherwise := right + ExprLen(r) + 3;
      ExprCode(l, base) + ([Unary(Not), JumpIfFalse(otherwise)] + (ExprCode(r, right) +
        [Unary(Not), Unary(Not), Jump(otherwise + 1), PushConst(Bool(true))]))
    case Assign(x, e1) => ExprCode(e1, base) + [Dup, DefineVar(User(x))]
  }

  function OrNilLen(e: Option<Expr>): nat {
    if e.Some? then ExprLen(e.value) else 1
  }

  function OrNilCode(e: Option<Expr>, base: nat): (r: seq<Instr>)
    ensures |r| == OrNilLen(e)
  {
    if e.Some? then ExprCode(e.value, base) else [PushConst(Nil)]
  }

  // ---------- statements ----------

  /** Where an unpatched jump will go: past the enclosing loop, to its next iteration, or past the enclosing `if`. */
  datatype Label = Exit | Again | Join

  datatype Sym = Op(i: Instr) | Hole(dest: Label)

  function Ops(code: seq<Instr>): (xs: seq<Sym>)
    ensures |xs| == |code|
  {
    seq(|code|, i requires 0 <= i < |code| => Op(code[i]))
  }

  /** Resolve every hole labelled `l` to `target`. */
  function Fill(xs: seq<Sym>, l: Label, target: nat): (r: seq<Sym>)
    ensures |r| == |xs|
  {
    seq(|xs|, i requires 0 <= i < |xs| => if xs[i] == Hole(l) then Op(Jump(target)) else xs[i])
  }

  /** Number of `for` loops inside, each of which uses up one number for its hidden variables. */
  function Fors(s: Stmt): nat
    decreases s
  {
    match s
    case Block(ss) => ForsIn(ss)
    case If(arms) => ForsInArms(arms)
    case While(_, b) => Fors(b)
    case Repeat(b, _) => Fors(b)
    case For(_, _, _, _, b) => 1 + Fors(b)
    case _ => 0
  }

  function ForsIn(ss: seq<Stmt>): nat
    decreases ss
  {
    if ss == [] then 0 else Fors(ss[0]) + ForsIn(ss[1..])
  }

  function ForsInArms(arms: Arms): nat
    decreases arms
  {
    match arms
    case Otherwise(orElse) => if orElse.Some? then Fors(orElse.value) else 0
    case When(_, body, rest) => Fors(body) + ForsInArms(rest)
  }

  function StmtLen(s: Stmt): nat
    decreases s
  {
    match s
    case VarDecl(_, init) => OrNilLen(init) + 1
    case ExprStmt(e) => ExprLen(e) + 1
    case LogStmt(e) => ExprLen(e) + 1
    case Block(ss) => BlockLen(ss)
    case If(arms) => ArmsLen(arms)
    case While(c, b) => ExprLen(c) + 1 + StmtLen(b) + 1
    case Repeat(b, c) => StmtLen(b) + ExprLen(c) + 2
    case For(_, start, end, step, b) =>
      ExprLen(start) + 1 + ExprLen(end) + 1 + ExprLen(step) + 1 + 5 + StmtLen(b) + 5
    case Break => 1
    case Continue => 1
    case ReturnStmt(e) => OrNilLen(e) + 1
  }

  function BlockLen(ss: seq<Stmt>): nat
    decreases ss
  {
    if ss == [] then 0 else StmtLen(ss[0]) + BlockLen(ss[1..])
  }

  function ArmsLen(arms: Arms): nat
    decreases arms
  {
    match arms
    case Otherwise(orElse) => if orElse.Some? then StmtLen(orElse.value) else 0
    case When(c, body, rest) => ExprLen(c) + 1 + StmtLen(body) + 1 + ArmsLen(rest)
  }

  /** Shape of `s` when it lands at `base` and the next unused `for` number is `id`. */
  function Shape(s: Stmt, base: nat, id: nat): (r: seq<Sym>)
    ensures |r| == StmtLen(s)
    decreases s
  {
    match s
    case VarDecl(x, init) => Ops(OrNilCode(init, base)) + [Op(DefineVar(User(x)))]
    case ExprStmt(e) => Ops(ExprCode(e, base)) + [Op(Discard)]
    case LogStmt(e) => Ops(ExprCode(e, base)) + [Op(Log)]
    case Block(ss) => BlockShape(ss, base, id)
    case If(arms) => Fill(ArmsShape(arms, base, id), Join, base + ArmsLen(arms))
    case While(c, b) =>
      var body := base + ExprLen(c) + 1;
      var exit := body + StmtLen(b) + 1;
      Ops(ExprCode(c, base)) + ([Op(JumpIfFalse(exit))] + (LoopBody(Shape(b, body, id), exit, base) + [Op(Jump(base))]))
    case Repeat(b, c) =>
      var check := base + StmtLen(b);
      var exit := check + ExprLen(c) + 2;
      LoopBody(Shape(b, base, id), exit, check)
        + (Ops(ExprCode(c, check)) + [Op(Unary(Not)), Op(JumpIfFalse(base))])
    case For(x, start, end, step, b) =>
      var top := base + ExprLen(start) + 1 + ExprLen(end) + 1 + ExprLen(step) + 1;
      ForSetup(x, start, end, step, base, id) + ForLoop(x, Shape(b, top + 5, id + 1), top, id)
    case Break => [Hole(Exit)]
    case Continue => [Hole(Again)]
    case ReturnStmt(e) => Ops(OrNilCode(e, base)) + [Op(Return)]
  }

  function LoopBody(body: seq<Sym>, exit: nat, again: nat): (r: seq<Sym>)
    ensures |r| == |body|
  {
    Fill(Fill(body, Exit, exit), Again, again)
  }

  function ForSetup(x: string, start: Expr, end: Expr, step: Expr, base: nat, id: nat): (r: seq<Sym>)
    ensures |r| == ExprLen(start) + 1 + ExprLen(end) + 1 + ExprLen(step) + 1
  {
    var second := base + ExprLen(start) + 1;
    var third := second + ExprLen(end) + 1;
    Ops(ExprCode(start, base)) + ([Op(DefineVar(User(x)))]
      + (Ops(ExprCode(end, second)) + ([Op(DefineVar(Hidden(ForEnd(id))))]
      + (Ops(ExprCode(step, third)) + [Op(DefineVar(Hidden(ForStep(id))))]))))
  }

  function ForTest(x: string, id: nat, exit: nat): (r: seq<Sym>)
    ensures |r| == 5
  {
    [Op(LoadVar(User(x))), Op(LoadVar(Hidden(ForEnd(id)))), Op(LoadVar(Hidden(ForStep(id)))), Op(Range),
     Op(JumpIfFalse(exit))]
  }

  function ForAdvance(x: string, id: nat, top: nat): (r: seq<Sym>)
    ensures |r| == 5
  {
    [Op(LoadVar(User(x))), Op(LoadVar(Hidden(ForStep(id)))), Op(Binary(Add)), Op(DefineVar(User(x))), Op(Jump(top))]
  }

  /** The part of a `for` that starts at `top`: the test, the body, and the increment `continue` lands on. */
  function ForLoop(x: string, body: seq<Sym>, top: nat, id: nat): (r: seq<Sym>)
    ensures |r| == 5 + |body| + 5
  {
    var advance := top + 5 + |body|;
    ForTest(x, id, advance + 5) + (LoopBody(body, advance + 5, advance) + ForAdvance(x, id, top))
  }

  function BlockShape(ss: seq<Stmt>, base: nat, id: nat): (r: seq<Sym>)
    ensures |r| == BlockLen(ss)
    decreases ss
  {
    if ss == [] then []
    else Shape(ss[0], base, id) + BlockShape(ss[1..], base + StmtLen(ss[0]), id + Fors(ss[0]))
  }

  /** The arms of an `if`; every taken branch ends in a hole to be filled with the end of the whole statement. */
  function ArmsShape(arms: Arms, base: nat, id: nat): (r: seq<Sym>)
    ensures |r| == ArmsLen(arms)
    decreases arms
  {
    match arms
    case Otherwise(orElse) => if orElse.Some? then Shape(orElse.value, base, id) else []
    case When(c, body, rest) =>
      var first := base + ExprLen(c) + 1;
      var next := first + StmtLen(body) + 1;
      Ops(ExprCode(c, base)) + ([Op(JumpIfFalse(next))] + (Shape(body, first, id) + ([Hole(Join)]
        + ArmsShape(rest, next, id + Fors(body)))))
  }
}

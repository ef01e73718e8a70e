/** The stack machine of src/vm/vm.cpp, for the opcodes that the structured fragment of the language compiles to.
    Values are nil, booleans and 64-bit integers. */
module BytecodeVm {
  import opened Wrappers
  import opened Int64
  import IntPower
  import Bits

  datatype Value = Nil | Bool(b: bool) | Int(i: int64)

  /** The two ways the machine raises: an arithmetic exception, or a run-time error. */
  datatype Error = ArithmeticError | RuntimeError

  datatype Result<+T> = Ok(value: T) | Err(error: Error)

  datatype UnaryOp = Neg | Not | BitNot
  datatype BinaryOp =
    | Add | Sub | Mul | Div | Mod | Pow | Eq | Neq | Lt | Gt | Lte | Gte
    | BitAnd | BitOr | BitXor | Shl | Shr | Ushr

  // ---------- operations on values ----------

  predicate Truthy(v: Value) {
    match v
    case Nil => false
    case Bool(b) => b
    case Int(i) => i != 0
  }

  function Exactly(x: Option<int64>): Result<Value> {
    if x.Some? then Ok(Int(x.value)) else Err(ArithmeticError)
  }

  function Quotient(x: int64, y: int64): Result<Value> {
    if y == 0 then Err(ArithmeticError)
    else if x == MIN && y == -1 then Err(ArithmeticError)
    else
      QuotientFits(x, y);
      Ok(Int(TruncDiv(x, y)))
  }

  function Remainder(x: int64, y: int64): Result<Value> {
    if y == 0 then Err(ArithmeticError)
    else if x == MIN && y == -1 then Ok(Int(0))
    else
      QuotientFits(x, y);
      Ok(Int(TruncMod(x, y)))
  }

  function Power(x: int64, y: int64): Result<Value> {
    if y < 0 then Err(RuntimeError)
    else if Fits(IntPower.Pow(x, y)) then Ok(Int(IntPower.Pow(x, y)))
    else Err(ArithmeticError)
  }

  function ApplyInts(op: BinaryOp, x: int64, y: int64): Result<Value> {
    match op
    case Add => Exactly(CheckedAdd(x, y))
    case Sub => Exactly(CheckedSub(x, y))
    case Mul => Exactly(CheckedMul(x, y))
    case Div => Quotient(x, y)
    case Mod => Remainder(x, y)
    case Pow => Power(x, y)
    case Eq => Ok(Bool(x == y))
    case Neq => Ok(Bool(x != y))
    case Lt => Ok(Bool(x < y))
    case Gt => Ok(Bool(x > y))
    case Lte => Ok(Bool(x <= y))
    case Gte => Ok(Bool(x >= y))
    case BitAnd => Ok(Int(Bits.BitAnd(x, y)))
    case BitOr => Ok(Int(Bits.BitOr(x, y)))
    case BitXor => Ok(Int(Bits.BitXor(x, y)))
    case Shl => if 0 <= y < 64 then Ok(Int(Bits.ShiftLeft(x, y))) else Err(RuntimeError)
    case Shr => if 0 <= y < 64 then Ok(Int(Bits.ShiftRight(x, y))) else Err(RuntimeError)
    case Ushr => if 0 <= y < 64 then Ok(Int(Bits.ShiftRightLogical(x, y))) else Err(RuntimeError)
  }

  function ApplyBinary(op: BinaryOp, a: Value, b: Value): Result<Value> {
    if a.Int? && b.Int? then ApplyInts(op, a.i, b.i)
    else if op == Eq then Ok(Bool(a == b))
    else if op == Neq then Ok(Bool(a != b))
    else Err(RuntimeError)
  }

  function ApplyUnary(op: UnaryOp, a: Value): Result<Value> {
    match op
    case Not => Ok(Bool(!Truthy(a)))
    case Neg =>
      if !a.Int? then Err(RuntimeError)
      else if a.i == MIN then Err(ArithmeticError)
      else Ok(Int(-a.i))
    case BitNot => if a.Int? then Ok(Int(Bits.BitNot(a.i))) else Err(RuntimeError)
  }

  /** Does a `for` loop that stands at `current` go on? */
  function RangeContinue(current: Value, end: Value, step: Value): Result<bool> {
    if !current.Int? || !end.Int? || !step.Int? then Err(RuntimeError)
    else if step.i > 0 then Ok(current.i < end.i)
    else if step.i < 0 then Ok(current.i > end.i)
    else Err(RuntimeError)
  }

  // ---------- instructions and states ----------

  /** The hidden variables of the `for` loop numbered `loop`. */
  datatype Temp = ForEnd(loop: nat) | ForStep(loop: nat)

  datatype Name = User(x: string) | Hidden(temp: Temp)

  datatype Instr =
    | PushConst(v: Value)
    | Discard
    | Dup
    | DefineVar(name: Name)
    | LoadVar(name: Name)
    | Unary(un: UnaryOp)
    | Binary(bin: BinaryOp)
    | Range
    | Jump(target: nat)
    | JumpIfFalse(target: nat)
    | Log
    | Return

  /** The variables a program sees, and what it has logged. */
  datatype Env = Env(vars: map<string, Value>, out: seq<Value>)

  datatype Stack = Empty | Push(top: Value, below: Stack)

  datatype Config =
    | Running(pc: nat, stack: Stack, env: Env, temps: map<Temp, Value>)
    | Returned(v: Value, env: Env)
    | Raised(err: Error, env: Env)
    | Stuck

  function Define(name: Name, v: Value, c: Config): Config
    requires c.Running?
  {
    match name
    case User(x) => Running(c.pc, c.stack, c.env.(vars := c.env.vars[x := v]), c.temps)
    case Hidden(t) => Running(c.pc, c.stack, c.env, c.temps[t := v])
  }

  function Load(name: Name, c: Config): Option<Value>
    requires c.Running?
  {
    match name
    case User(x) => if x in c.env.vars then Some(c.env.vars[x]) else None
    case Hidden(t) => if t in c.temps then Some(c.temps[t]) else None
  }

  function Next(c: Config, stack: Stack): Config
    requires c.Running?
  {
    Running(c.pc + 1, stack, c.env, c.temps)
  }

  function PushResult(c: Config, r: Result<Value>, below: Stack): Config
    requires c.Running?
  {
    match r
    case Ok(v) => Next(c, Push(v, below))
    case Err(e) => Raised(e, c.env)
  }

  /** One instruction. An instruction that finds too few operands leaves the machine stuck. */
  function Do(i: Instr, c: Config): Config
    requires c.Running?
  {
    var s := c.stack;
    match i
    case PushConst(v) => Next(c, Push(v, s))
    case Discard => if s.Push? then Next(c, s.below) else Stuck
    case Dup => if s.Push? then Next(c, Push(s.top, s)) else Stuck
    case DefineVar(name) => if s.Push? then Define(name, s.top, Next(c, s.below)) else Stuck
    case LoadVar(name) =>
      if Load(name, c).Some? then Next(c, Push(Load(name, c).value, s)) else Raised(RuntimeError, c.env)
    case Unary(op) => if s.Push? then PushResult(c, ApplyUnary(op, s.top), s.below) else Stuck
    case Binary(op) =>
      if s.Push? && s.below.Push? then PushResult(c, ApplyBinary(op, s.below.top, s.top), s.below.below) else Stuck
    case Range =>
      if s.Push? && s.below.Push? && s.below.below.Push? then
        var r := RangeContinue(s.below.below.top, s.below.top, s.top);
        PushResult(c, if r.Ok? then Ok(Bool(r.value)) else Err(r.error), s.below.below.below)
      else Stuck
    case Jump(t) => Running(t, s, c.env, c.temps)
    case JumpIfFalse(t) =>
      if s.Push? then (if Truthy(s.top) then Next(c, s.below) else Running(t, s.below, c.env, c.temps)) else Stuck
    case Log => if s.Push? then Running(c.pc + 1, s.below, c.env.(out := c.env.out + [s.top]), c.temps) else Stuck
    case Return => if s.Push? then Returned(s.top, c.env) else Stuck
  }

  function Step(code: seq<Instr>, c: Config): Config {
    if c.Running? then (if c.pc < |code| then Do(code[c.pc], c) else Stuck) else c
  }

  function Run(code: seq<Instr>, c: Config, n: nat): Config
    decreases n
  {
    if n == 0 then c else Run(code, Step(code, c), n - 1)
  }

  lemma {:induction false} RunAdd(code: seq<Instr>, c: Config, m: nat, n: nat)
    ensures Run(code, c, m + n) == Run(code, Run(code, c, m), n)
    decreases m
  {
    if m > 0 { RunAdd(code, Step(code, c), m - 1, n); }
  }

  lemma {:induction false} HaltedStays(code: seq<Instr>, c: Config, n: nat)
    requires !c.Running?
    ensures Run(code, c, n) == c
  {
    if n > 0 { HaltedStays(code, c, n - 1); }
  }

  /** A machine that still runs after `n` steps was running all along. */
  lemma {:induction false} RunningEarlier(code: seq<Instr>, c: Config, m: nat, n: nat)
    requires m <= n && Run(code, c, n).Running?
    ensures Run(code, c, m).Running?
  {
    RunAdd(code, c, m, n - m);
    if !Run(code, c, m).Running? { HaltedStays(code, Run(code, c, m), n - m); }
  }

  /** Two halted results of one start are the same result. */
  lemma {:induction false} HaltsOnce(code: seq<Instr>, c: Config, m: nat, n: nat)
    requires !Run(code, c, m).Running? && !Run(code, c, n).Running?
    ensures Run(code, c, m) == Run(code, c, n)
  {
    if m <= n {
      RunAdd(code, c, m, n - m);
      HaltedStays(code, Run(code, c, m), n - m);
    } else {
      RunAdd(code, c, n, m - n);
      HaltedStays(code, Run(code, c, n), m - n);
    }
  }
}

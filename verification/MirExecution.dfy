/** Runs of a MIR function (src/mir/effects.cpp relies on them): blocks with parameters, terminators with edge arguments, and
    exception handlers. A function that passes the static checks on types and on availability of values never reads a value
    that is missing or of another type. */
module MirExecution {
  import opened Wrappers
  import opened MirEffects

  datatype Edge = Edge(block: nat, args: seq<Operand>)

  datatype Case = Case(key: Value, edge: Edge)

  datatype Terminator =
    | Return(value: Option<Operand>)
    | Jump(edge: Edge)
    | Branch(cond: Operand, yes: Edge, no: Edge)
    | Switch(subject: Operand, cases: seq<Case>, default: Edge)
    | Throw(thrown: Operand)
    | Unreachable

  /** Catches values of `catchType` and binds them to a local. */
  datatype Handler = Handler(catchType: Type, block: nat, slot: string)

  /** Handlers are listed innermost first. */
  datatype Block = Block(params: seq<nat>, instrs: seq<Instr>, term: Terminator, handlers: seq<Handler>)

  /** Blocks are named by their position; the first is the entry. */
  type Program = seq<Block>

  // ---------- states ----------

  datatype State = State(values: map<ValueId, Value>, slots: map<string, Value>, heap: seq<Value>, out: seq<Value>)

  /** What an effectful operation does: a result or an error, and a new heap and output. */
  datatype Answer = Answer(value: Option<Value>, error: Value, heap: seq<Value>, out: seq<Value>)

  /** Anything outside the function: it sees the operation, its operands, the heap and all output so far. */
  type World = (string, seq<Value>, seq<Value>, seq<Value>) -> Answer

  /** How a run ends: with a value, with an error that no handler caught, or in code that is never meant to be reached. */
  datatype End = Returned(value: Value) | Escaped(error: Value) | Lost

  /** Before the instructions `rest` of a block, or at an end. */
  datatype Config =
    | At(block: nat, rest: seq<Instr>, st: State)
    | Ended(how: End, slots: map<string, Value>, heap: seq<Value>, out: seq<Value>)

  function Stop(how: End, st: State): Config {
    Ended(how, st.slots, st.heap, st.out)
  }

  function ValueOf(st: State, o: Operand): Value {
    match o
    case Const(v) => v
    case Use(id, _) => if id in st.values then st.values[id] else Nil
  }

  function ValuesOf(st: State, os: seq<Operand>): (vs: seq<Value>)
    ensures |vs| == |os|
  {
    seq(|os|, k requires 0 <= k < |os| => ValueOf(st, os[k]))
  }

  function Define(st: State, result: Option<nat>, v: Value): State {
    if result.Some? then st.(values := st.values[Temp(result.value) := v]) else st
  }

  function Local(st: State, slot: string): Value {
    if slot in st.slots then st.slots[slot] else Nil
  }

  function LocalRead(st: State, local: Option<string>): seq<Value> {
    if local.Some? then [Local(st, local.value)] else []
  }

  function Put(st: State, slot: string, v: Value): State {
    st.(slots := st.slots[slot := v])
  }

  function PutIn(st: State, local: Option<string>, v: Value): State {
    if local.Some? then Put(st, local.value, v) else st
  }

  // ---------- steps ----------

  datatype Did = Done(st: State) | Raised(error: Value, st: State)

  const FAULT := Text("error")

  /** One instruction. The result of an effectful operation is checked against its declared type. */
  function Execute(w: World, ins: Instr, st: State): Did {
    var vs := ValuesOf(st, ins.operands);
    match ins.op
    case Load(slot) => Done(Define(st, ins.result, Local(st, slot)))
    case Store(slot) =>
      if |vs| == 0 then Raised(FAULT, st) else Done(Define(Put(st, slot, vs[0]), ins.result, Nil))
    case Effectful(name, ty, source, target) =>
      var a := w(name, vs + LocalRead(st, source), st.heap, st.out);
      var after := st.(heap := a.heap, out := a.out);
      if a.value.Some? && HasType(a.value.value, ty) then Done(Define(PutIn(after, target, a.value.value), ins.result, a.value.value))
      else Raised(a.error, after)
    case _ =>
      var r := Compute(ins.op, vs);
      if r.None? then Raised(FAULT, st) else Done(Define(st, ins.result, r.value))
  }

  /** Parameters are bound to values that were all read before. */
  function Bind(params: seq<nat>, vs: seq<Value>, values: map<ValueId, Value>): map<ValueId, Value>
    decreases |params|
  {
    if params == [] || vs == [] then values else Bind(params[1..], vs[1..], values[BlockParam(params[0]) := vs[0]])
  }

  function Enter(p: Program, e: Edge, st: State): Config {
    if e.block >= |p| then Stop(Lost, st)
    else At(e.block, p[e.block].instrs, st.(values := Bind(p[e.block].params, ValuesOf(st, e.args), st.values)))
  }

  /** The first handler that admits the error. */
  function FindHandler(hs: seq<Handler>, error: Value): (h: Option<Handler>)
    ensures h.Some? ==> h.value in hs && HasType(error, h.value.catchType)
  {
    if hs == [] then None else if HasType(error, hs[0].catchType) then Some(hs[0]) else FindHandler(hs[1..], error)
  }

  function Raise(p: Program, hs: seq<Handler>, error: Value, st: State): Config {
    var h := FindHandler(hs, error);
    if h.None? then Stop(Escaped(error), st)
    else if h.value.block >= |p| then Stop(Lost, st)
    else At(h.value.block, p[h.value.block].instrs, Put(st, h.value.slot, error))
  }

  function Chosen(v: Value, cases: seq<Case>, default: Edge): (e: Edge)
    ensures e == default || exists c :: c in cases && c.edge == e
  {
    if cases == [] then default else if EqualValues(v, cases[0].key) then cases[0].edge else Chosen(v, cases[1..], default)
  }

  function Leave(p: Program, b: Block, st: State): Config {
    match b.term
    case Return(o) => Stop(Returned(if o.Some? then ValueOf(st, o.value) else Nil), st)
    case Jump(e) => Enter(p, e, st)
    case Branch(cond, yes, no) => Enter(p, if Truthy(ValueOf(st, cond)) then yes else no, st)
    case Switch(subject, cases, default) => Enter(p, Chosen(ValueOf(st, subject), cases, default), st)
    case Throw(o) => Raise(p, b.handlers, ValueOf(st, o), st)
    case Unreachable => Stop(Lost, st)
  }

  function Step(p: Program, w: World, c: Config): Config {
    if !c.At? then c
    else if c.block >= |p| then Stop(Lost, c.st)
    else if c.rest == [] then Leave(p, p[c.block], c.st)
    else
      match Execute(w, c.rest[0], c.st)
      case Done(st) => At(c.block, c.rest[1..], st)
      case Raised(error, st) => Raise(p, p[c.block].handlers, error, st)
  }

  function Run(p: Program, w: World, c: Config, n: nat): Config {
    if n == 0 then c else Step(p, w, Run(p, w, c, n - 1))
  }

  function Start(p: Program, st: State): Config
    requires p != []
  {
    At(0, p[0].instrs, st)
  }

  // ---------- operands of a block ----------

  function InstrOperands(instrs: seq<Instr>): seq<Operand> {
    if instrs == [] then [] else instrs[0].operands + InstrOperands(instrs[1..])
  }

  function CaseOperands(cases: seq<Case>): seq<Operand> {
    if cases == [] then [] else cases[0].edge.args + CaseOperands(cases[1..])
  }

  function TermOperands(t: Terminator): seq<Operand> {
    match t
    case Return(o) => if o.Some? then [o.value] else []
    case Jump(e) => e.args
    case Branch(cond, yes, no) => [cond] + (yes.args + no.args)
    case Switch(subject, cases, default) => [subject] + (CaseOperands(cases) + default.args)
    case Throw(o) => [o]
    case Unreachable => []
  }

  ghost predicate IsEdge(t: Terminator, e: Edge) {
    match t
    case Return(_) => false
    case Jump(x) => e == x
    case Branch(_, yes, no) => e == yes || e == no
    case Switch(_, cases, default) => e == default || exists c :: c in cases && c.edge == e
    case Throw(_) => false
    case Unreachable => false
  }

  // ---------- static types ----------

  datatype Typing = Typing(values: ValueId -> Type, slots: string -> Type)

  predicate SubType(a: Type, b: Type) { b == Unknown || a == b || (a == IntType && b == DoubleType) }

  lemma {:induction false} SubTypeHas(v: Value, a: Type, b: Type)
    requires HasType(v, a) && SubType(a, b)
    ensures HasType(v, b)
  {
  }

  predicate OperandTyped(ty: Typing, o: Operand) { o.Use? ==> SubType(ty.values(o.id), o.ty) }

  ghost predicate OperandsTyped(ty: Typing, os: seq<Operand>) {
    forall k :: 0 <= k < |os| ==> OperandTyped(ty, os[k])
  }

  /** The type of what an instruction produces. */
  function ResultType(ty: Typing, ins: Instr): Type {
    match ins.op
    case Add => if HasText(ins) then TextType else if AllInts(ins.operands) then IntType else DoubleType
    case Sub => if AllInts(ins.operands) then IntType else DoubleType
    case Mul => if AllInts(ins.operands) then IntType else DoubleType
    case Div => if AllInts(ins.operands) then IntType else DoubleType
    case Mod => if AllInts(ins.operands) then IntType else DoubleType
    case Pow => if AllInts(ins.operands) then IntType else DoubleType
    case Neg => if AllInts(ins.operands) then IntType else DoubleType
    case BitAnd => IntType
    case BitOr => IntType
    case BitXor => IntType
    case BitNot => IntType
    case Shl => IntType
    case Shr => IntType
    case Ushr => IntType
    case Widen => DoubleType
    case Load(slot) => ty.slots(slot)
    case Store(_) => Unknown
    case Effectful(_, t, _, _) => t
    case _ => BoolType
  }

  ghost predicate InstrTyped(ty: Typing, ins: Instr) {
    && WellTyped(ins) && OperandsTyped(ty, ins.operands)
    && (ins.result.Some? ==> SubType(ResultType(ty, ins), ty.values(Temp(ins.result.value))))
    && (ins.op.Store? ==> SubType(OperandType(ins.operands[0]), ty.slots(ins.op.slot)))
    && (ins.op.Effectful? && ins.op.target.Some? ==> SubType(ins.op.ty, ty.slots(ins.op.target.value)))
  }

  ghost predicate EdgeTyped(ty: Typing, p: Program, e: Edge) {
    && e.block < |p| && |e.args| == |p[e.block].params| && OperandsTyped(ty, e.args)
    && forall k :: 0 <= k < |e.args| ==> SubType(OperandType(e.args[k]), ty.values(BlockParam(p[e.block].params[k])))
  }

  ghost predicate BlockTyped(ty: Typing, p: Program, b: Block) {
    && (forall i :: 0 <= i < |b.instrs| ==> InstrTyped(ty, b.instrs[i]))
    && (forall e :: IsEdge(b.term, e) ==> EdgeTyped(ty, p, e))
    && (forall h :: h in b.handlers ==> h.block < |p| && SubType(h.catchType, ty.slots(h.slot)))
  }

  // ---------- availability ----------

  /** What is certain to be there: values, and locals that have been set. */
  datatype Have = Have(values: set<ValueId>, slots: set<string>)

  /** What is certain to be there when a block is entered. */
  type Available = seq<Have>

  predicate Within(a: Have, b: Have) { a.values <= b.values && a.slots <= b.slots }

  function Present(st: State): Have { Have(st.values.Keys, st.slots.Keys) }

  ghost predicate UsesIn(os: seq<Operand>, have: set<ValueId>) {
    forall k :: 0 <= k < |os| && os[k].Use? ==> os[k].id in have
  }

  /** The local an operation sets. */
  function SlotSet(op: Opcode): set<string> {
    match op
    case Store(slot) => {slot}
    case Effectful(_, _, _, target) => if target.Some? then {target.value} else {}
    case _ => {}
  }

  function AddResult(have: Have, ins: Instr): Have {
    Have(if ins.result.Some? then have.values + {Temp(ins.result.value)} else have.values, have.slots + SlotSet(ins.op))
  }

  function After(instrs: seq<Instr>, have: Have): Have
    decreases |instrs|
  {
    if instrs == [] then have else After(instrs[1..], AddResult(have, instrs[0]))
  }

  /** A handler is entered with what is there when the operation raises, and with its own local set. */
  ghost predicate HandlersReady(p: Program, avail: Available, hs: seq<Handler>, have: Have)
    requires |avail| == |p|
  {
    forall h :: h in hs && h.block < |p| ==> Within(avail[h.block], have.(slots := have.slots + {h.slot}))
  }

  predicate MayRaise(op: Opcode) { MayThrow in ClassifyOpcode(op) }

  /** Operands are there, and a local that is loaded has been set. */
  ghost predicate InstrReady(p: Program, avail: Available, hs: seq<Handler>, ins: Instr, have: Have)
    requires |avail| == |p|
  {
    && UsesIn(ins.operands, have.values)
    && (ins.op.Load? ==> ins.op.slot in have.slots)
    && (MayRaise(ins.op) ==> HandlersReady(p, avail, hs, have))
  }

  ghost predicate InstrsReady(p: Program, avail: Available, hs: seq<Handler>, instrs: seq<Instr>, have: Have)
    requires |avail| == |p|
    decreases |instrs|
  {
    instrs != [] ==> InstrReady(p, avail, hs, instrs[0], have) && InstrsReady(p, avail, hs, instrs[1..], AddResult(have, instrs[0]))
  }

  function Params(b: Block): set<ValueId> {
    set k | 0 <= k < |b.params| :: BlockParam(b.params[k])
  }

  ghost predicate TermReady(p: Program, avail: Available, b: Block, have: Have)
    requires |avail| == |p|
  {
    && UsesIn(TermOperands(b.term), have.values)
    && (forall e :: IsEdge(b.term, e) && e.block < |p| ==> Within(avail[e.block], have.(values := have.values + Params(p[e.block]))))
    && (b.term.Throw? ==> HandlersReady(p, avail, b.handlers, have))
  }

  /** What is still needed before the instructions `rest` of a block. */
  ghost predicate Ready(p: Program, avail: Available, b: Block, rest: seq<Instr>, have: Have)
    requires |avail| == |p|
  {
    InstrsReady(p, avail, b.handlers, rest, have) && TermReady(p, avail, b, After(rest, have))
  }

  /** The static checks: types, and every use after its definition on every path. */
  ghost predicate Checked(ty: Typing, p: Program, avail: Available) {
    && p != [] && |avail| == |p|
    && forall b :: 0 <= b < |p| ==> BlockTyped(ty, p, p[b]) && Ready(p, avail, p[b], p[b].instrs, avail[b])
  }

  // ---------- what holds at every point of every run ----------

  ghost predicate TypesHold(ty: Typing, st: State) {
    && (forall id :: id in st.values ==> HasType(st.values[id], ty.values(id)))
    && (forall s :: s in st.slots ==> HasType(st.slots[s], ty.slots(s)))
  }

  /** A start: what the entry counts on is there. No local need be set. */
  ghost predicate StartOk(ty: Typing, p: Program, avail: Available, st: State) {
    p != [] && |avail| == |p| && Within(avail[0], Present(st)) && TypesHold(ty, st)
  }

  ghost predicate Good(ty: Typing, p: Program, avail: Available, c: Config)
    requires |avail| == |p|
  {
    c.At? ==>
      && c.block < |p| && TypesHold(ty, c.st)
      && (forall i :: 0 <= i < |c.rest| ==> InstrTyped(ty, c.rest[i]))
      && Ready(p, avail, p[c.block], c.rest, Present(c.st))
  }
}

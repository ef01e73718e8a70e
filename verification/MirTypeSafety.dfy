/** A function that passes the static checks keeps its types and has every value it uses, at every point of every run. */
module MirTypeSafety {
  import opened Wrappers
  import Int64
  import opened MirEffects
  import opened MirExecution

  // ---------- operands ----------

  lemma {:induction false} OperandFits(ty: Typing, st: State, o: Operand)
    requires OperandTyped(ty, o) && TypesHold(ty, st) && (o.Use? ==> o.id in st.values)
    ensures HasType(ValueOf(st, o), OperandType(o))
  {
    if o.Use? { SubTypeHas(st.values[o.id], ty.values(o.id), o.ty); }
  }

  lemma {:induction false} OperandsFit(ty: Typing, st: State, os: seq<Operand>)
    requires OperandsTyped(ty, os) && TypesHold(ty, st) && UsesIn(os, st.values.Keys)
    ensures Fitting(os, ValuesOf(st, os))
  {
    hide TypesHold, HasType;
    forall k | 0 <= k < |os|
      ensures HasType(ValuesOf(st, os)[k], OperandType(os[k])) && (os[k].Const? ==> ValuesOf(st, os)[k] == os[k].v)
    {
      OperandFits(ty, st, os[k]);
    }
  }

  // ---------- results ----------

  lemma {:induction false} IntResults(op: Opcode, x: Value, y: Value)
    requires x.Int? && y.Int? && OnPair(op, x, y).Some? && op in {Add, Sub, Mul, Div, Mod, Pow, BitAnd, BitOr, BitXor, Shl, Shr, Ushr}
    ensures OnPair(op, x, y).value.Int?
  {
  }

  lemma {:induction false} NumberResults(op: Opcode, x: Value, y: Value)
    requires IsNumber(x) && IsNumber(y) && OnPair(op, x, y).Some? && op in {Add, Sub, Mul, Div, Mod, Pow}
    ensures IsNumber(OnPair(op, x, y).value)
  {
  }

  lemma {:induction false} BoolResults(op: Opcode, vs: seq<Value>)
    requires Compute(op, vs).Some? && (op.TypeTest? || op in {Eq, Ne, Lt, Le, Gt, Ge, Not, And, Or, IsNull, RangeInBounds})
    ensures Compute(op, vs).value.Bool?
  {
  }

  lemma {:induction false} PairFits(ty: Typing, ins: Instr, vs: seq<Value>)
    requires WellTyped(ins) && Fitting(ins.operands, vs) && Compute(ins.op, vs).Some? && !HasText(ins)
    requires ins.op in {Add, Sub, Mul, Div, Mod, Pow, BitAnd, BitOr, BitXor, Shl, Shr, Ushr}
    ensures HasType(Compute(ins.op, vs).value, ResultType(ty, ins))
  {
    hide OnPair, Fitting, AllInts, AllNumeric, HasText;
    SameLength(ins.operands, vs);
    if AllInts(ins.operands) {
      IntsFit(ins.operands, vs, 0);
      IntsFit(ins.operands, vs, 1);
      IntResults(ins.op, vs[0], vs[1]);
    } else {
      NumericFits(ins.operands, vs, 0);
      NumericFits(ins.operands, vs, 1);
      NumberResults(ins.op, vs[0], vs[1]);
    }
  }

  lemma {:induction false} OneFits(ty: Typing, ins: Instr, vs: seq<Value>)
    requires WellTyped(ins) && Fitting(ins.operands, vs) && Compute(ins.op, vs).Some? && ins.op in {Neg, BitNot, Widen}
    ensures HasType(Compute(ins.op, vs).value, ResultType(ty, ins))
  {
    hide Fitting, AllInts, AllNumeric;
    SameLength(ins.operands, vs);
    if AllInts(ins.operands) {
      IntsFit(ins.operands, vs, 0);
    } else {
      NumericFits(ins.operands, vs, 0);
    }
  }

  lemma {:induction false} TextFits(ins: Instr, vs: seq<Value>)
    requires ins.op == Add && HasText(ins) && Fitting(ins.operands, vs) && Compute(ins.op, vs).Some?
    ensures Compute(ins.op, vs).value.Text?
  {
    hide OnInts, OnDoubles, Show;
    FittingAt(ins.operands, vs, 0);
    FittingAt(ins.operands, vs, 1);
  }

  predicate Computing(op: Opcode) { !op.Load? && !op.Store? && !op.Effectful? }

  /** What an operation computes has the type its opcode and operand types promise. */
  lemma {:induction false} ResultFits(ty: Typing, ins: Instr, vs: seq<Value>)
    requires WellTyped(ins) && Fitting(ins.operands, vs) && Compute(ins.op, vs).Some? && Computing(ins.op)
    ensures HasType(Compute(ins.op, vs).value, ResultType(ty, ins))
  {
    hide Compute, Fitting, WellTyped, HasText;
    if ins.op == Add && HasText(ins) {
      TextFits(ins, vs);
    } else if ins.op in {Add, Sub, Mul, Div, Mod, Pow, BitAnd, BitOr, BitXor, Shl, Shr, Ushr} {
      if ins.op != Add { NoText(ins); }
      PairFits(ty, ins, vs);
    } else if ins.op in {Neg, BitNot, Widen} {
      OneFits(ty, ins, vs);
    } else {
      BoolResults(ins.op, vs);
    }
  }

  lemma {:induction false} NoText(ins: Instr)
    requires WellTyped(ins) && ins.op in {Sub, Mul, Div, Mod, Pow, BitAnd, BitOr, BitXor, Shl, Shr, Ushr}
    ensures !HasText(ins)
  {
    if AllNumeric(ins.operands) { NotText(ins); } else { IntsNotText(ins); }
  }

  // ---------- instructions ----------

  lemma {:induction false} DefineHolds(ty: Typing, st: State, result: Option<nat>, v: Value)
    requires TypesHold(ty, st) && (result.Some? ==> HasType(v, ty.values(Temp(result.value))))
    ensures TypesHold(ty, Define(st, result, v))
  {
  }

  lemma {:induction false} DefineKeys(st: State, result: Option<nat>, v: Value)
    ensures Present(Define(st, result, v)).values == if result.Some? then st.values.Keys + {Temp(result.value)} else st.values.Keys
    ensures Define(st, result, v).slots == st.slots
  {
  }

  /** What executing an instruction leaves: types hold, its result and the local it sets are there, and it raises only if
      its opcode may. */
  ghost predicate Kept(ty: Typing, ins: Instr, st: State, d: Did) {
    match d
    case Done(after) => TypesHold(ty, after) && Present(after) == AddResult(Present(st), ins)
    case Raised(_, after) => TypesHold(ty, after) && Present(after) == Present(st) && MayRaise(ins.op)
  }

  lemma {:induction false} DefineKept(ty: Typing, ins: Instr, st: State, before: State, v: Value)
    requires TypesHold(ty, st) && st.values == before.values && st.slots.Keys == before.slots.Keys + SlotSet(ins.op)
    requires ins.result.Some? ==> SubType(ResultType(ty, ins), ty.values(Temp(ins.result.value)))
    requires HasType(v, ResultType(ty, ins))
    ensures Kept(ty, ins, before, Done(Define(st, ins.result, v)))
  {
    hide TypesHold, ResultType, SlotSet;
    if ins.result.Some? { SubTypeHas(v, ResultType(ty, ins), ty.values(Temp(ins.result.value))); }
    DefineHolds(ty, st, ins.result, v);
    DefineKeys(st, ins.result, v);
  }

  lemma {:induction false} SlotHolds(ty: Typing, st: State, slot: string, v: Value)
    requires TypesHold(ty, st) && HasType(v, ty.slots(slot))
    ensures TypesHold(ty, Put(st, slot, v)) && Put(st, slot, v).slots.Keys == st.slots.Keys + {slot}
  {
  }

  lemma {:induction false} LoadKeeps(ty: Typing, w: World, ins: Instr, st: State)
    requires InstrTyped(ty, ins) && TypesHold(ty, st) && ins.op.Load? && ins.op.slot in st.slots
    ensures Kept(ty, ins, st, Execute(w, ins, st))
  {
    hide HasType, SubType, WellTyped, ResultType, Define;
    LoadType(ty, ins);
    DefineKept(ty, ins, st, st, st.slots[ins.op.slot]);
  }

  lemma {:induction false} StoreKeeps(ty: Typing, w: World, ins: Instr, st: State)
    requires InstrTyped(ty, ins) && TypesHold(ty, st) && UsesIn(ins.operands, st.values.Keys) && ins.op.Store?
    ensures Kept(ty, ins, st, Execute(w, ins, st))
  {
    hide HasType, SubType, WellTyped, UsesIn, ResultType, ValuesOf, Define, TypesHold;
    OperandsFit(ty, st, ins.operands);
    var vs := ValuesOf(st, ins.operands);
    StoreArity(ins);
    FittingAt(ins.operands, vs, 0);
    SubTypeHas(vs[0], OperandType(ins.operands[0]), ty.slots(ins.op.slot));
    SlotHolds(ty, st, ins.op.slot, vs[0]);
    NilFits(ty, ins);
    DefineKept(ty, ins, Put(st, ins.op.slot, vs[0]), st, Nil);
  }

  lemma {:induction false} OutsideHolds(ty: Typing, st: State, heap: seq<Value>, out: seq<Value>)
    requires TypesHold(ty, st)
    ensures TypesHold(ty, st.(heap := heap, out := out))
  {
  }

  lemma {:induction false} EffectKeeps(ty: Typing, w: World, ins: Instr, st: State)
    requires InstrTyped(ty, ins) && TypesHold(ty, st) && ins.op.Effectful?
    ensures Kept(ty, ins, st, Execute(w, ins, st))
  {
    hide HasType, SubType, WellTyped, ResultType, ValuesOf, Define, TypesHold;
    var a := w(ins.op.name, ValuesOf(st, ins.operands) + LocalRead(st, ins.op.source), st.heap, st.out);
    var after := st.(heap := a.heap, out := a.out);
    OutsideHolds(ty, st, a.heap, a.out);
    if a.value.Some? && HasType(a.value.value, ins.op.ty) {
      var v := a.value.value;
      CallType(ty, ins);
      if ins.op.target.Some? {
        SubTypeHas(v, ins.op.ty, ty.slots(ins.op.target.value));
        SlotHolds(ty, after, ins.op.target.value, v);
      }
      DefineKept(ty, ins, PutIn(after, ins.op.target, v), st, v);
    }
  }

  lemma {:induction false} ComputeKeeps(ty: Typing, w: World, ins: Instr, st: State)
    requires InstrTyped(ty, ins) && TypesHold(ty, st) && UsesIn(ins.operands, st.values.Keys) && Computing(ins.op)
    ensures Kept(ty, ins, st, Execute(w, ins, st))
  {
    hide Compute, HasType, SubType, WellTyped, UsesIn, ResultType, ValuesOf, Define, TypesHold, ClassifyOpcode;
    OperandsFit(ty, st, ins.operands);
    var vs := ValuesOf(st, ins.operands);
    ComputesOrMayRaise(ins, vs);
    SetsNothing(ins.op);
    var r := Compute(ins.op, vs);
    if r.Some? {
      ResultFits(ty, ins, vs);
      DefineKept(ty, ins, st, st, r.value);
    }
  }

  lemma {:induction false} SetsNothing(op: Opcode)
    requires Computing(op)
    ensures SlotSet(op) == {}
  {
  }

  lemma {:induction false} ComputesOrMayRaise(ins: Instr, vs: seq<Value>)
    requires WellTyped(ins) && Fitting(ins.operands, vs) && Computing(ins.op)
    ensures Compute(ins.op, vs).Some? || MayRaise(ins.op)
  {
    hide Compute, Fitting, WellTyped;
    if !MayRaise(ins.op) { PlainlyPure(ins, vs); }
  }

  lemma {:induction false} ExecuteKeeps(ty: Typing, w: World, ins: Instr, st: State)
    requires InstrTyped(ty, ins) && TypesHold(ty, st) && UsesIn(ins.operands, st.values.Keys)
    requires ins.op.Load? ==> ins.op.slot in st.slots
    ensures Kept(ty, ins, st, Execute(w, ins, st))
  {
    hide Kept, Execute, InstrTyped, TypesHold, UsesIn;
    match ins.op
    case Load(_) => LoadKeeps(ty, w, ins, st);
    case Store(_) => StoreKeeps(ty, w, ins, st);
    case Effectful(_, _, _, _) => EffectKeeps(ty, w, ins, st);
    case _ => ComputeKeeps(ty, w, ins, st);
  }

  lemma {:induction false} LoadType(ty: Typing, ins: Instr)
    requires ins.op.Load?
    ensures ResultType(ty, ins) == ty.slots(ins.op.slot)
  {
  }

  lemma {:induction false} CallType(ty: Typing, ins: Instr)
    requires ins.op.Effectful?
    ensures ResultType(ty, ins) == ins.op.ty
  {
  }

  lemma {:induction false} NilFits(ty: Typing, ins: Instr)
    requires ins.op.Store?
    ensures HasType(Nil, ResultType(ty, ins))
  {
  }

  lemma {:induction false} StoreArity(ins: Instr)
    requires WellTyped(ins) && ins.op.Store?
    ensures |ins.operands| == 1
  {
  }

  // ---------- more values only help ----------

  lemma {:induction false} MoreHandlers(p: Program, avail: Available, hs: seq<Handler>, a: Have, b: Have)
    requires |avail| == |p| && HandlersReady(p, avail, hs, a) && Within(a, b)
    ensures HandlersReady(p, avail, hs, b)
  {
  }

  lemma {:induction false} MoreReady(p: Program, avail: Available, hs: seq<Handler>, instrs: seq<Instr>, a: Have, b: Have)
    requires |avail| == |p| && InstrsReady(p, avail, hs, instrs, a) && Within(a, b)
    ensures InstrsReady(p, avail, hs, instrs, b) && Within(After(instrs, a), After(instrs, b))
    decreases |instrs|
  {
    hide HandlersReady, MayRaise;
    if instrs != [] {
      if MayRaise(instrs[0].op) { MoreHandlers(p, avail, hs, a, b); }
      MoreReady(p, avail, hs, instrs[1..], AddResult(a, instrs[0]), AddResult(b, instrs[0]));
    }
  }

  lemma {:induction false} MoreValues(p: Program, avail: Available, b: Block, rest: seq<Instr>, small: Have, big: Have)
    requires |avail| == |p| && Ready(p, avail, b, rest, small) && Within(small, big)
    ensures Ready(p, avail, b, rest, big)
  {
    hide InstrsReady, After, HandlersReady;
    MoreReady(p, avail, b.handlers, rest, small, big);
    if b.term.Throw? { MoreHandlers(p, avail, b.handlers, After(rest, small), After(rest, big)); }
  }

  // ---------- entering blocks ----------

  lemma {:induction false} BindKeeps(ty: Typing, params: seq<nat>, vs: seq<Value>, values: map<ValueId, Value>)
    requires |vs| == |params| && forall k :: 0 <= k < |vs| ==> HasType(vs[k], ty.values(BlockParam(params[k])))
    requires forall id :: id in values ==> HasType(values[id], ty.values(id))
    ensures var r := Bind(params, vs, values);
            && (forall id :: id in r ==> HasType(r[id], ty.values(id)))
            && r.Keys == values.Keys + (set k | 0 <= k < |params| :: BlockParam(params[k]))
    decreases |params|
  {
    hide HasType;
    if params != [] {
      var more := values[BlockParam(params[0]) := vs[0]];
      BindKeeps(ty, params[1..], vs[1..], more);
      forall k | 0 <= k < |params| ensures BlockParam(params[k]) in more.Keys + (set j | 0 <= j < |params[1..]| :: BlockParam(params[1..][j])) {
        if k > 0 { assert params[1..][k - 1] == params[k]; }
      }
      forall j | 0 <= j < |params[1..]| ensures params[1..][j] == params[j + 1] {}
    }
  }

  /** A block whose entry values are there can be started. */
  lemma {:induction false} BlockStarts(ty: Typing, p: Program, avail: Available, b: nat, st: State)
    requires Checked(ty, p, avail) && b < |p| && TypesHold(ty, st) && Within(avail[b], Present(st))
    ensures Good(ty, p, avail, At(b, p[b].instrs, st))
  {
    hide TypesHold, Ready;
    MoreValues(p, avail, p[b], p[b].instrs, avail[b], Present(st));
  }

  lemma {:induction false} EnterGood(ty: Typing, p: Program, avail: Available, e: Edge, st: State)
    requires Checked(ty, p, avail) && TypesHold(ty, st) && EdgeTyped(ty, p, e) && UsesIn(e.args, st.values.Keys)
    requires Within(avail[e.block], Present(st).(values := st.values.Keys + Params(p[e.block])))
    ensures Good(ty, p, avail, Enter(p, e, st))
  {
    hide HasType, SubType, Good, Checked;
    OperandsFit(ty, st, e.args);
    var b := p[e.block];
    var vs := ValuesOf(st, e.args);
    forall k | 0 <= k < |vs| ensures HasType(vs[k], ty.values(BlockParam(b.params[k]))) {
      FittingAt(e.args, vs, k);
      SubTypeHas(vs[k], OperandType(e.args[k]), ty.values(BlockParam(b.params[k])));
    }
    BindKeeps(ty, b.params, vs, st.values);
    HasLength(p, avail, ty);
    BlockStarts(ty, p, avail, e.block, st.(values := Bind(b.params, vs, st.values)));
  }

  lemma {:induction false} HasLength(p: Program, avail: Available, ty: Typing)
    requires Checked(ty, p, avail)
    ensures p != [] && |avail| == |p|
  {
  }

  lemma {:induction false} RaiseGood(ty: Typing, p: Program, avail: Available, b: Block, error: Value, st: State)
    requires Checked(ty, p, avail) && BlockTyped(ty, p, b) && TypesHold(ty, st) && HandlersReady(p, avail, b.handlers, Present(st))
    ensures Good(ty, p, avail, Raise(p, b.handlers, error, st))
  {
    hide HasType, SubType, Good, Checked, InstrTyped, EdgeTyped;
    HasLength(p, avail, ty);
    var h := FindHandler(b.handlers, error);
    if h.Some? {
      SubTypeHas(error, h.value.catchType, ty.slots(h.value.slot));
      SlotHolds(ty, st, h.value.slot, error);
      BlockStarts(ty, p, avail, h.value.block, Put(st, h.value.slot, error));
    } else {
      NotAt(ty, p, avail, Raise(p, b.handlers, error, st));
    }
  }

  lemma {:induction false} NotAt(ty: Typing, p: Program, avail: Available, c: Config)
    requires |avail| == |p| && !c.At?
    ensures Good(ty, p, avail, c)
  {
  }

  // ---------- steps ----------

  lemma {:induction false} UsesPart(a: seq<Operand>, b: seq<Operand>, have: set<ValueId>)
    requires UsesIn(a + b, have)
    ensures UsesIn(a, have) && UsesIn(b, have)
  {
    forall k | 0 <= k < |a| && a[k].Use? ensures a[k].id in have { assert (a + b)[k] == a[k]; }
    forall k | 0 <= k < |b| && b[k].Use? ensures b[k].id in have { assert (a + b)[|a| + k] == b[k]; }
  }

  lemma {:induction false} CaseUses(cases: seq<Case>, have: set<ValueId>, c: Case)
    requires UsesIn(CaseOperands(cases), have) && c in cases
    ensures UsesIn(c.edge.args, have)
  {
    hide UsesIn;
    UsesPart(cases[0].edge.args, CaseOperands(cases[1..]), have);
    if c != cases[0] { CaseUses(cases[1..], have, c); }
  }

  /** The arguments of every edge are among the operands of the terminator. */
  lemma {:induction false} EdgeUses(t: Terminator, e: Edge, have: set<ValueId>)
    requires UsesIn(TermOperands(t), have) && IsEdge(t, e)
    ensures UsesIn(e.args, have)
  {
    hide UsesIn, CaseOperands;
    match t
    case Jump(_) =>
    case Branch(cond, yes, no) =>
      UsesPart([cond], yes.args + no.args, have);
      UsesPart(yes.args, no.args, have);
    case Switch(subject, cases, default) =>
      UsesPart([subject], CaseOperands(cases) + default.args, have);
      UsesPart(CaseOperands(cases), default.args, have);
      if e != default {
        var c :| c in cases && c.edge == e;
        CaseUses(cases, have, c);
      }
  }

  lemma {:induction false} TakesEdge(ty: Typing, p: Program, avail: Available, c: Config, e: Edge)
    requires Checked(ty, p, avail) && c.At? && Good(ty, p, avail, c) && c.rest == [] && IsEdge(p[c.block].term, e)
    ensures Good(ty, p, avail, Enter(p, e, c.st))
  {
    hide TypesHold, InstrTyped, EdgeTyped, Params;
    var b := p[c.block];
    assert BlockTyped(ty, p, b);
    EdgeUses(b.term, e, c.st.values.Keys);
    EdgeInside(ty, p, e);
    EnterGood(ty, p, avail, e, c.st);
  }

  lemma {:induction false} EdgeInside(ty: Typing, p: Program, e: Edge)
    requires EdgeTyped(ty, p, e)
    ensures e.block < |p|
  {
  }

  lemma {:induction false} LeaveGood(ty: Typing, p: Program, avail: Available, c: Config)
    requires Checked(ty, p, avail) && c.At? && Good(ty, p, avail, c) && c.rest == []
    ensures Good(ty, p, avail, Leave(p, p[c.block], c.st))
  {
    hide TypesHold, InstrTyped, EdgeTyped, Params, Enter, Raise, BlockTyped, UsesIn, HandlersReady;
    var b := p[c.block];
    match b.term
    case Jump(e) => TakesEdge(ty, p, avail, c, e);
    case Branch(cond, yes, no) =>
      TakesEdge(ty, p, avail, c, yes);
      TakesEdge(ty, p, avail, c, no);
    case Switch(subject, cases, default) =>
      TakesEdge(ty, p, avail, c, Chosen(ValueOf(c.st, subject), cases, default));
    case Throw(o) => RaiseGood(ty, p, avail, b, ValueOf(c.st, o), c.st);
    case Return(_) =>
    case Unreachable =>
  }

  lemma {:induction false} InstrGood(ty: Typing, p: Program, avail: Available, w: World, c: Config)
    requires Checked(ty, p, avail) && c.At? && Good(ty, p, avail, c) && c.rest != []
    ensures Good(ty, p, avail, Step(p, w, c))
  {
    hide TypesHold, InstrTyped, Execute, Raise, BlockTyped, UsesIn, TermReady, HandlersReady, AddResult;
    ExecuteKeeps(ty, w, c.rest[0], c.st);
    match Execute(w, c.rest[0], c.st)
    case Done(after) =>
      assert After(c.rest, Present(c.st)) == After(c.rest[1..], Present(after));
    case Raised(error, after) =>
      RaiseGood(ty, p, avail, p[c.block], error, after);
  }

  lemma {:induction false} StepGood(ty: Typing, p: Program, avail: Available, w: World, c: Config)
    requires Checked(ty, p, avail) && Good(ty, p, avail, c)
    ensures Good(ty, p, avail, Step(p, w, c))
  {
    hide Execute, Leave, Ready, TypesHold, InstrTyped, BlockTyped;
    if c.At? {
      if c.rest == [] { LeaveGood(ty, p, avail, c); } else { InstrGood(ty, p, avail, w, c); }
    }
  }

  /** Type safety of runs. */
  lemma {:induction false} RunGood(ty: Typing, p: Program, avail: Available, w: World, st: State, n: nat)
    requires Checked(ty, p, avail) && StartOk(ty, p, avail, st)
    ensures Good(ty, p, avail, Run(p, w, Start(p, st), n))
  {
    hide Checked, Good, Step;
    if n == 0 {
      BlockStarts(ty, p, avail, 0, st);
    } else {
      RunGood(ty, p, avail, w, st, n - 1);
      StepGood(ty, p, avail, w, Run(p, w, Start(p, st), n - 1));
    }
  }

  /** Wherever a run stands before an instruction, the operands are there with their declared types. */
  lemma {:induction false} NextFits(ty: Typing, p: Program, avail: Available, c: Config)
    requires |avail| == |p| && c.At? && Good(ty, p, avail, c) && c.rest != []
    ensures InstrTyped(ty, c.rest[0]) && Fitting(c.rest[0].operands, ValuesOf(c.st, c.rest[0].operands))
  {
    hide TypesHold, UsesIn, WellTyped, Fitting;
    OperandsFit(ty, c.st, c.rest[0].operands);
  }

  /** Set a local, load it, return what was loaded. */
  function SetAndLoad(slot: string): Block {
    Block([], [Instr(None, Store(slot), [Const(Bool(true))]), Instr(Some(0), Load(slot), [])], Return(Some(Use(Temp(0), BoolType))), [])
  }

  lemma {:induction false} SetAndLoadTyped(slot: string, ty: Typing)
    requires ty == Typing(_ => BoolType, _ => BoolType)
    ensures BlockTyped(ty, [SetAndLoad(slot)], SetAndLoad(slot))
  {
    var b := SetAndLoad(slot);
    assert InstrTyped(ty, b.instrs[0]) && InstrTyped(ty, b.instrs[1]);
  }

  lemma {:induction false} SetAndLoadReady(slot: string, none: Have)
    requires none == Have({}, {})
    ensures Ready([SetAndLoad(slot)], [none], SetAndLoad(slot), SetAndLoad(slot).instrs, none)
  {
    var b := SetAndLoad(slot);
    var store, load := b.instrs[0], b.instrs[1];
    assert b.instrs[1..] == [load] && [load][1..] == [];
    assert InstrsReady([b], [none], [], [load], AddResult(none, store));
    assert After([load], AddResult(none, store)) == AddResult(AddResult(none, store), load);
    assert After(b.instrs, none) == AddResult(AddResult(none, store), load);
  }

  /** A function that sets a local before it loads it passes the checks and starts with no local set at all. */
  lemma {:induction false} LocalsStartUnset(slot: string)
    ensures var ty, avail := Typing(_ => BoolType, _ => BoolType), [Have({}, {})];
            && Checked(ty, [SetAndLoad(slot)], avail)
            && StartOk(ty, [SetAndLoad(slot)], avail, State(map[], map[], [], []))
  {
    hide BlockTyped, Ready, SetAndLoad;
    SetAndLoadTyped(slot, Typing(_ => BoolType, _ => BoolType));
    SetAndLoadReady(slot, Have({}, {}));
  }

  /** Counts up from 0 and returns the first number that is not below `bound`. */
  function Counting(bound: Int64.int64): Program {
    [Block([], [], Jump(Edge(1, [Const(Int(0))])), []),
     Block([7], [Instr(Some(0), Add, [Use(BlockParam(7), IntType), Const(Int(1))]),
                 Instr(Some(1), Lt, [Use(Temp(0), IntType), Const(Int(bound))])],
           Branch(Use(Temp(1), BoolType), Edge(1, [Use(Temp(0), IntType)]), Edge(2, [])), []),
     Block([], [], Return(Some(Use(BlockParam(7), IntType))), [])]
  }

  function CountingTypes(): Typing { Typing((id: ValueId) => if id == Temp(1) then BoolType else IntType, _ => Unknown) }

  function CountingHave(): Available {
    [Have({}, {}), Have({BlockParam(7)}, {}), Have({BlockParam(7), Temp(0), Temp(1)}, {})]
  }

  lemma {:induction false} CountingTyped(bound: Int64.int64)
    ensures var p := Counting(bound); forall b :: 0 <= b < 3 ==> BlockTyped(CountingTypes(), p, p[b])
  {
    hide InstrTyped, EdgeTyped;
    var p, ty := Counting(bound), CountingTypes();
    CountingInstrs(bound, p[1].instrs[0], p[1].instrs[1]);
    CountingEdge(p, Edge(1, [Const(Int(0))]));
    CountingEdge(p, Edge(1, [Use(Temp(0), IntType)]));
    CountingEdge(p, Edge(2, []));
    assert BlockTyped(ty, p, p[0]) && BlockTyped(ty, p, p[1]) && BlockTyped(ty, p, p[2]);
  }

  lemma {:induction false} CountingInstrs(bound: Int64.int64, add: Instr, lt: Instr)
    requires [add, lt] == Counting(bound)[1].instrs
    ensures InstrTyped(CountingTypes(), add) && InstrTyped(CountingTypes(), lt)
  {
  }

  lemma {:induction false} CountingEdge(p: Program, e: Edge)
    requires e.block < |p| && |e.args| == |p[e.block].params| <= 1 && (e.args != [] ==> p[e.block].params == [7])
    requires e.args == [] || e.args == [Const(Int(0))] || e.args == [Use(Temp(0), IntType)]
    ensures EdgeTyped(CountingTypes(), p, e)
  {
  }

  lemma {:induction false} CountingReady(bound: Int64.int64)
    ensures var p, have := Counting(bound), CountingHave(); forall b :: 0 <= b < 3 ==> Ready(p, have, p[b], p[b].instrs, have[b])
  {
    var p, have := Counting(bound), CountingHave();
    var add, lt := p[1].instrs[0], p[1].instrs[1];
    var h1, h2 := AddResult(have[1], add), AddResult(AddResult(have[1], add), lt);
    assert Params(p[1]) == {BlockParam(7)} by { assert p[1].params[0] == 7; }
    assert Params(p[2]) == {};
    assert h2 == have[2];
    JumpReady(p, have, p[0], have[0]);
    assert p[1].instrs == [add, lt];
    LoopReady(p, have, p[1], h2);
    TwoReady(p, have, add, lt, have[1]);
    ReturnReady(p, have, p[2], have[2]);
  }

  lemma {:induction false} ReturnReady(p: Program, avail: Available, b: Block, have: Have)
    requires |avail| == |p| && b.instrs == [] && b.term.Return? && b.term.value.Some?
    requires b.term.value.value.Use? && b.term.value.value.id in have.values
    ensures Ready(p, avail, b, b.instrs, have)
  {
    assert TermOperands(b.term) == [b.term.value.value];
    assert forall e :: !IsEdge(b.term, e);
  }

  lemma {:induction false} TwoReady(p: Program, avail: Available, a: Instr, b: Instr, have: Have)
    requires |avail| == |p| && InstrReady(p, avail, [], a, have) && InstrReady(p, avail, [], b, AddResult(have, a))
    ensures InstrsReady(p, avail, [], [a, b], have) && After([a, b], have) == AddResult(AddResult(have, a), b)
  {
    hide InstrReady, AddResult;
    var h1 := AddResult(have, a);
    assert [a, b][1..] == [b] && [b][1..] == [];
    assert After([], AddResult(h1, b)) == AddResult(h1, b);
    assert After([b], h1) == AddResult(h1, b);
    assert InstrsReady(p, avail, [], [], AddResult(h1, b));
    assert InstrsReady(p, avail, [], [b], h1);
  }

  lemma {:induction false} JumpReady(p: Program, avail: Available, b: Block, have: Have)
    requires |avail| == |p| && b.instrs == [] && b.term.Jump? && b.term.edge.args == [Const(Int(0))] && b.term.edge.block < |p|
    requires avail[b.term.edge.block] == have.(values := have.values + Params(p[b.term.edge.block]))
    ensures Ready(p, avail, b, b.instrs, have)
  {
    hide Params;
    assert TermOperands(b.term) == [Const(Int(0))];
    forall e | IsEdge(b.term, e) ensures e == b.term.edge {}
  }

  lemma {:induction false} LoopReady(p: Program, avail: Available, b: Block, have: Have)
    requires |avail| == |p| && b.term.Branch? && b.term.yes.args == [Use(Temp(0), IntType)] && b.term.no.args == []
    requires b.term.cond == Use(Temp(1), BoolType) && Temp(0) in have.values && Temp(1) in have.values
    requires forall e :: e in [b.term.yes, b.term.no] && e.block < |p| ==> Within(avail[e.block], have)
    ensures TermReady(p, avail, b, have)
  {
    hide Within;
    var t := b.term;
    assert TermOperands(t) == [t.cond, Use(Temp(0), IntType)];
    forall e | IsEdge(t, e) && e.block < |p| ensures Within(avail[e.block], have.(values := have.values + Params(p[e.block]))) {
      assert e == t.yes || e == t.no;
      assert e in [t.yes, t.no];
      WithinMore(avail[e.block], have, Params(p[e.block]));
    }
  }

  lemma {:induction false} WithinMore(a: Have, b: Have, more: set<ValueId>)
    requires Within(a, b)
    ensures Within(a, b.(values := b.values + more))
  {
  }

  /** A loop whose counter goes round in a block parameter passes the checks; the counter and what is computed from it are there
      in the loop and after it. */
  lemma {:induction false} LoopsAreChecked(bound: Int64.int64)
    ensures Checked(CountingTypes(), Counting(bound), CountingHave())
    ensures StartOk(CountingTypes(), Counting(bound), CountingHave(), State(map[], map[], [], []))
  {
    hide BlockTyped, Ready;
    CountingTyped(bound);
    CountingReady(bound);
  }
}

/** Deleting instructions whose results nothing reads, and stores to locals that nothing reads (src/mir/effects.cpp,
    src/mir/opt_dead.cpp): the shortened function has the same runs, however often a deleted instruction would have been
    reached. */
module MirDeletion {
  import opened Wrappers
  import opened MirEffects
  import opened MirExecution
  import opened MirTypeSafety

  // ---------- deleting ----------

  /** Temporaries and locals that nothing reads. */
  datatype Scrap = Scrap(temps: set<nat>, slots: set<string>)

  /** A removable instruction whose result is dead. */
  predicate DeadResult(dead: Scrap, ins: Instr) {
    ins.result.Some? && ins.result.value in dead.temps && Removable(ins)
  }

  /** A store to a dead local. */
  predicate DeadStore(dead: Scrap, ins: Instr) {
    ins.result.None? && ins.op.Store? && ins.op.slot in dead.slots
  }

  predicate Dropped(dead: Scrap, ins: Instr) {
    DeadResult(dead, ins) || DeadStore(dead, ins)
  }

  function Keep(instrs: seq<Instr>, dead: Scrap): (r: seq<Instr>)
    ensures forall ins :: ins in r <==> ins in instrs && !Dropped(dead, ins)
  {
    if instrs == [] then [] else (if Dropped(dead, instrs[0]) then [] else [instrs[0]]) + Keep(instrs[1..], dead)
  }

  function DropBlock(b: Block, dead: Scrap): Block {
    b.(instrs := Keep(b.instrs, dead))
  }

  function Drop(p: Program, dead: Scrap): (q: Program)
    ensures |q| == |p|
  {
    seq(|p|, b requires 0 <= b < |p| => DropBlock(p[b], dead))
  }

  /** None of the operands reads a dead temporary. */
  ghost predicate Free(os: seq<Operand>, dead: Scrap) {
    forall k :: 0 <= k < |os| && os[k].Use? && os[k].id.Temp? ==> os[k].id.index !in dead.temps
  }

  /** The local an operation reads. */
  function SlotRead(op: Opcode): Option<string> {
    match op
    case Load(slot) => Some(slot)
    case Effectful(_, _, source, _) => source
    case _ => None
  }

  predicate ReadsSlot(op: Opcode, slot: string) { SlotRead(op) == Some(slot) }

  ghost predicate InstrFree(ins: Instr, dead: Scrap) {
    Free(ins.operands, dead) && forall slot :: slot in dead.slots ==> !ReadsSlot(ins.op, slot)
  }

  ghost predicate InstrsFree(instrs: seq<Instr>, dead: Scrap) {
    forall i :: 0 <= i < |instrs| ==> InstrFree(instrs[i], dead)
  }

  /** No instruction, terminator or edge argument of any block reads anything dead. */
  ghost predicate Unused(p: Program, dead: Scrap) {
    forall b :: 0 <= b < |p| ==> InstrsFree(p[b].instrs, dead) && Free(TermOperands(p[b].term), dead)
  }

  // ---------- states that differ in dead temporaries and locals only ----------

  ghost predicate Alike(dead: Scrap, a: State, b: State) {
    && a.heap == b.heap && a.out == b.out
    && AlikeSlots(dead, a.slots, b.slots) && AlikeValues(dead, a.values, b.values)
  }

  predicate Dead(dead: Scrap, id: ValueId) { id.Temp? && id.index in dead.temps }

  ghost predicate AlikeSlots(dead: Scrap, a: map<string, Value>, b: map<string, Value>) {
    forall slot :: slot !in dead.slots ==> (slot in a <==> slot in b) && (slot in a ==> a[slot] == b[slot])
  }

  ghost predicate AlikeValues(dead: Scrap, a: map<ValueId, Value>, b: map<ValueId, Value>) {
    forall id :: !Dead(dead, id) ==> (id in a <==> id in b) && (id in a ==> a[id] == b[id])
  }

  lemma {:induction false} AlikeOperands(dead: Scrap, a: State, b: State, os: seq<Operand>)
    requires Alike(dead, a, b) && Free(os, dead)
    ensures ValuesOf(a, os) == ValuesOf(b, os)
  {
    forall k | 0 <= k < |os| ensures ValueOf(a, os[k]) == ValueOf(b, os[k]) {}
  }

  lemma {:induction false} AlikeDefine(dead: Scrap, a: State, b: State, result: Option<nat>, v: Value)
    requires Alike(dead, a, b)
    ensures Alike(dead, Define(a, result, v), Define(b, result, v))
  {
  }

  lemma {:induction false} AlikeBind(dead: Scrap, params: seq<nat>, vs: seq<Value>, a: map<ValueId, Value>, b: map<ValueId, Value>)
    requires AlikeValues(dead, a, b)
    ensures AlikeValues(dead, Bind(params, vs, a), Bind(params, vs, b))
    decreases |params|
  {
    if params != [] && vs != [] {
      var x := BlockParam(params[0]);
      AlikeBind(dead, params[1..], vs[1..], a[x := vs[0]], b[x := vs[0]]);
    }
  }

  ghost predicate AlikeDid(dead: Scrap, a: Did, b: Did) {
    match (a, b)
    case (Done(x), Done(y)) => Alike(dead, x, y)
    case (Raised(e, x), Raised(f, y)) => e == f && Alike(dead, x, y)
    case _ => false
  }

  lemma {:induction false} AlikeParts(dead: Scrap, a: State, b: State)
    requires Alike(dead, a, b)
    ensures a.heap == b.heap && a.out == b.out
    ensures forall slot :: slot !in dead.slots ==> Local(a, slot) == Local(b, slot)
    ensures forall slot, v :: Alike(dead, Put(a, slot, v), Put(b, slot, v))
    ensures forall heap, out :: Alike(dead, a.(heap := heap, out := out), b.(heap := heap, out := out))
  {
  }

  lemma {:induction false} AlikeEffect(dead: Scrap, a: State, b: State, heap: seq<Value>, out: seq<Value>,
                                       target: Option<string>, result: Option<nat>, v: Value)
    requires Alike(dead, a, b)
    ensures Alike(dead, Define(PutIn(a.(heap := heap, out := out), target, v), result, v),
                        Define(PutIn(b.(heap := heap, out := out), target, v), result, v))
  {
    hide Alike, Define;
    var x, y := a.(heap := heap, out := out), b.(heap := heap, out := out);
    AlikeParts(dead, a, b);
    AlikeParts(dead, x, y);
    if target.Some? { assert Alike(dead, Put(x, target.value, v), Put(y, target.value, v)); }
    AlikeDefine(dead, PutIn(x, target, v), PutIn(y, target, v), result, v);
  }

  /** An instruction that reads nothing dead does the same on both. */
  lemma {:induction false} AlikeExecute(dead: Scrap, w: World, ins: Instr, a: State, b: State)
    requires Alike(dead, a, b) && InstrFree(ins, dead)
    ensures AlikeDid(dead, Execute(w, ins, a), Execute(w, ins, b))
  {
    hide Compute, ValuesOf, Define, Alike, HasType, Local;
    AlikeOperands(dead, a, b, ins.operands);
    AlikeParts(dead, a, b);
    var vs := ValuesOf(a, ins.operands);
    match ins.op
    case Load(slot) =>
      assert ReadsSlot(ins.op, slot);
      AlikeDefine(dead, a, b, ins.result, Local(a, slot));
    case Store(slot) =>
      if |vs| > 0 { AlikeDefine(dead, Put(a, slot, vs[0]), Put(b, slot, vs[0]), ins.result, Nil); }
    case Effectful(name, ty, source, target) =>
      if source.Some? { assert ReadsSlot(ins.op, source.value); }
      assert LocalRead(a, source) == LocalRead(b, source);
      var r := w(name, vs + LocalRead(a, source), a.heap, a.out);
      if r.value.Some? { AlikeEffect(dead, a, b, r.heap, r.out, target, ins.result, r.value.value); }
    case _ =>
      var r := Compute(ins.op, vs);
      if r.Some? { AlikeDefine(dead, a, b, ins.result, r.value); }
  }

  // ---------- matching configurations ----------

  /** `d` is where the shortened function stands when the original stands at `c`. */
  ghost predicate Matches(dead: Scrap, c: Config, d: Config) {
    if c.At? && d.At? then
      d.block == c.block && d.rest == Keep(c.rest, dead) && Alike(dead, c.st, d.st) && InstrsFree(c.rest, dead)
    else c.Ended? && d.Ended? && d == c.(slots := d.slots) && AlikeSlots(dead, c.slots, d.slots)
  }

  lemma {:induction false} EnterMatches(dead: Scrap, p: Program, e: Edge, a: State, b: State)
    requires Alike(dead, a, b) && Unused(p, dead) && Free(e.args, dead)
    ensures Matches(dead, Enter(p, e, a), Enter(Drop(p, dead), e, b))
  {
    hide ValuesOf, Keep, AlikeValues, AlikeSlots, InstrsFree;
    AlikeOperands(dead, a, b, e.args);
    if e.block < |p| {
      AlikeBind(dead, p[e.block].params, ValuesOf(a, e.args), a.values, b.values);
    }
  }

  lemma {:induction false} RaiseMatches(dead: Scrap, p: Program, hs: seq<Handler>, error: Value, a: State, b: State)
    requires Alike(dead, a, b) && Unused(p, dead)
    ensures Matches(dead, Raise(p, hs, error, a), Raise(Drop(p, dead), hs, error, b))
  {
    hide Keep, InstrsFree, FindHandler, Alike;
    AlikeParts(dead, a, b);
    var h := FindHandler(hs, error);
    if h.Some? { assert Alike(dead, Put(a, h.value.slot, error), Put(b, h.value.slot, error)); }
    SameEnd(dead, Escaped(error), a, b);
    SameEnd(dead, Lost, a, b);
  }

  lemma {:induction false} FreePart(a: seq<Operand>, b: seq<Operand>, dead: Scrap)
    requires Free(a + b, dead)
    ensures Free(a, dead) && Free(b, dead)
  {
    forall k | 0 <= k < |a| && a[k].Use? && a[k].id.Temp? ensures a[k].id.index !in dead.temps { assert (a + b)[k] == a[k]; }
    forall k | 0 <= k < |b| && b[k].Use? && b[k].id.Temp? ensures b[k].id.index !in dead.temps { assert (a + b)[|a| + k] == b[k]; }
  }

  lemma {:induction false} CaseFree(cases: seq<Case>, dead: Scrap, v: Value, default: Edge)
    requires Free(CaseOperands(cases), dead) && Free(default.args, dead)
    ensures Free(Chosen(v, cases, default).args, dead)
  {
    hide Free, EqualValues;
    if cases != [] {
      FreePart(cases[0].edge.args, CaseOperands(cases[1..]), dead);
      CaseFree(cases[1..], dead, v, default);
    }
  }

  lemma {:induction false} AlikeOperand(dead: Scrap, a: State, b: State, o: Operand)
    requires Alike(dead, a, b) && Free([o], dead)
    ensures ValueOf(a, o) == ValueOf(b, o)
  {
    assert [o][0] == o;
  }

  /** Terminators choose the same edge with the same arguments. */
  lemma {:induction false} LeaveMatches(dead: Scrap, p: Program, b: nat, x: State, y: State)
    requires b < |p| && Alike(dead, x, y) && Unused(p, dead)
    ensures Matches(dead, Leave(p, p[b], x), Leave(Drop(p, dead), Drop(p, dead)[b], y))
  {
    hide Matches, Enter, Raise, ValueOf, Free, Keep, InstrsFree, Chosen, Alike, CaseOperands;
    AlikeParts(dead, x, y);
    match p[b].term
    case Return(o) =>
      if o.Some? { AlikeOperand(dead, x, y, o.value); }
      SameEnd(dead, Returned(if o.Some? then ValueOf(x, o.value) else Nil), x, y);
    case Jump(e) => EnterMatches(dead, p, e, x, y);
    case Branch(cond, yes, no) =>
      FreePart([cond], yes.args + no.args, dead);
      FreePart(yes.args, no.args, dead);
      AlikeOperand(dead, x, y, cond);
      EnterMatches(dead, p, if Truthy(ValueOf(x, cond)) then yes else no, x, y);
    case Switch(subject, cases, default) =>
      FreePart([subject], CaseOperands(cases) + default.args, dead);
      FreePart(CaseOperands(cases), default.args, dead);
      AlikeOperand(dead, x, y, subject);
      CaseFree(cases, dead, ValueOf(x, subject), default);
      EnterMatches(dead, p, Chosen(ValueOf(x, subject), cases, default), x, y);
    case Throw(o) =>
      AlikeOperand(dead, x, y, o);
      RaiseMatches(dead, p, p[b].handlers, ValueOf(x, o), x, y);
    case Unreachable => SameEnd(dead, Lost, x, y);
  }

  lemma {:induction false} SameEnd(dead: Scrap, how: End, a: State, b: State)
    requires Alike(dead, a, b)
    ensures Matches(dead, Stop(how, a), Stop(how, b))
  {
  }

  lemma {:induction false} RestFree(rest: seq<Instr>, dead: Scrap)
    requires InstrsFree(rest, dead) && rest != []
    ensures InstrFree(rest[0], dead) && InstrsFree(rest[1..], dead)
  {
    hide InstrFree;
  }

  // ---------- steps ----------

  /** Is the next instruction one that was deleted? */
  predicate AtDropped(dead: Scrap, c: Config) {
    c.At? && c.rest != [] && Dropped(dead, c.rest[0])
  }

  /** What a deleted instruction leaves behind: its dead result, or a value in a dead local. */
  lemma {:induction false} DroppedExecutes(dead: Scrap, w: World, ins: Instr, st: State) returns (after: State)
    requires WellTyped(ins) && Fitting(ins.operands, ValuesOf(st, ins.operands)) && Dropped(dead, ins)
    ensures Execute(w, ins, st) == Done(after)
    ensures forall other :: Alike(dead, st, other) ==> Alike(dead, after, other)
  {
    hide Removable, Compute, Alike, WellTyped;
    var vs := ValuesOf(st, ins.operands);
    if DeadStore(dead, ins) {
      StoreArity(ins);
      after := Put(st, ins.op.slot, vs[0]);
      DeadPut(dead, st, ins.op.slot, vs[0]);
    } else {
      RemovableShape(ins);
      if !ins.op.Load? { RemovableComputes(ins, vs); }
      var v := if ins.op.Load? then Local(st, ins.op.slot) else Compute(ins.op, vs).value;
      ExecuteComputes(w, ins, st, v);
      after := Define(st, ins.result, v);
      DeadDefine(dead, st, ins.result.value, v);
    }
  }

  lemma {:induction false} DroppedStep(dead: Scrap, ty: Typing, p: Program, avail: Available, w: World, c: Config, d: Config)
    requires |avail| == |p| && Good(ty, p, avail, c) && Matches(dead, c, d) && AtDropped(dead, c)
    ensures Matches(dead, Step(p, w, c), d)
  {
    hide Good, Dropped, Alike, Execute, WellTyped, Fitting, OperandsTyped;
    BlockKnown(ty, p, avail, c);
    NextFits(ty, p, avail, c);
    RestFree(c.rest, dead);
    var after := DroppedExecutes(dead, w, c.rest[0], c.st);
    assert Keep(c.rest, dead) == Keep(c.rest[1..], dead);
  }

  lemma {:induction false} BlockKnown(ty: Typing, p: Program, avail: Available, c: Config)
    requires |avail| == |p| && c.At? && Good(ty, p, avail, c)
    ensures c.block < |p|
  {
  }

  lemma {:induction false} ExecuteComputes(w: World, ins: Instr, st: State, v: Value)
    requires !ins.op.Store? && !ins.op.Effectful?
    requires ins.op.Load? ==> v == Local(st, ins.op.slot)
    requires !ins.op.Load? ==> Compute(ins.op, ValuesOf(st, ins.operands)) == Some(v)
    ensures Execute(w, ins, st) == Done(Define(st, ins.result, v))
  {
    hide Compute;
  }

  lemma {:induction false} DeadDefine(dead: Scrap, a: State, t: nat, v: Value)
    requires t in dead.temps
    ensures forall b :: Alike(dead, a, b) ==> Alike(dead, Define(a, Some(t), v), b)
  {
  }

  lemma {:induction false} DeadPut(dead: Scrap, a: State, slot: string, v: Value)
    requires slot in dead.slots
    ensures forall b :: Alike(dead, a, b) ==> Alike(dead, Put(a, slot, v), b)
  {
  }

  /** Anything else happens in both. */
  lemma {:induction false} KeptStep(dead: Scrap, p: Program, w: World, c: Config, d: Config)
    requires Unused(p, dead) && Matches(dead, c, d) && !AtDropped(dead, c)
    ensures Matches(dead, Step(p, w, c), Step(Drop(p, dead), w, d))
  {
    hide Execute, Leave, Raise, Alike, Unused, InstrFree, Dropped;
    if c.At? && d.At? {
      if c.block >= |p| {
        SameEnd(dead, Lost, c.st, d.st);
      } else if c.rest == [] {
        LeaveMatches(dead, p, c.block, c.st, d.st);
      } else {
        KeptInstr(dead, p, w, c, d);
      }
    }
  }

  lemma {:induction false} KeptInstr(dead: Scrap, p: Program, w: World, c: Config, d: Config)
    requires Unused(p, dead) && Matches(dead, c, d) && c.At? && d.At? && c.block < |p| && c.rest != [] && !Dropped(dead, c.rest[0])
    ensures Matches(dead, Step(p, w, c), Step(Drop(p, dead), w, d))
  {
    hide Execute, Raise, Alike, Unused, InstrFree, Dropped;
    RestFree(c.rest, dead);
    assert Keep(c.rest, dead) == [c.rest[0]] + Keep(c.rest[1..], dead);
    assert d.rest[0] == c.rest[0] && d.rest[1..] == Keep(c.rest[1..], dead);
    AlikeExecute(dead, w, c.rest[0], c.st, d.st);
    match Execute(w, c.rest[0], c.st)
    case Done(_) =>
    case Raised(error, x) =>
      RaiseMatches(dead, p, p[c.block].handlers, error, x, Execute(w, c.rest[0], d.st).st);
  }

  // ---------- runs ----------

  /** The static checks, and a start state that fits them. */
  ghost predicate Runnable(ty: Typing, p: Program, avail: Available, st: State) {
    Checked(ty, p, avail) && StartOk(ty, p, avail, st)
  }

  lemma {:induction false} StartMatches(dead: Scrap, p: Program, st: State)
    requires p != [] && Unused(p, dead)
    ensures Matches(dead, Start(p, st), Start(Drop(p, dead), st))
  {
  }

  /** For every point of a run of the original there is a point of the shortened function that agrees with it on all but
      dead temporaries and locals, no later. */
  lemma {:induction false} OriginalFollowed(dead: Scrap, ty: Typing, p: Program, avail: Available, w: World, st: State, n: nat)
    returns (m: nat)
    requires Runnable(ty, p, avail, st) && Unused(p, dead)
    ensures m <= n && Matches(dead, Run(p, w, Start(p, st), n), Run(Drop(p, dead), w, Start(Drop(p, dead), st), m))
  {
    hide Matches, Step, Unused, Checked, Good, Drop;
    if n == 0 {
      StartMatches(dead, p, st);
      m := 0;
    } else {
      m := OriginalFollowed(dead, ty, p, avail, w, st, n - 1);
      var c, d := Run(p, w, Start(p, st), n - 1), Run(Drop(p, dead), w, Start(Drop(p, dead), st), m);
      if AtDropped(dead, c) {
        RunGood(ty, p, avail, w, st, n - 1);
        HasLength(p, avail, ty);
        DroppedStep(dead, ty, p, avail, w, c, d);
      } else {
        KeptStep(dead, p, w, c, d);
        m := m + 1;
      }
    }
  }

  /** The original gets past the deleted instructions it stands before. */
  lemma {:induction false} GetsPast(dead: Scrap, ty: Typing, p: Program, avail: Available, w: World, st: State, m: nat, d: Config) returns (k: nat)
    requires Runnable(ty, p, avail, st) && Matches(dead, Run(p, w, Start(p, st), m), d)
    ensures k >= m && Matches(dead, Run(p, w, Start(p, st), k), d) && !AtDropped(dead, Run(p, w, Start(p, st), k))
    decreases var c := Run(p, w, Start(p, st), m); if c.At? then |c.rest| else 0
  {
    hide Matches, Checked, Good;
    k := m;
    var c := Run(p, w, Start(p, st), m);
    if AtDropped(dead, c) {
      RunGood(ty, p, avail, w, st, m);
      HasLength(p, avail, ty);
      DroppedStep(dead, ty, p, avail, w, c, d);
      DroppedShortens(dead, ty, p, avail, w, c);
      k := GetsPast(dead, ty, p, avail, w, st, m + 1, d);
    }
  }

  lemma {:induction false} DroppedShortens(dead: Scrap, ty: Typing, p: Program, avail: Available, w: World, c: Config)
    requires |avail| == |p| && Good(ty, p, avail, c) && AtDropped(dead, c)
    ensures Step(p, w, c).At? && |Step(p, w, c).rest| < |c.rest|
  {
    hide Good, Dropped, Execute, WellTyped, Fitting, OperandsTyped;
    BlockKnown(ty, p, avail, c);
    NextFits(ty, p, avail, c);
    var after := DroppedExecutes(dead, w, c.rest[0], c.st);
  }

  /** For every point of a run of the shortened function there is a point of the original that agrees with it, no earlier. */
  lemma {:induction false} ShortenedFollowed(dead: Scrap, ty: Typing, p: Program, avail: Available, w: World, st: State, n: nat)
    returns (m: nat)
    requires Runnable(ty, p, avail, st) && Unused(p, dead)
    ensures m >= n && Matches(dead, Run(p, w, Start(p, st), m), Run(Drop(p, dead), w, Start(Drop(p, dead), st), n))
  {
    hide Matches, Step, Unused, Checked, Good, Drop;
    if n == 0 {
      StartMatches(dead, p, st);
      m := 0;
    } else {
      var j := ShortenedFollowed(dead, ty, p, avail, w, st, n - 1);
      var d := Run(Drop(p, dead), w, Start(Drop(p, dead), st), n - 1);
      var k := GetsPast(dead, ty, p, avail, w, st, j, d);
      KeptStep(dead, p, w, Run(p, w, Start(p, st), k), d);
      m := k + 1;
    }
  }

  // ---------- behaviour ----------

  /** What is left of an end: the way it ended, heap, output, and the captured locals, which outlive the call. */
  function Seen(c: Config, captured: set<string>): Config {
    if c.At? then c else c.(slots := map slot | slot in c.slots && slot in captured :: c.slots[slot])
  }

  /** Some run ends, and `f` is what is left. */
  ghost predicate Ends(p: Program, w: World, st: State, captured: set<string>, f: Config) {
    p != [] && f.Ended? && exists n: nat :: Seen(Run(p, w, Start(p, st), n), captured) == f
  }

  function HeapAndOut(c: Config): (seq<Value>, seq<Value>) {
    if c.At? then (c.st.heap, c.st.out) else (c.heap, c.out)
  }

  /** Some point of the run shows the heap and output `o`. */
  ghost predicate Shows(p: Program, w: World, st: State, o: (seq<Value>, seq<Value>)) {
    p != [] && exists n: nat :: HeapAndOut(Run(p, w, Start(p, st), n)) == o
  }

  /** The same ends, and the same heap and output along the way; in particular both run forever or neither does. */
  ghost predicate SameRuns(p: Program, q: Program, w: World, st: State, captured: set<string>) {
    && (forall f :: Ends(p, w, st, captured, f) <==> Ends(q, w, st, captured, f))
    && (forall o :: Shows(p, w, st, o) <==> Shows(q, w, st, o))
  }

  lemma {:induction false} MatchSeen(dead: Scrap, c: Config, d: Config, captured: set<string>)
    requires Matches(dead, c, d) && dead.slots !! captured
    ensures HeapAndOut(c) == HeapAndOut(d) && (c.Ended? || d.Ended? ==> Seen(c, captured) == Seen(d, captured))
  {
    if c.Ended? && d.Ended? {
      assert Seen(c, captured).slots == Seen(d, captured).slots;
    }
  }

  lemma {:induction false} EndsSame(dead: Scrap, ty: Typing, p: Program, avail: Available, w: World, st: State, captured: set<string>, f: Config)
    requires Runnable(ty, p, avail, st) && Unused(p, dead) && dead.slots !! captured
    ensures Ends(p, w, st, captured, f) <==> Ends(Drop(p, dead), w, st, captured, f)
  {
    hide Matches, Run, Checked, Unused, Drop;
    var q := Drop(p, dead);
    if Ends(p, w, st, captured, f) {
      var n: nat :| Seen(Run(p, w, Start(p, st), n), captured) == f;
      var m := OriginalFollowed(dead, ty, p, avail, w, st, n);
      MatchSeen(dead, Run(p, w, Start(p, st), n), Run(q, w, Start(q, st), m), captured);
    }
    if Ends(q, w, st, captured, f) {
      var n: nat :| Seen(Run(q, w, Start(q, st), n), captured) == f;
      var m := ShortenedFollowed(dead, ty, p, avail, w, st, n);
      MatchSeen(dead, Run(p, w, Start(p, st), m), Run(q, w, Start(q, st), n), captured);
    }
  }

  lemma {:induction false} ShowsSame(dead: Scrap, ty: Typing, p: Program, avail: Available, w: World, st: State, o: (seq<Value>, seq<Value>))
    requires Runnable(ty, p, avail, st) && Unused(p, dead)
    ensures Shows(p, w, st, o) <==> Shows(Drop(p, dead), w, st, o)
  {
    hide Matches, Run, Checked, Unused, Drop, HeapAndOut;
    var q := Drop(p, dead);
    if Shows(p, w, st, o) {
      var n: nat :| HeapAndOut(Run(p, w, Start(p, st), n)) == o;
      var m := OriginalFollowed(dead, ty, p, avail, w, st, n);
      MatchSeen(dead, Run(p, w, Start(p, st), n), Run(q, w, Start(q, st), m), {});
    }
    if Shows(q, w, st, o) {
      var n: nat :| HeapAndOut(Run(q, w, Start(q, st), n)) == o;
      var m := ShortenedFollowed(dead, ty, p, avail, w, st, n);
      MatchSeen(dead, Run(p, w, Start(p, st), m), Run(q, w, Start(q, st), n), {});
    }
  }

  /** Deleting removable instructions and stores whose results and locals nothing reads keeps every run, in every world and
      from every start that fits the checks: through branches, loops, edge arguments and handlers. Captured locals are read
      after the run, so stores to them must stay. */
  lemma {:induction false} DeletionIsSafe(dead: Scrap, ty: Typing, p: Program, avail: Available, w: World, st: State, captured: set<string>)
    requires Runnable(ty, p, avail, st) && Unused(p, dead) && dead.slots !! captured
    ensures SameRuns(p, Drop(p, dead), w, st, captured)
  {
    hide Ends, Shows, Checked, Unused, Drop;
    forall f ensures Ends(p, w, st, captured, f) <==> Ends(Drop(p, dead), w, st, captured, f) {
      EndsSame(dead, ty, p, avail, w, st, captured, f);
    }
    forall o ensures Shows(p, w, st, o) <==> Shows(Drop(p, dead), w, st, o) { ShowsSame(dead, ty, p, avail, w, st, o); }
  }
}

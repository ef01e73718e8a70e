/** The ownership IR of src/compiler/ir.cpp: flow states, the transfer of one instruction, joins. */
module OwnershipIr {

  type ValueId = nat
  type BlockId = nat

  datatype OwnershipKind = GC | OWNED | BORROW | SHARED

  datatype Opcode =
    | Nop | Const | LoadLocal | StoreLocal
    | DefineLocal | AssignLocal | MoveLocal | BorrowLocal | EndBorrow | DropLocal
    | Unary | Binary | Call | Return | Jump | Branch | Throw

  datatype Instruction = Instruction(
    opcode: Opcode, result: ValueId, operand0: ValueId,
    symbol: string, ownership: OwnershipKind, operands: seq<ValueId>)

  datatype BasicBlock = BasicBlock(id: BlockId, instructions: seq<Instruction>, successors: seq<BlockId>)

  datatype Function = Function(blocks: seq<BasicBlock>)

  datatype FlowState = FlowState(
    live: set<ValueId>, values: set<ValueId>, moved: set<ValueId>,
    borrowSources: map<ValueId, ValueId>, ownership: map<ValueId, OwnershipKind>)

  const EMPTY: FlowState := FlowState({}, {}, {}, map[], map[])

  datatype Outcome = Ok(state: FlowState) | Rejected

  // ---------- transfer ----------

  /** `ownership[v]` on an unordered map: a missing entry reads as the default kind. */
  function KindAt(s: FlowState, v: ValueId): OwnershipKind {
    if v in s.ownership then s.ownership[v] else GC
  }

  predicate Usable(s: FlowState, v: ValueId) {
    v != 0 && v in s.live && v !in s.moved
  }

  function Forget(s: FlowState, v: ValueId): FlowState {
    s.(live := s.live - {v}, values := s.values - {v}, ownership := s.ownership - {v})
  }

  function Introduce(s: FlowState, v: ValueId, kind: OwnershipKind): FlowState {
    s.(live := s.live + {v}, values := s.values + {v}, ownership := s.ownership[v := kind])
  }

  function Value(s: FlowState, v: ValueId): Outcome {
    if v == 0 then Rejected else Ok(s.(values := s.values + {v}))
  }

  /** One instruction of `transfer`. */
  function Step(ins: Instruction, s: FlowState): Outcome {
    match ins.opcode
    case DefineLocal =>
      if ins.result == 0 || ins.result in s.live || ins.result in s.ownership then Rejected
      else Ok(Introduce(s, ins.result, ins.ownership))
    case AssignLocal =>
      if !Usable(s, ins.result) then Rejected
      else if ins.operand0 == 0 then Ok(s)
      else if ins.operand0 !in s.values && ins.operand0 !in s.live then Rejected
      else if ins.operand0 in s.live && ins.operand0 in s.moved then Rejected
      else if ins.operand0 in s.ownership && s.ownership[ins.operand0] == BORROW && KindAt(s, ins.result) != BORROW then Rejected
      else Ok(s)
    case MoveLocal =>
      if !Usable(s, ins.operand0) || KindAt(s, ins.operand0) != OWNED || ins.operand0 !in s.ownership then Rejected
      else if exists b :: b in s.borrowSources && (s.borrowSources[b] == ins.operand0 || s.borrowSources[b] == 0) then Rejected
      else
        var taken := s.(moved := s.moved + {ins.operand0});
        Ok(if ins.result == 0 then taken else Introduce(taken, ins.result, OWNED))
    case BorrowLocal =>
      if !Usable(s, ins.operand0) || ins.result == 0 || ins.result in s.live || ins.result in s.ownership then Rejected
      else
        var lent := Introduce(s, ins.result, BORROW);
        Ok(lent.(borrowSources := s.borrowSources[ins.result := ins.operand0]))
    case EndBorrow =>
      if ins.operand0 == 0 || ins.operand0 !in s.live || KindAt(s, ins.operand0) != BORROW then Rejected
      else Ok(Forget(s, ins.operand0).(borrowSources := s.borrowSources - {ins.operand0}))
    case DropLocal =>
      if ins.operand0 == 0 || ins.operand0 !in s.live then Rejected
      else
        var ended := if KindAt(s, ins.operand0) == BORROW then {ins.operand0}
                     else set b | b in s.borrowSources && (s.borrowSources[b] == ins.operand0 || s.borrowSources[b] == 0);
        Ok(Forget(s, ins.operand0).(borrowSources := s.borrowSources - ended, moved := s.moved - {ins.operand0}))
    case Const => Value(s, ins.result)
    case Unary => Value(s, ins.result)
    case Binary => Value(s, ins.result)
    case Call =>
      if ins.symbol == "" || (exists a :: a in ins.operands && (a == 0 || a !in s.values)) then Rejected
      else Value(s, ins.result)
    case LoadLocal =>
      if !Usable(s, ins.operand0) then Rejected else Value(s, ins.result)
    case Return =>
      if ins.operand0 == 0 then Ok(s)
      else if ins.operand0 in s.live then
        if ins.operand0 in s.moved || KindAt(s, ins.operand0) == BORROW then Rejected
        else Ok(s.(ownership := s.ownership[ins.operand0 := KindAt(s, ins.operand0)]))
      else if ins.operand0 in s.values then Ok(s) else Rejected
    case _ => Ok(s)
  }

  /** A block: the instructions in order, until one is rejected. */
  function Transfer(code: seq<Instruction>, s: FlowState): Outcome
    decreases |code|
  {
    if code == [] then Ok(s)
    else
      match Step(code[0], s)
      case Rejected => Rejected
      case Ok(t) => Transfer(code[1..], t)
  }

  /** The loop of `transfer`. */
  method RunTransfer(code: seq<Instruction>, input: FlowState) returns (r: Outcome)
    ensures r == Transfer(code, input)
  {
    var state := input;
    for i := 0 to |code|
      invariant Transfer(code, input) == Transfer(code[i..], state)
    {
      var next := Step(code[i], state);
      assert code[i..][1..] == code[i + 1..];
      if next.Rejected? { return Rejected; }
      state := next.state;
    }
    return Ok(state);
  }

  // ---------- join ----------

  /** One round of `joinStates`: `out` merged with the next input. */
  function JoinTwo(out: FlowState, next: FlowState): FlowState {
    var live := out.live * next.live;
    FlowState(
      live,
      out.values * next.values,
      out.moved + next.moved,
      map b | b in out.borrowSources.Keys + next.borrowSources.Keys ::
        if b !in out.borrowSources then next.borrowSources[b]
        else if b !in next.borrowSources || next.borrowSources[b] == out.borrowSources[b] then out.borrowSources[b]
        else 0,
      map v | v in out.ownership && v in next.ownership && next.ownership[v] == out.ownership[v] && v in live :: out.ownership[v])
  }

  function JoinAll(inputs: seq<FlowState>): FlowState {
    if inputs == [] then EMPTY
    else if |inputs| == 1 then inputs[0]
    else JoinTwo(JoinAll(inputs[..|inputs| - 1]), inputs[|inputs| - 1])
  }

  /** The loop of `joinStates`. */
  method JoinStates(inputs: seq<FlowState>) returns (out: FlowState)
    ensures out == JoinAll(inputs)
  {
    if inputs == [] { return EMPTY; }
    out := inputs[0];
    assert inputs[..1] == [inputs[0]];
    for i := 1 to |inputs|
      invariant out == JoinAll(inputs[..i])
    {
      assert inputs[..i + 1][..i] == inputs[..i];
      out := JoinTwo(out, inputs[i]);
    }
    assert inputs[..|inputs|] == inputs;
  }

  // ---------- definitions and the states they allow ----------

  /** The instruction makes its result a local. */
  predicate Defines(ins: Instruction) {
    ins.opcode.DefineLocal? || ins.opcode.BorrowLocal? || (ins.opcode.MoveLocal? && ins.result != 0)
  }

  function DefinedKind(ins: Instruction): OwnershipKind {
    if ins.opcode.DefineLocal? then ins.ownership else if ins.opcode.BorrowLocal? then BORROW else OWNED
  }

  function AllCode(blocks: seq<BasicBlock>): seq<Instruction> {
    if blocks == [] then [] else blocks[0].instructions + AllCode(blocks[1..])
  }

  /** No id is defined twice in `code`. */
  ghost predicate UniqueDefinitions(code: seq<Instruction>) {
    forall i, j :: 0 <= i < j < |code| && Defines(code[i]) && Defines(code[j]) ==> code[i].result != code[j].result
  }

  function Mentioned(code: seq<Instruction>): set<ValueId> {
    (set i | 0 <= i < |code| :: code[i].result) + (set i | 0 <= i < |code| :: code[i].operand0)
  }

  function Results(code: seq<Instruction>): set<ValueId> {
    set i | 0 <= i < |code| && Defines(code[i]) :: code[i].result
  }

  /** The instruction computes a temporary. */
  predicate Computes(ins: Instruction) {
    ins.opcode.Const? || ins.opcode.Unary? || ins.opcode.Binary? || ins.opcode.Call? || ins.opcode.LoadLocal?
  }

  /** Temporaries and locals take their ids from one counter, so they never coincide. */
  ghost predicate TempsApart(code: seq<Instruction>) {
    forall i, j :: 0 <= i < |code| && 0 <= j < |code| && Defines(code[i]) && Computes(code[j]) ==>
      code[i].result != code[j].result
  }

  /** The one definition of local `v` gives it `kind`. */
  ghost predicate DefinedAs(code: seq<Instruction>, v: ValueId, kind: OwnershipKind) {
    exists d :: d in code && Defines(d) && d.result == v && DefinedKind(d) == kind
  }

  /** The one BorrowLocal of `b` borrows `owner`. */
  ghost predicate BorrowedFrom(code: seq<Instruction>, b: ValueId, owner: ValueId) {
    exists d :: d in code && d.opcode.BorrowLocal? && d.result == b && d.operand0 == owner
  }

  /** The states the analysis of `code` works with: every live local has the kind of its one definition,
      every recorded borrow the owner of its one BorrowLocal. */
  ghost predicate Good(code: seq<Instruction>, s: FlowState) {
    && s.ownership.Keys == s.live
    && s.live <= s.values <= Mentioned(code) && s.moved <= Mentioned(code)
    && s.borrowSources.Keys <= Mentioned(code)
    && (forall v :: v in s.ownership ==> DefinedAs(code, v, s.ownership[v]))
    && (forall b :: b in s.borrowSources ==> s.borrowSources[b] != 0 && BorrowedFrom(code, b, s.borrowSources[b]))
    && (TempsApart(code) ==> forall v :: v in s.values && v in Results(code) ==> v in s.live)
  }

  lemma {:induction false} OneDefinition(code: seq<Instruction>, d: Instruction, e: Instruction)
    requires UniqueDefinitions(code) && d in code && e in code && Defines(d) && Defines(e) && d.result == e.result
    ensures d == e
  {
    var i :| 0 <= i < |code| && code[i] == d;
    var j :| 0 <= j < |code| && code[j] == e;
  }

  lemma {:induction false} OneKind(code: seq<Instruction>, v: ValueId, k: OwnershipKind, k': OwnershipKind)
    requires UniqueDefinitions(code) && DefinedAs(code, v, k) && DefinedAs(code, v, k')
    ensures k == k'
  {
    var d :| d in code && Defines(d) && d.result == v && DefinedKind(d) == k;
    var e :| e in code && Defines(e) && e.result == v && DefinedKind(e) == k';
    OneDefinition(code, d, e);
  }

  lemma {:induction false} OneOwner(code: seq<Instruction>, b: ValueId, o: ValueId, o': ValueId)
    requires UniqueDefinitions(code) && BorrowedFrom(code, b, o) && BorrowedFrom(code, b, o')
    ensures o == o'
  {
    var d :| d in code && d.opcode.BorrowLocal? && d.result == b && d.operand0 == o;
    var e :| e in code && e.opcode.BorrowLocal? && e.result == b && e.operand0 == o';
    OneDefinition(code, d, e);
  }

  /** Good states agree on the kind of a local and on the owner of a borrow. */
  ghost predicate Agree(s: FlowState, t: FlowState) {
    && (forall v :: v in s.ownership && v in t.ownership ==> s.ownership[v] == t.ownership[v])
    && (forall b :: b in s.borrowSources && b in t.borrowSources ==> s.borrowSources[b] == t.borrowSources[b])
  }

  lemma {:induction false} GoodAgree(code: seq<Instruction>, s: FlowState, t: FlowState)
    requires UniqueDefinitions(code) && Good(code, s) && Good(code, t)
    ensures Agree(s, t)
  {
    hide UniqueDefinitions, DefinedAs, BorrowedFrom, Mentioned, Results, TempsApart;
    forall v | v in s.ownership && v in t.ownership
      ensures s.ownership[v] == t.ownership[v]
    {
      OneKind(code, v, s.ownership[v], t.ownership[v]);
    }
    forall b | b in s.borrowSources && b in t.borrowSources
      ensures s.borrowSources[b] == t.borrowSources[b]
    {
      OneOwner(code, b, s.borrowSources[b], t.borrowSources[b]);
    }
  }

  /** With unique definitions the conflict owner 0 of `joinStates` never arises. */
  lemma {:induction false} JoinGood(code: seq<Instruction>, s: FlowState, t: FlowState)
    requires UniqueDefinitions(code) && Good(code, s) && Good(code, t)
    ensures Good(code, JoinTwo(s, t))
  {
    hide UniqueDefinitions, DefinedAs, BorrowedFrom, Mentioned, Results, TempsApart;
    GoodAgree(code, s, t);
    var j := JoinTwo(s, t);
    assert j.ownership.Keys == j.live;
  }

  lemma {:induction false} IntroduceGood(code: seq<Instruction>, s: FlowState, v: ValueId, kind: OwnershipKind)
    requires Good(code, s) && DefinedAs(code, v, kind) && v in Mentioned(code)
    ensures Good(code, Introduce(s, v, kind))
  {
    hide DefinedAs, BorrowedFrom, Mentioned, Results, TempsApart;
  }

  lemma {:induction false} MentionedBy(code: seq<Instruction>, ins: Instruction)
    requires ins in code
    ensures ins.result in Mentioned(code) && ins.operand0 in Mentioned(code)
    ensures Defines(ins) ==> DefinedAs(code, ins.result, DefinedKind(ins))
    ensures ins.opcode.BorrowLocal? ==> BorrowedFrom(code, ins.result, ins.operand0)
    ensures TempsApart(code) && Computes(ins) ==> ins.result !in Results(code)
  {
    var i :| 0 <= i < |code| && code[i] == ins;
  }

  /** The live set stays the domain of `ownership`, and kinds and owners stay those of the definitions. */
  lemma {:induction false} StepGood(code: seq<Instruction>, ins: Instruction, s: FlowState)
    requires Good(code, s) && ins in code && Step(ins, s).Ok?
    ensures Good(code, Step(ins, s).state)
  {
    hide DefinedAs, BorrowedFrom, Mentioned, Results, TempsApart;
    MentionedBy(code, ins);
    match ins.opcode
    case DefineLocal => IntroduceGood(code, s, ins.result, ins.ownership);
    case MoveLocal =>
      if ins.result != 0 { IntroduceGood(code, s.(moved := s.moved + {ins.operand0}), ins.result, OWNED); }
    case BorrowLocal => IntroduceGood(code, s, ins.result, BORROW);
    case _ =>
  }

  // ---------- the order the worklist descends in ----------

  /** `s` is the more cautious state: less is live or available, more is moved or borrowed. */
  ghost predicate Below(s: FlowState, t: FlowState) {
    s.live <= t.live && s.values <= t.values && t.moved <= s.moved && t.borrowSources.Keys <= s.borrowSources.Keys
  }

  lemma {:induction false} BelowBoth(code: seq<Instruction>, s: FlowState, t: FlowState)
    requires UniqueDefinitions(code) && Good(code, s) && Good(code, t) && Below(s, t) && Below(t, s)
    ensures s == t
  {
    hide UniqueDefinitions;
    GoodAgree(code, s, t);
    assert s.ownership == t.ownership;
    assert s.borrowSources == t.borrowSources;
  }

  lemma {:induction false} JoinBelow(s: FlowState, t: FlowState)
    ensures Below(JoinTwo(s, t), s) && Below(JoinTwo(s, t), t)
  {
  }

  lemma {:induction false} JoinGreatest(r: FlowState, s: FlowState, t: FlowState)
    requires Below(r, s) && Below(r, t)
    ensures Below(r, JoinTwo(s, t))
  {
  }

  /** A more cautious input gives a more cautious output, when neither is rejected. */
  lemma {:induction false} StepOrdered(code: seq<Instruction>, ins: Instruction, s: FlowState, t: FlowState)
    requires UniqueDefinitions(code) && Good(code, s) && Good(code, t) && Below(s, t)
    requires Step(ins, s).Ok? && Step(ins, t).Ok?
    ensures Below(Step(ins, s).state, Step(ins, t).state)
  {
    hide UniqueDefinitions, Good;
    GoodAgree(code, s, t);
    match ins.opcode
    case DropLocal => DropOrdered(code, ins, s, t);
    case DefineLocal =>
    case MoveLocal =>
    case BorrowLocal =>
    case EndBorrow =>
    case Return =>
    case AssignLocal =>
    case Call =>
    case LoadLocal =>
    case _ =>
  }

  lemma {:induction false} DropOrdered(code: seq<Instruction>, ins: Instruction, s: FlowState, t: FlowState)
    requires Good(code, s) && Good(code, t) && Agree(s, t) && Below(s, t) && ins.opcode.DropLocal?
    requires Step(ins, s).Ok? && Step(ins, t).Ok?
    ensures Below(Step(ins, s).state, Step(ins, t).state)
  {
    hide DefinedAs, BorrowedFrom, Mentioned, Results, TempsApart;
    assert KindAt(s, ins.operand0) == KindAt(t, ins.operand0);
  }

  lemma {:induction false} TransferGood(code: seq<Instruction>, block: seq<Instruction>, s: FlowState)
    requires Good(code, s) && (forall ins :: ins in block ==> ins in code) && Transfer(block, s).Ok?
    ensures Good(code, Transfer(block, s).state)
    decreases |block|
  {
    if block != [] {
      StepGood(code, block[0], s);
      TransferGood(code, block[1..], Step(block[0], s).state);
    }
  }

  lemma {:induction false} TransferOrdered(code: seq<Instruction>, block: seq<Instruction>, s: FlowState, t: FlowState)
    requires UniqueDefinitions(code) && Good(code, s) && Good(code, t) && Below(s, t)
    requires (forall ins :: ins in block ==> ins in code) && Transfer(block, s).Ok? && Transfer(block, t).Ok?
    ensures Below(Transfer(block, s).state, Transfer(block, t).state)
    decreases |block|
  {
    if block != [] {
      StepGood(code, block[0], s);
      StepGood(code, block[0], t);
      StepOrdered(code, block[0], s, t);
      TransferOrdered(code, block[1..], Step(block[0], s).state, Step(block[0], t).state);
    }
  }

  // ---------- acceptance is inherited upwards ----------

  /** A state at least as permissive accepts what a more cautious one accepts, unless it already holds
      the local the instruction is about to define. */
  lemma {:induction false} StepAccepts(code: seq<Instruction>, ins: Instruction, s: FlowState, t: FlowState)
    requires UniqueDefinitions(code) && TempsApart(code) && Good(code, s) && Good(code, t) && Below(s, t)
    requires ins in code && Step(ins, s).Ok? && (Defines(ins) ==> ins.result !in t.live)
    ensures Step(ins, t).Ok?
  {
    hide UniqueDefinitions, TempsApart, DefinedAs, BorrowedFrom, Mentioned;
    GoodAgree(code, s, t);
    if ins.operand0 in t.live { LiveIsDefined(code, t, ins.operand0); }
    match ins.opcode
    case DropLocal =>
    case DefineLocal =>
    case MoveLocal =>
    case BorrowLocal =>
    case EndBorrow =>
    case Return =>
    case AssignLocal =>
    case Call =>
    case LoadLocal =>
    case _ =>
  }

  lemma {:induction false} LiveIsDefined(code: seq<Instruction>, s: FlowState, v: ValueId)
    requires Good(code, s) && v in s.live
    ensures v in Results(code)
  {
    assert DefinedAs(code, v, s.ownership[v]);
    var d :| d in code && Defines(d) && d.result == v;
    var i :| 0 <= i < |code| && code[i] == d;
  }

  lemma {:induction false} StepLive(ins: Instruction, s: FlowState)
    requires Step(ins, s).Ok?
    ensures Step(ins, s).state.live <= s.live + if Defines(ins) then {ins.result} else {}
  {
  }

  lemma {:induction false} TransferAccepts(code: seq<Instruction>, block: seq<Instruction>, s: FlowState, t: FlowState)
    requires UniqueDefinitions(code) && TempsApart(code) && Good(code, s) && Good(code, t) && Below(s, t)
    requires (forall ins :: ins in block ==> ins in code) && UniqueDefinitions(block) && t.live !! Results(block)
    requires Transfer(block, s).Ok?
    ensures Transfer(block, t).Ok?
    decreases |block|
  {
    if block != [] {
      var ins, rest := block[0], block[1..];
      FirstDefinition(block);
      StepAccepts(code, ins, s, t);
      StepGood(code, ins, s);
      StepGood(code, ins, t);
      StepOrdered(code, ins, s, t);
      StepLive(ins, t);
      TransferAccepts(code, rest, Step(ins, s).state, Step(ins, t).state);
    }
  }

  lemma {:induction false} FirstDefinition(block: seq<Instruction>)
    requires UniqueDefinitions(block) && block != []
    ensures UniqueDefinitions(block[1..]) && Results(block[1..]) <= Results(block)
    ensures Defines(block[0]) ==> block[0].result in Results(block) && block[0].result !in Results(block[1..])
  {
    var rest := block[1..];
    forall i | 0 <= i < |rest|
      ensures rest[i] == block[i + 1]
    {
    }
    assert block[0] == block[0];
  }

  lemma {:induction false} TransferLive(block: seq<Instruction>, s: FlowState)
    requires Transfer(block, s).Ok?
    ensures Transfer(block, s).state.live <= s.live + Results(block)
    decreases |block|
  {
    if block != [] {
      var rest := block[1..];
      StepLive(block[0], s);
      TransferLive(rest, Step(block[0], s).state);
      forall i | 0 <= i < |rest|
        ensures rest[i] == block[i + 1]
      {
      }
      assert Results(rest) <= Results(block);
      assert Defines(block[0]) ==> block[0].result in Results(block);
    }
  }
}

/** What acceptance by the ownership verifier of src/compiler/ir.cpp guarantees: every replay of an accepted
    function along any path is free of the faults the verifier is about. */
module OwnershipSound {
  import opened Wrappers
  import opened OwnershipIr
  import opened OwnershipVerify

  // ---------- replaying a path ----------

  /** The locals of a running function: kinds of those that hold something, ids computed so far, moved-out
      locals, active borrows with their owners, and the locals that were moved out at some time and not dropped since,
      whether or not they were initialised again. */
  datatype Machine = Machine(
    kinds: map<ValueId, OwnershipKind>, computed: set<ValueId>, moved: set<ValueId>, loans: map<ValueId, ValueId>,
    spent: set<ValueId>)

  const START: Machine := Machine(map[], {}, {}, map[], {})

  /** (Re-)initialising a local: executing a definition again makes the local good again. */
  function Init(m: Machine, v: ValueId, kind: OwnershipKind): Machine {
    m.(kinds := m.kinds[v := kind], computed := m.computed + {v}, moved := m.moved - {v})
  }

  function Clear(m: Machine, v: ValueId): Machine {
    m.(kinds := m.kinds - {v}, computed := m.computed - {v})
  }

  /** The effect of an instruction, whether or not it is a fault. */
  function Execute(ins: Instruction, m: Machine): Machine {
    match ins.opcode
    case DefineLocal => Init(m, ins.result, ins.ownership)
    case MoveLocal =>
      var taken := m.(moved := m.moved + {ins.operand0}, spent := m.spent + {ins.operand0});
      if ins.result == 0 then taken else Init(taken, ins.result, OWNED)
    case BorrowLocal => Init(m, ins.result, BORROW).(loans := m.loans[ins.result := ins.operand0])
    case EndBorrow => Clear(m, ins.operand0).(loans := m.loans - {ins.operand0})
    case DropLocal =>
      var ended := if ins.operand0 in m.kinds && m.kinds[ins.operand0] == BORROW then {ins.operand0}
                   else set b | b in m.loans && m.loans[b] == ins.operand0;
      Clear(m, ins.operand0).(loans := m.loans - ended, moved := m.moved - {ins.operand0}, spent := m.spent - {ins.operand0})
    case _ => if Computes(ins) then m.(computed := m.computed + {ins.result}) else m
  }

  /** The local holds a value that has not been moved away. */
  predicate Holds(m: Machine, v: ValueId) {
    v in m.kinds && v !in m.moved
  }

  /** The instruction may run: no use of an absent or moved local, no move of a borrowed owner, no borrow
      returned or stored in an owner, no argument that was never computed. */
  predicate Safe(ins: Instruction, m: Machine) {
    match ins.opcode
    case LoadLocal => Holds(m, ins.operand0)
    case AssignLocal =>
      && Holds(m, ins.result)
      && (ins.operand0 != 0 ==> ins.operand0 in m.computed)
      && (ins.operand0 != 0 && ins.operand0 in m.kinds ==>
            && ins.operand0 !in m.moved
            && (m.kinds[ins.operand0] == BORROW ==> m.kinds[ins.result] == BORROW))
    case MoveLocal =>
      && Holds(m, ins.operand0) && m.kinds[ins.operand0] == OWNED
      && (forall b :: b in m.loans ==> m.loans[b] != ins.operand0)
    case BorrowLocal => Holds(m, ins.operand0)
    case EndBorrow => ins.operand0 in m.kinds && m.kinds[ins.operand0] == BORROW
    case DropLocal => ins.operand0 in m.kinds
    case Call => forall a :: a in ins.operands ==> a in m.computed
    case Return =>
      ins.operand0 != 0 ==>
        && ins.operand0 in m.computed
        && (ins.operand0 in m.kinds ==> ins.operand0 !in m.moved && m.kinds[ins.operand0] != BORROW)
    case _ => true
  }

  function RunBlock(code: seq<Instruction>, m: Machine): Machine
    decreases |code|
  {
    if code == [] then m else RunBlock(code[1..], Execute(code[0], m))
  }

  predicate SafeBlock(code: seq<Instruction>, m: Machine)
    decreases |code|
  {
    code == [] || (Safe(code[0], m) && SafeBlock(code[1..], Execute(code[0], m)))
  }

  /** A walk through the blocks from the first one that does not come back to it. */
  ghost predicate Walk(blocks: seq<BasicBlock>, path: seq<nat>)
    decreases |path|
  {
    && |path| > 0
    && (forall k :: 0 <= k < |path| ==> path[k] < |blocks|)
    && (if |path| == 1 then path[0] == 0
        else
          && path[|path| - 1] != 0
          && Edge(blocks, path[|path| - 2], path[|path| - 1])
          && Walk(blocks, path[..|path| - 1]))
  }

  function Replay(blocks: seq<BasicBlock>, path: seq<nat>): Machine
    requires forall k :: 0 <= k < |path| ==> path[k] < |blocks|
    decreases |path|
  {
    if path == [] then START
    else RunBlock(blocks[path[|path| - 1]].instructions, Replay(blocks, path[..|path| - 1]))
  }

  /** No instruction of any block on the path faults. */
  ghost predicate SafeWalk(blocks: seq<BasicBlock>, path: seq<nat>)
    requires forall k :: 0 <= k < |path| ==> path[k] < |blocks|
  {
    forall k :: 0 <= k < |path| ==> SafeBlock(blocks[path[k]].instructions, Replay(blocks, path[..k]))
  }

  // ---------- the flow state over-approximates every replay ----------

  /** What the flow state promises about the machine. */
  ghost predicate Approximates(code: seq<Instruction>, s: FlowState, m: Machine) {
    && s.live <= m.kinds.Keys
    && (forall v :: v in s.live && v in s.ownership ==> m.kinds[v] == s.ownership[v])
    && s.values <= m.computed
    && (forall v :: v in s.live && v in m.moved ==> v in s.moved)
    && (forall b :: b in m.loans ==> b in s.borrowSources && s.borrowSources[b] == m.loans[b])
    && m.kinds.Keys <= Results(code)
  }

  lemma {:induction false} ApproximatesBelow(code: seq<Instruction>, s: FlowState, t: FlowState, m: Machine)
    requires UniqueDefinitions(code) && Good(code, s) && Good(code, t) && Below(s, t) && Approximates(code, t, m)
    ensures Approximates(code, s, m)
  {
    hide UniqueDefinitions, DefinedAs, BorrowedFrom, Results, TempsApart, Mentioned;
    GoodAgree(code, s, t);
  }

  lemma {:induction false} StepSafe(code: seq<Instruction>, ins: Instruction, s: FlowState, m: Machine)
    requires TempsApart(code) && Good(code, s) && Approximates(code, s, m) && Step(ins, s).Ok?
    ensures Safe(ins, m)
  {
    hide TempsApart, DefinedAs, BorrowedFrom, Results, Mentioned;
    match ins.opcode
    case AssignLocal =>
    case MoveLocal =>
    case Call =>
    case Return =>
    case _ =>
  }

  lemma {:induction false} DropApproximates(code: seq<Instruction>, ins: Instruction, s: FlowState, m: Machine)
    requires Good(code, s) && Approximates(code, s, m) && ins.opcode.DropLocal? && Step(ins, s).Ok?
    ensures Approximates(code, Step(ins, s).state, Execute(ins, m))
  {
    hide TempsApart, DefinedAs, BorrowedFrom, Mentioned, Results;
    var t, n := Step(ins, s).state, Execute(ins, m);
    assert KindAt(s, ins.operand0) == m.kinds[ins.operand0];
    forall b | b in n.loans
      ensures b in t.borrowSources && t.borrowSources[b] == n.loans[b]
    {
      assert b in m.loans;
    }
  }

  lemma {:induction false} DefiningApproximates(code: seq<Instruction>, ins: Instruction, s: FlowState, m: Machine)
    requires Good(code, s) && Approximates(code, s, m) && ins in code && Step(ins, s).Ok?
    requires ins.opcode.DefineLocal? || ins.opcode.MoveLocal? || ins.opcode.BorrowLocal?
    ensures Approximates(code, Step(ins, s).state, Execute(ins, m))
  {
    hide TempsApart, DefinedAs, BorrowedFrom, Mentioned;
    if Defines(ins) { ResultsOf(code, ins); }
    hide Results;
    match ins.opcode
    case DefineLocal =>
    case MoveLocal =>
    case BorrowLocal =>
  }

  lemma {:induction false} StepApproximates(code: seq<Instruction>, ins: Instruction, s: FlowState, m: Machine)
    requires Good(code, s) && Approximates(code, s, m) && ins in code && Step(ins, s).Ok?
    ensures Approximates(code, Step(ins, s).state, Execute(ins, m))
  {
    hide TempsApart, DefinedAs, BorrowedFrom, Mentioned, Results;
    match ins.opcode
    case DropLocal => DropApproximates(code, ins, s, m);
    case DefineLocal => DefiningApproximates(code, ins, s, m);
    case MoveLocal => DefiningApproximates(code, ins, s, m);
    case BorrowLocal => DefiningApproximates(code, ins, s, m);
    case EndBorrow =>
    case Return =>
    case AssignLocal =>
    case Call =>
    case LoadLocal =>
    case _ =>
  }

  lemma {:induction false} BlockSound(code: seq<Instruction>, block: seq<Instruction>, s: FlowState, m: Machine)
    requires TempsApart(code) && Good(code, s) && Approximates(code, s, m)
    requires (forall ins :: ins in block ==> ins in code) && Transfer(block, s).Ok?
    ensures SafeBlock(block, m) && Approximates(code, Transfer(block, s).state, RunBlock(block, m))
    decreases |block|
  {
    hide TempsApart, Good, Approximates;
    if block != [] {
      StepSafe(code, block[0], s, m);
      StepApproximates(code, block[0], s, m);
      StepGood(code, block[0], s);
      BlockSound(code, block[1..], Step(block[0], s).state, Execute(block[0], m));
    }
  }

  lemma {:induction false} WalkSound(blocks: seq<BasicBlock>, preds: seq<seq<nat>>, outs: Flow, path: seq<nat>)
    requires UniqueDefinitions(AllCode(blocks)) && TempsApart(AllCode(blocks))
    requires ListsPredecessors(blocks, preds) && Solution(blocks, preds, outs) && Walk(blocks, path)
    ensures SafeWalk(blocks, path)
    ensures outs[path[|path| - 1]].Some?
    ensures Approximates(AllCode(blocks), outs[path[|path| - 1]].value, Replay(blocks, path))
    decreases |path|
  {
    hide UniqueDefinitions, TempsApart, Good, Approximates, ListsPredecessors, Solution, SafeWalk, SafeBlock;
    var code, n := AllCode(blocks), |path| - 1;
    var b, front := path[n], path[..n];
    var m := Replay(blocks, front);
    SolutionAt(blocks, preds, outs, b);
    if n == 0 {
      NothingYet(code);
      NothingWalked(blocks, front);
    } else {
      WalkSound(blocks, preds, outs, front);
      Listed(blocks, preds, path[n - 1], b);
      InputBelow(code, outs, preds, b, path[n - 1]);
      InputGood(code, outs, preds, b);
      SolutionAt(blocks, preds, outs, path[n - 1]);
      ApproximatesBelow(code, InputOf(outs, preds, b).value, outs[path[n - 1]].value, m);
    }
    BlockCode(blocks, b);
    BlockSound(code, blocks[b].instructions, InputOf(outs, preds, b).value, m);
    SafeWalkGrows(blocks, path);
  }

  lemma {:induction false} SolutionAt(blocks: seq<BasicBlock>, preds: seq<seq<nat>>, outs: Flow, b: nat)
    requires Solution(blocks, preds, outs) && b < |blocks|
    ensures |preds| == |outs| == |blocks| && GoodFlow(AllCode(blocks), outs) && Stable(blocks, preds, outs, b)
    ensures outs[b].Some? ==> Good(AllCode(blocks), outs[b].value)
  {
  }

  lemma {:induction false} Listed(blocks: seq<BasicBlock>, preds: seq<seq<nat>>, p: nat, b: nat)
    requires ListsPredecessors(blocks, preds) && p < |blocks| && b < |blocks| && Edge(blocks, p, b)
    ensures |preds| == |blocks| && p in preds[b]
  {
  }

  lemma {:induction false} NothingWalked(blocks: seq<BasicBlock>, path: seq<nat>)
    requires path == []
    ensures SafeWalk(blocks, path)
  {
  }

  lemma {:induction false} SafeWalkGrows(blocks: seq<BasicBlock>, path: seq<nat>)
    requires |path| > 0 && forall k :: 0 <= k < |path| ==> path[k] < |blocks|
    requires SafeWalk(blocks, path[..|path| - 1])
    requires SafeBlock(blocks[path[|path| - 1]].instructions, Replay(blocks, path[..|path| - 1]))
    ensures SafeWalk(blocks, path)
  {
    hide SafeBlock, Replay;
    var front := path[..|path| - 1];
    forall k | 0 <= k < |path|
      ensures SafeBlock(blocks[path[k]].instructions, Replay(blocks, path[..k]))
    {
      if k < |path| - 1 {
        assert front[k] == path[k] && front[..k] == path[..k];
      }
    }
  }

  lemma {:induction false} NothingYet(code: seq<Instruction>)
    ensures Good(code, EMPTY) && Approximates(code, EMPTY, START)
  {
  }

  // ---------- `verify` ----------

  ghost predicate DistinctIds(blocks: seq<BasicBlock>) {
    forall i, j :: 0 <= i < j < |blocks| ==> blocks[i].id != blocks[j].id
  }

  predicate Exists(blocks: seq<BasicBlock>, id: BlockId) {
    exists j :: 0 <= j < |blocks| && blocks[j].id == id
  }

  ghost predicate SuccessorsExist(blocks: seq<BasicBlock>) {
    forall i, s :: 0 <= i < |blocks| && s in blocks[i].successors ==> Exists(blocks, s)
  }

  /** What acceptance means: a well-formed function, each id defined once, and flow equations that can be
      satisfied. */
  ghost predicate Acceptable(f: Function) {
    && |f.blocks| > 0 && DistinctIds(f.blocks) && SuccessorsExist(f.blocks) && UniqueDefinitions(AllCode(f.blocks))
    && exists preds, outs :: ListsPredecessors(f.blocks, preds) && Solution(f.blocks, preds, outs)
  }

  /** Safety of accepted functions, for every path that does not return to the first block. */
  lemma {:induction false} AcceptedIsSafe(f: Function, path: seq<nat>)
    requires Acceptable(f) && TempsApart(AllCode(f.blocks)) && Walk(f.blocks, path)
    ensures SafeWalk(f.blocks, path)
  {
    var preds, outs :| ListsPredecessors(f.blocks, preds) && Solution(f.blocks, preds, outs);
    WalkSound(f.blocks, preds, outs, path);
  }

  /** Any path through the blocks that starts at the first one. */
  ghost predicate IsPath(blocks: seq<BasicBlock>, path: seq<nat>) {
    && |path| > 0 && path[0] == 0
    && (forall k :: 0 <= k < |path| ==> path[k] < |blocks|)
    && (forall k :: 1 <= k < |path| ==> Edge(blocks, path[k - 1], path[k]))
  }

  lemma {:induction false} PathIsWalk(blocks: seq<BasicBlock>, path: seq<nat>)
    requires IsPath(blocks, path) && forall i :: 0 <= i < |blocks| && |blocks| > 0 ==> !Edge(blocks, i, 0)
    ensures Walk(blocks, path)
    decreases |path|
  {
    if |path| > 1 {
      var front := path[..|path| - 1];
      assert IsPath(blocks, front) by {
        forall k | 1 <= k < |front| ensures Edge(blocks, front[k - 1], front[k]) { assert Edge(blocks, path[k - 1], path[k]); }
      }
      PathIsWalk(blocks, front);
      assert Edge(blocks, path[|path| - 1 - 1], path[|path| - 1]);
    }
  }

  /** Safety of accepted functions on every path, when nothing jumps back to the first block. */
  lemma {:induction false} AcceptedIsSafeOnAllPaths(f: Function, path: seq<nat>)
    requires Acceptable(f) && TempsApart(AllCode(f.blocks)) && IsPath(f.blocks, path)
    requires forall i :: 0 <= i < |f.blocks| ==> !Edge(f.blocks, i, 0)
    ensures SafeWalk(f.blocks, path)
  {
    hide Acceptable, TempsApart, SafeWalk;
    PathIsWalk(f.blocks, path);
    AcceptedIsSafe(f, path);
  }

  method IndexBlocks(blocks: seq<BasicBlock>) returns (ok: bool, index: map<BlockId, nat>)
    ensures ok <==> DistinctIds(blocks)
    ensures ok ==> (forall j :: 0 <= j < |blocks| ==> blocks[j].id in index && index[blocks[j].id] == j)
    ensures ok ==> forall id :: id in index ==> index[id] < |blocks| && blocks[index[id]].id == id
  {
    index := map[];
    for i := 0 to |blocks|
      invariant forall j, k :: 0 <= j < k < i ==> blocks[j].id != blocks[k].id
      invariant forall j :: 0 <= j < i ==> blocks[j].id in index && index[blocks[j].id] == j
      invariant forall id :: id in index ==> index[id] < i && blocks[index[id]].id == id
    {
      if blocks[i].id in index { return false, index; }
      index := index[blocks[i].id := i];
    }
    ok := true;
  }

  /** One block's successors, recorded with the predecessor lists. */
  method LinkBlock(blocks: seq<BasicBlock>, index: map<BlockId, nat>, i: nat, preds: seq<seq<nat>>)
    returns (ok: bool, preds': seq<seq<nat>>, succs: seq<nat>)
    requires i < |blocks| && |preds| == |blocks|
    requires forall j :: 0 <= j < |blocks| ==> blocks[j].id in index && index[blocks[j].id] == j
    requires forall id :: id in index ==> index[id] < |blocks| && blocks[index[id]].id == id
    ensures ok <==> forall s :: s in blocks[i].successors ==> Exists(blocks, s)
    ensures ok ==> ListsSuccessors(blocks, i, succs)
    ensures ok ==> |preds'| == |blocks| && forall j, p :: 0 <= j < |blocks| ==> (p in preds'[j] <==> p in preds[j] || (p == i && j in succs))
  {
    ok, preds', succs := true, preds, [];
    var ids := blocks[i].successors;
    for k := 0 to |ids|
      invariant forall s :: s in ids[..k] ==> s in index
      invariant forall c :: c in succs ==> c < |blocks| && blocks[c].id in ids[..k]
      invariant forall s :: s in ids[..k] ==> index[s] in succs
      invariant |preds'| == |blocks| && forall j, p :: 0 <= j < |blocks| ==> (p in preds'[j] <==> p in preds[j] || (p == i && j in succs))
    {
      assert ids[..k + 1] == ids[..k] + [ids[k]];
      if ids[k] !in index {
        assert !Exists(blocks, ids[k]);
        return false, preds', succs;
      }
      var at := index[ids[k]];
      preds' := preds'[at := preds'[at] + [i]];
      succs := succs + [at];
    }
    assert ids[..|ids|] == ids;
    forall s | s in ids ensures Exists(blocks, s) { assert blocks[index[s]].id == s; }
  }

  method LinkBlocks(blocks: seq<BasicBlock>, index: map<BlockId, nat>) returns (ok: bool, preds: seq<seq<nat>>, succs: seq<seq<nat>>)
    requires forall j :: 0 <= j < |blocks| ==> blocks[j].id in index && index[blocks[j].id] == j
    requires forall id :: id in index ==> index[id] < |blocks| && blocks[index[id]].id == id
    ensures ok <==> SuccessorsExist(blocks)
    ensures ok ==> ListsPredecessors(blocks, preds)
    ensures ok ==> |succs| == |blocks| && forall b :: 0 <= b < |blocks| ==> ListsSuccessors(blocks, b, succs[b])
  {
    ok, preds, succs := true, seq(|blocks|, _ => []), [];
    for i := 0 to |blocks|
      invariant |succs| == i && forall b :: 0 <= b < i ==> ListsSuccessors(blocks, b, succs[b])
      invariant |preds| == |blocks| && forall j, p: nat :: 0 <= j < |blocks| ==> (p in preds[j] <==> p < i && Edge(blocks, p, j))
      invariant forall b, s :: 0 <= b < i && s in blocks[b].successors ==> Exists(blocks, s)
    {
      var linked, preds', list := LinkBlock(blocks, index, i, preds);
      if !linked { return false, preds, succs; }
      preds, succs := preds', succs + [list];
    }
  }

  method CheckDefinitions(code: seq<Instruction>) returns (ok: bool)
    ensures ok <==> UniqueDefinitions(code)
  {
    var defined: set<ValueId> := {};
    for i := 0 to |code|
      invariant defined == set k | 0 <= k < i && Defines(code[k]) :: code[k].result
      invariant forall j, k :: 0 <= j < k < i && Defines(code[j]) && Defines(code[k]) ==> code[j].result != code[k].result
    {
      if Defines(code[i]) {
        if code[i].result in defined { return false; }
        defined := defined + {code[i].result};
      }
    }
    ok := true;
  }

  /** The equations do not depend on how the predecessor lists are ordered. */
  lemma {:induction false} SameInput(code: seq<Instruction>, outs: Flow, ps: seq<nat>, qs: seq<nat>)
    requires UniqueDefinitions(code) && GoodFlow(code, outs) && forall p :: p in ps <==> p in qs
    ensures Incoming(outs, ps) == [] <==> Incoming(outs, qs) == []
    ensures JoinAll(Incoming(outs, ps)) == JoinAll(Incoming(outs, qs))
  {
    hide UniqueDefinitions, Good;
    var a, b := Incoming(outs, ps), Incoming(outs, qs);
    SameMembers(outs, ps, qs);
    assert (a != [] ==> a[0] in a) && (b != [] ==> b[0] in b);
    if a != [] {
      JoinAllMeets(code, a);
      JoinAllMeets(code, b);
      JoinAllGreatest(JoinAll(a), b);
      JoinAllGreatest(JoinAll(b), a);
      BelowBoth(code, JoinAll(a), JoinAll(b));
    }
  }

  lemma {:induction false} SameMembers(outs: Flow, ps: seq<nat>, qs: seq<nat>)
    requires forall p :: p in ps <==> p in qs
    ensures forall s :: s in Incoming(outs, ps) <==> s in Incoming(outs, qs)
  {
  }

  lemma {:induction false} SolutionAnyOrder(blocks: seq<BasicBlock>, preds: seq<seq<nat>>, preds': seq<seq<nat>>, outs: Flow)
    requires UniqueDefinitions(AllCode(blocks)) && ListsPredecessors(blocks, preds) && ListsPredecessors(blocks, preds')
    requires Solution(blocks, preds, outs)
    ensures Solution(blocks, preds', outs)
  {
    hide UniqueDefinitions, GoodFlow;
    forall b | 0 <= b < |blocks|
      ensures Stable(blocks, preds', outs, b)
    {
      assert Stable(blocks, preds, outs, b);
      assert forall p :: p in preds[b] <==> p in preds'[b];
      SameInput(AllCode(blocks), outs, preds[b], preds'[b]);
    }
  }

  /** `verify` for one function. */
  method VerifyFunction(f: Function) returns (ok: bool)
    ensures ok ==> Acceptable(f)
    ensures TempsApart(AllCode(f.blocks)) ==> (ok <==> Acceptable(f))
  {
    hide UniqueDefinitions, TempsApart, ListsPredecessors, ListsSuccessors, Solution;
    if |f.blocks| == 0 { return false; }
    var distinct, index := IndexBlocks(f.blocks);
    if !distinct { return false; }
    var linked, preds, succs := LinkBlocks(f.blocks, index);
    if !linked { return false; }
    var unique := CheckDefinitions(AllCode(f.blocks));
    if !unique { return false; }
    var outs;
    ok, outs := AnalyzeFlow(f.blocks, preds, succs);
    if !ok && TempsApart(AllCode(f.blocks)) && Acceptable(f) {
      var preds', sol :| ListsPredecessors(f.blocks, preds') && Solution(f.blocks, preds', sol);
      SolutionAnyOrder(f.blocks, preds', preds, sol);
      assert false;
    }
  }

  /** `verify`: every function of the module. */
  method Verify(functions: seq<Function>) returns (ok: bool)
    ensures ok ==> forall f :: f in functions ==> Acceptable(f)
    ensures (forall f :: f in functions ==> TempsApart(AllCode(f.blocks))) ==> (ok <==> forall f :: f in functions ==> Acceptable(f))
  {
    hide Acceptable, TempsApart;
    for i := 0 to |functions|
      invariant forall f :: f in functions[..i] ==> Acceptable(f)
    {
      assert functions[..i + 1] == functions[..i] + [functions[i]];
      var good := VerifyFunction(functions[i]);
      if !good { return false; }
    }
    assert functions[..|functions|] == functions;
    ok := true;
  }

  // ---------- why paths through the first block again are excluded ----------

  /** Block 0 defines an owner, block 1 borrows it and jumps back to block 0, block 2 moves it. The input of
      block 0 is always the empty state, so the loan never reaches block 2. */
  function Reentrant(): Function {
    Function([
      BasicBlock(1, [Instruction(DefineLocal, 1, 0, "", OWNED, [])], [2, 3]),
      BasicBlock(2, [Instruction(BorrowLocal, 2, 1, "", GC, [])], [1]),
      BasicBlock(3, [Instruction(MoveLocal, 0, 1, "", GC, [])], [])])
  }

  /** The verifier accepts it, yet the path 0, 1, 0, 2 moves an owner that is borrowed. */
  lemma {:induction false} ReentryIsNotCovered()
    ensures Acceptable(Reentrant()) && TempsApart(AllCode(Reentrant().blocks))
    ensures var blocks := Reentrant().blocks;
      && Edge(blocks, 0, 1) && Edge(blocks, 1, 0) && Edge(blocks, 0, 2)
      && !SafeBlock(blocks[2].instructions, Replay(blocks, [0, 1, 0]))
  {
    hide Solution, SafeBlock, Replay;
    ReentrantCode();
    ReentrantSolved();
    ReentrantReplay();
    assert ListsPredecessors(Reentrant().blocks, [[1], [0], [0]]);
  }

  lemma {:induction false} ReentrantCode()
    ensures AllCode(Reentrant().blocks) == [
      Reentrant().blocks[0].instructions[0], Reentrant().blocks[1].instructions[0], Reentrant().blocks[2].instructions[0]]
  {
    var blocks := Reentrant().blocks;
    assert blocks[1..] == [blocks[1], blocks[2]];
    assert blocks[1..][1..] == [blocks[2]];
  }

  function ReentrantFlow(): Flow {
    [Some(FlowState({1}, {1}, {}, map[], map[1 := OWNED])),
     Some(FlowState({1, 2}, {1, 2}, {}, map[2 := 1], map[1 := OWNED, 2 := BORROW])),
     Some(FlowState({1}, {1}, {1}, map[], map[1 := OWNED]))]
  }

  lemma {:induction false} ReentrantSolved()
    ensures Solution(Reentrant().blocks, [[1], [0], [0]], ReentrantFlow())
  {
    hide Good;
    var blocks, outs := Reentrant().blocks, ReentrantFlow();
    ReentrantSteps();
    ReentrantGood();
    OnePredecessor(outs, 0);
    forall b | 0 <= b < |blocks|
      ensures Stable(blocks, [[1], [0], [0]], outs, b)
    {
    }
  }

  lemma {:induction false} ReentrantSteps()
    ensures var blocks, outs := Reentrant().blocks, ReentrantFlow();
      && Transfer(blocks[0].instructions, EMPTY) == Ok(outs[0].value)
      && Transfer(blocks[1].instructions, outs[0].value) == Ok(outs[1].value)
      && Transfer(blocks[2].instructions, outs[0].value) == Ok(outs[2].value)
  {
    var blocks, outs := Reentrant().blocks, ReentrantFlow();
    OneStep(blocks[0].instructions[0], EMPTY);
    OneStep(blocks[1].instructions[0], outs[0].value);
    OneStep(blocks[2].instructions[0], outs[0].value);
    assert Step(blocks[0].instructions[0], EMPTY).state == outs[0].value;
    assert Step(blocks[1].instructions[0], outs[0].value).state == outs[1].value;
    assert Step(blocks[2].instructions[0], outs[0].value).state == outs[2].value;
  }

  lemma {:induction false} ReentrantGood()
    ensures GoodFlow(AllCode(Reentrant().blocks), ReentrantFlow())
  {
    hide Good, Transfer;
    var blocks, outs := Reentrant().blocks, ReentrantFlow();
    var code := AllCode(blocks);
    ReentrantSteps();
    EmptyGood(code);
    BlockCode(blocks, 0);
    TransferGood(code, blocks[0].instructions, EMPTY);
    BlockCode(blocks, 1);
    TransferGood(code, blocks[1].instructions, outs[0].value);
    BlockCode(blocks, 2);
    TransferGood(code, blocks[2].instructions, outs[0].value);
  }

  lemma {:induction false} ReentrantReplay()
    ensures !SafeBlock(Reentrant().blocks[2].instructions, Replay(Reentrant().blocks, [0, 1, 0]))
  {
    var blocks := Reentrant().blocks;
    assert [0, 1, 0][..2] == [0, 1] && [0, 1][..1] == [0] && [0][..0] == [];
    OneExecute(blocks[0].instructions[0], START);
    OneExecute(blocks[1].instructions[0], Replay(blocks, [0]));
    OneExecute(blocks[0].instructions[0], Replay(blocks, [0, 1]));
    assert Replay(blocks, [0, 1]).loans[2] == 1;
    assert Replay(blocks, [0, 1, 0]).loans[2] == 1;
  }

  lemma {:induction false} OneExecute(ins: Instruction, m: Machine)
    ensures RunBlock([ins], m) == Execute(ins, m)
  {
  }

  lemma {:induction false} OneStep(ins: Instruction, s: FlowState)
    ensures Transfer([ins], s) == Step(ins, s)
  {
  }

  lemma {:induction false} OnePredecessor(outs: Flow, p: nat)
    requires p < |outs| && outs[p].Some?
    ensures Incoming(outs, [p]) == [outs[p].value] && JoinAll(Incoming(outs, [p])) == outs[p].value
  {
  }
}

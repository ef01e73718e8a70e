/** `verify` accepts exactly the functions that are fine on every walk (src/compiler/ir.cpp). */
module OwnershipComplete {
  import opened Wrappers
  import opened OwnershipIr
  import opened OwnershipVerify
  import opened OwnershipSound
  import opened OwnershipExact

  // ---------- the machines that arrive at a block and leave it ----------

  ghost predicate Arrives(blocks: seq<BasicBlock>, b: nat, path: seq<nat>, m: Machine) {
    Walk(blocks, path) && path[|path| - 1] == b && m == Replay(blocks, path[..|path| - 1])
  }

  ghost predicate Leaves(blocks: seq<BasicBlock>, b: nat, path: seq<nat>, m: Machine) {
    Walk(blocks, path) && path[|path| - 1] == b && m == Replay(blocks, path)
  }

  ghost function Entries(blocks: seq<BasicBlock>, b: nat): iset<Machine> {
    iset m | CanArrive(blocks, b, m)
  }

  ghost predicate CanArrive(blocks: seq<BasicBlock>, b: nat, m: Machine) {
    exists path :: Arrives(blocks, b, path, m)
  }

  ghost function Exits(blocks: seq<BasicBlock>, b: nat): iset<Machine> {
    iset m | CanLeave(blocks, b, m)
  }

  ghost predicate CanLeave(blocks: seq<BasicBlock>, b: nat, m: Machine) {
    exists path :: Leaves(blocks, b, path, m)
  }

  lemma {:induction false} WalkFacts(blocks: seq<BasicBlock>, path: seq<nat>)
    requires Walk(blocks, path)
    ensures |path| > 0 && (forall k :: 0 <= k < |path| ==> path[k] < |blocks|)
    ensures |path| > 1 ==> path[|path| - 1] != 0 && Walk(blocks, path[..|path| - 1]) && Edge(blocks, path[|path| - 2], path[|path| - 1])
    ensures |path| == 1 ==> path == [0]
  {
    if |path| == 1 { assert path == [path[0]]; }
  }

  lemma {:induction false} WalkMore(blocks: seq<BasicBlock>, path: seq<nat>, b: nat)
    requires Walk(blocks, path) && 0 < b < |blocks| && Edge(blocks, path[|path| - 1], b)
    ensures Walk(blocks, path + [b])
  {
    assert (path + [b])[..|path|] == path;
  }

  lemma {:induction false} WalkPrefix(blocks: seq<BasicBlock>, path: seq<nat>, n: nat)
    requires Walk(blocks, path) && 0 < n <= |path|
    ensures Walk(blocks, path[..n])
    decreases |path|
  {
    if n < |path| {
      WalkFacts(blocks, path);
      WalkPrefix(blocks, path[..|path| - 1], n);
      assert path[..|path| - 1][..n] == path[..n];
    } else {
      assert path[..n] == path;
    }
  }

  /** What leaves a block is what arrived at it, after the block. */
  lemma {:induction false} ExitsAreRuns(blocks: seq<BasicBlock>, b: nat)
    requires b < |blocks|
    ensures Exits(blocks, b) == RunAll(blocks[b].instructions, Entries(blocks, b))
  {
    hide RunBlock, Walk;
    var code := blocks[b].instructions;
    forall n | n in Exits(blocks, b) ensures n in RunAll(code, Entries(blocks, b)) {
      var path :| Leaves(blocks, b, path, n);
      WalkFacts(blocks, path);
      var m := Replay(blocks, path[..|path| - 1]);
      assert Arrives(blocks, b, path, m) && n == RunBlock(code, m);
    }
    forall n | n in RunAll(code, Entries(blocks, b)) ensures n in Exits(blocks, b) {
      var m :| m in Entries(blocks, b) && n == RunBlock(code, m);
      var path :| Arrives(blocks, b, path, m);
      WalkFacts(blocks, path);
      assert Leaves(blocks, b, path, n);
    }
  }

  lemma {:induction false} FirstEntries(blocks: seq<BasicBlock>)
    requires |blocks| > 0
    ensures Entries(blocks, 0) == iset{START}
  {
    hide Walk;
    assert Arrives(blocks, 0, [0], START) by {
      assert Walk(blocks, [0]) by { OneBlock(blocks); }
      assert [0][..0] == [];
    }
    forall m | m in Entries(blocks, 0) ensures m == START {
      var path :| Arrives(blocks, 0, path, m);
      WalkFacts(blocks, path);
      assert path[..|path| - 1] == [];
    }
  }

  lemma {:induction false} OneBlock(blocks: seq<BasicBlock>)
    requires |blocks| > 0
    ensures Walk(blocks, [0])
  {
  }

  /** What arrives at a block has left one of its predecessors. */
  lemma {:induction false} EntriesFromPreds(blocks: seq<BasicBlock>, preds: seq<seq<nat>>, b: nat)
    requires 0 < b < |blocks| && ListsPredecessors(blocks, preds)
    ensures forall m :: m in Entries(blocks, b) <==> exists p :: p in preds[b] && m in Exits(blocks, p)
  {
    hide Walk, Replay;
    forall m | m in Entries(blocks, b) ensures exists p :: p in preds[b] && m in Exits(blocks, p) {
      var path :| Arrives(blocks, b, path, m);
      WalkFacts(blocks, path);
      var front := path[..|path| - 1];
      assert Leaves(blocks, path[|path| - 2], front, m);
      assert path[|path| - 2] in preds[b];
    }
    forall m, p | p in preds[b] && m in Exits(blocks, p) ensures m in Entries(blocks, b) {
      var path :| Leaves(blocks, p, path, m);
      WalkMore(blocks, path, b);
      assert (path + [b])[..|path|] == path;
      assert Arrives(blocks, b, path + [b], m);
    }
  }

  // ---------- fine walks ----------

  ghost predicate AllFineWalks(blocks: seq<BasicBlock>) {
    forall path :: Walk(blocks, path) ==> FineOn(blocks, path)
  }

  ghost predicate FineOn(blocks: seq<BasicBlock>, path: seq<nat>) {
    (forall k :: 0 <= k < |path| ==> path[k] < |blocks|) && FineWalk(blocks, path)
  }

  lemma {:induction false} FineShaped(code: seq<Instruction>, block: seq<Instruction>, m: Machine)
    requires Proper(code, m) && FineBlock(block, m) && forall ins :: ins in block ==> ins in code
    ensures Proper(code, RunBlock(block, m))
    decreases |block|
  {
    hide Proper, Execute, Safe, Unspent, Shaped;
    if block != [] {
      assert Fine(block[0], m);
      ProperStep(code, block[0], m);
      FineShaped(code, block[1..], Execute(block[0], m));
    }
  }

  lemma {:induction false} StartProper(code: seq<Instruction>)
    ensures Proper(code, START)
  {
  }

  lemma {:induction false} ReplayProper(blocks: seq<BasicBlock>, path: seq<nat>, n: nat)
    requires FineOn(blocks, path) && n <= |path|
    ensures Proper(AllCode(blocks), Replay(blocks, path[..n]))
    decreases n
  {
    hide Proper, RunBlock, FineBlock;
    if n == 0 {
      StartProper(AllCode(blocks));
    } else {
      ReplayProper(blocks, path, n - 1);
      var b := path[n - 1];
      BlockCode(blocks, b);
      assert path[..n][..n - 1] == path[..n - 1];
      FineShaped(AllCode(blocks), blocks[b].instructions, Replay(blocks, path[..n - 1]));
    }
  }

  lemma {:induction false} EntriesFine(blocks: seq<BasicBlock>, b: nat)
    requires AllFineWalks(blocks) && b < |blocks|
    ensures AllProper(AllCode(blocks), Entries(blocks, b))
    ensures forall m :: m in Entries(blocks, b) ==> FineBlock(blocks[b].instructions, m)
  {
    hide Proper, FineBlock, Walk, Replay;
    forall m | m in Entries(blocks, b) ensures Proper(AllCode(blocks), m) && FineBlock(blocks[b].instructions, m) {
      var path :| Arrives(blocks, b, path, m);
      WalkFacts(blocks, path);
      assert FineOn(blocks, path);
      ReplayProper(blocks, path, |path| - 1);
    }
  }

  lemma {:induction false} ExitsProper(blocks: seq<BasicBlock>, b: nat)
    requires AllFineWalks(blocks)
    ensures AllProper(AllCode(blocks), Exits(blocks, b))
  {
    hide Proper, FineBlock, Walk, Replay;
    forall m | m in Exits(blocks, b) ensures Proper(AllCode(blocks), m) {
      var path :| Leaves(blocks, b, path, m);
      assert FineOn(blocks, path);
      ReplayProper(blocks, path, |path|);
      assert path[..|path|] == path;
    }
  }

  // ---------- a block is entered for the first time ----------

  lemma {:induction false} RunKinds(block: seq<Instruction>, m: Machine)
    ensures RunBlock(block, m).kinds.Keys <= m.kinds.Keys + Results(block)
    decreases |block|
  {
    hide Execute;
    if block != [] {
      KindsAfter(block[0], m);
      RunKinds(block[1..], Execute(block[0], m));
      forall v | v in Results(block[1..]) ensures v in Results(block) {
        var i :| 0 <= i < |block[1..]| && Defines(block[1..][i]) && block[1..][i].result == v;
        assert block[i + 1].result == v;
      }
    }
  }

  /** Every local there is was defined by a block of the path. */
  lemma {:induction false} ReplayKinds(blocks: seq<BasicBlock>, path: seq<nat>, v: ValueId)
    requires (forall k :: 0 <= k < |path| ==> path[k] < |blocks|) && v in Replay(blocks, path).kinds
    ensures exists k :: 0 <= k < |path| && v in Results(blocks[path[k]].instructions)
    decreases |path|
  {
    hide RunBlock, Results;
    if path != [] {
      var n := |path| - 1;
      RunKinds(blocks[path[n]].instructions, Replay(blocks, path[..n]));
      if v !in Results(blocks[path[n]].instructions) {
        ReplayKinds(blocks, path[..n], v);
        var k :| 0 <= k < |path[..n]| && v in Results(blocks[path[..n][k]].instructions);
        assert path[k] == path[..n][k];
      }
    }
  }

  lemma {:induction false} FirstVisit(blocks: seq<BasicBlock>, path: seq<nat>, b: nat) returns (k: nat)
    requires b in path
    ensures k < |path| && path[k] == b && b !in path[..k]
    decreases |path|
  {
    if path[0] == b {
      k := 0;
    } else {
      var j := FirstVisit(blocks, path[1..], b);
      k := j + 1;
      assert path[..k] == [path[0]] + path[1..][..j];
    }
  }

  /** Some machine arrives at the block before anything the block defines is there. */
  lemma {:induction false} FreshArrival(blocks: seq<BasicBlock>, b: nat) returns (m: Machine)
    requires UniqueDefinitions(AllCode(blocks)) && b < |blocks| && Entries(blocks, b) != iset{}
    ensures m in Entries(blocks, b) && FreshFor(blocks[b].instructions, m)
  {
    hide UniqueDefinitions, Walk, Replay, Results, RunBlock;
    var n :| n in Entries(blocks, b);
    var path :| Arrives(blocks, b, path, n);
    WalkFacts(blocks, path);
    assert b in path;
    var k := FirstVisit(blocks, path, b);
    WalkPrefix(blocks, path, k + 1);
    assert path[..k + 1][..k] == path[..k] && path[..k + 1][k] == b;
    m := Replay(blocks, path[..k]);
    assert Arrives(blocks, b, path[..k + 1], m);
    var code := blocks[b].instructions;
    forall i | 0 <= i < |code| && Defines(code[i]) ensures code[i].result !in m.kinds {
      if code[i].result in m.kinds {
        ReplayKinds(blocks, path[..k], code[i].result);
        var j :| 0 <= j < k && code[i].result in Results(blocks[path[..k][j]].instructions);
        ResultsOf(code, code[i]);
        var c := path[..k][j];
        assert c in path[..k] && c != b;
        if c < b { ResultsApart(blocks, c, b); } else { ResultsApart(blocks, b, c); }
        assert false;
      }
    }
  }

  // ---------- the walks solve the flow equations ----------

  /** For every block the state that describes what leaves it. */
  ghost function Collected(blocks: seq<BasicBlock>): (outs: Flow)
    ensures |outs| == |blocks|
  {
    seq(|blocks|, b requires 0 <= b < |blocks| => if Exits(blocks, b) == iset{} then None else Some(Abs(AllCode(blocks), Exits(blocks, b))))
  }

  ghost predicate Collects(blocks: seq<BasicBlock>, outs: Flow) {
    && |outs| == |blocks|
    && forall b :: 0 <= b < |blocks| ==>
         if Exits(blocks, b) == iset{} then outs[b] == None else outs[b].Some? && Describes(Exits(blocks, b), outs[b].value)
  }

  lemma {:induction false} CollectedCollects(blocks: seq<BasicBlock>)
    requires UniqueDefinitions(AllCode(blocks)) && AllFineWalks(blocks)
    ensures Collects(blocks, Collected(blocks))
  {
    hide UniqueDefinitions, AllFineWalks, Exits, Describes, Abs;
    forall b | 0 <= b < |blocks| && Exits(blocks, b) != iset{}
      ensures Describes(Exits(blocks, b), Abs(AllCode(blocks), Exits(blocks, b)))
    {
      ExitsProper(blocks, b);
      AbsDescribes(AllCode(blocks), Exits(blocks, b));
    }
  }

  ghost function ExitsOf(blocks: seq<BasicBlock>, ps: seq<nat>): iset<Machine> {
    iset m | LeavesOne(blocks, ps, m)
  }

  ghost predicate LeavesOne(blocks: seq<BasicBlock>, ps: seq<nat>, m: Machine) {
    exists p :: p in ps && m in Exits(blocks, p)
  }

  function Output(outs: Flow, p: nat): seq<FlowState> {
    if p < |outs| && outs[p].Some? then [outs[p].value] else []
  }

  /** The outputs of the listed blocks that have one. */
  function Outputs(outs: Flow, ps: seq<nat>): seq<FlowState>
    decreases |ps|
  {
    if ps == [] then [] else Outputs(outs, ps[..|ps| - 1]) + Output(outs, ps[|ps| - 1])
  }

  lemma {:induction false} OutputsLast(outs: Flow, front: seq<nat>, last: nat)
    ensures Outputs(outs, front + [last]) == Outputs(outs, front) + Output(outs, last)
  {
    assert (front + [last])[..|front|] == front;
  }

  lemma {:induction false} OutputsFront(outs: Flow, p: nat, ps: seq<nat>)
    ensures Outputs(outs, [p] + ps) == Output(outs, p) + Outputs(outs, ps)
    decreases |ps|
  {
    if ps == [] {
      assert [p] + ps == [p] && [p][..0] == [];
    } else {
      hide Outputs, Output;
      var front, end := ps[..|ps| - 1], ps[|ps| - 1];
      OutputsFront(outs, p, front);
      OutputsLast(outs, front, end);
      OutputsLast(outs, [p] + front, end);
      assert ps == front + [end] && [p] + ps == [p] + front + [end];
    }
  }

  lemma {:induction false} IncomingOutputs(outs: Flow, ps: seq<nat>)
    ensures Incoming(outs, ps) == Outputs(outs, ps)
  {
    if ps != [] {
      IncomingOutputs(outs, ps[1..]);
      assert ps == [ps[0]] + ps[1..];
      OutputsFront(outs, ps[0], ps[1..]);
    }
  }

  lemma {:induction false} JoinLast(front: seq<FlowState>, s: FlowState)
    requires front != []
    ensures JoinAll(front + [s]) == JoinTwo(JoinAll(front), s)
  {
    assert (front + [s])[..|front|] == front;
  }

  /** Joining what is available from predecessors describes all that leaves them. */
  lemma {:induction false} JoinCollects(blocks: seq<BasicBlock>, outs: Flow, ps: seq<nat>)
    requires UniqueDefinitions(AllCode(blocks)) && AllFineWalks(blocks) && Collects(blocks, outs) && forall p :: p in ps ==> p < |blocks|
    ensures Outputs(outs, ps) == [] <==> ExitsOf(blocks, ps) == iset{}
    ensures Outputs(outs, ps) != [] ==> Describes(ExitsOf(blocks, ps), JoinAll(Outputs(outs, ps)))
    decreases |ps|
  {
    hide UniqueDefinitions, AllFineWalks, Exits, Describes, JoinAll, Collects, Outputs, ExitsOf;
    if ps == [] {
      NothingLeaves(blocks, outs);
    } else {
      var n := |ps| - 1;
      var front, last := ps[..n], ps[n];
      assert last in ps;
      forall p | p in front ensures p < |blocks| { assert p in ps; }
      JoinCollects(blocks, outs, front);
      JoinCollectsLast(blocks, outs, front, last);
      assert ps == front + [last];
    }
  }

  lemma {:induction false} NothingLeaves(blocks: seq<BasicBlock>, outs: Flow)
    ensures Outputs(outs, []) == [] && ExitsOf(blocks, []) == iset{}
  {
  }

  lemma {:induction false} JoinCollectsLast(blocks: seq<BasicBlock>, outs: Flow, front: seq<nat>, last: nat)
    requires UniqueDefinitions(AllCode(blocks)) && AllFineWalks(blocks) && Collects(blocks, outs) && last < |blocks|
    requires Outputs(outs, front) == [] <==> ExitsOf(blocks, front) == iset{}
    requires Outputs(outs, front) != [] ==> Describes(ExitsOf(blocks, front), JoinAll(Outputs(outs, front)))
    ensures var ps := front + [last];
            && (Outputs(outs, ps) == [] <==> ExitsOf(blocks, ps) == iset{})
            && (Outputs(outs, ps) != [] ==> Describes(ExitsOf(blocks, ps), JoinAll(Outputs(outs, ps))))
  {
    CollectsAt(blocks, outs, last);
    hide UniqueDefinitions, AllFineWalks, Exits, Describes, Collects, Outputs, ExitsOf, JoinAll, AllProper;
    var ps, before := front + [last], Outputs(outs, front);
    OutputsLast(outs, front, last);
    ExitsOfLast(blocks, front, last);
    if outs[last].Some? {
      var s := outs[last].value;
      if before == [] {
        JoinOne(s);
        assert ExitsOf(blocks, ps) == Exits(blocks, last);
      } else {
        ExitsOfProper(blocks, ps);
        JoinExact(AllCode(blocks), ExitsOf(blocks, front), JoinAll(before), Exits(blocks, last), s);
        JoinLast(before, s);
      }
    } else {
      assert before + [] == before;
      assert ExitsOf(blocks, ps) == ExitsOf(blocks, front);
    }
  }

  lemma {:induction false} JoinOne(s: FlowState)
    ensures JoinAll([] + [s]) == s
  {
  }

  lemma {:induction false} CollectsAt(blocks: seq<BasicBlock>, outs: Flow, b: nat)
    requires Collects(blocks, outs) && b < |blocks|
    ensures |outs| == |blocks|
    ensures if Exits(blocks, b) == iset{} then outs[b] == None else outs[b].Some? && Describes(Exits(blocks, b), outs[b].value)
  {
  }

  lemma {:induction false} ExitsOfLast(blocks: seq<BasicBlock>, front: seq<nat>, last: nat)
    ensures ExitsOf(blocks, front + [last]) == ExitsOf(blocks, front) + Exits(blocks, last)
  {
    hide Exits;
    forall m ensures LeavesOne(blocks, front + [last], m) <==> LeavesOne(blocks, front, m) || m in Exits(blocks, last) {
      if LeavesOne(blocks, front, m) {
        var p :| p in front && m in Exits(blocks, p);
        assert p in front + [last];
      }
      if m in Exits(blocks, last) { assert last in front + [last]; }
    }
  }

  lemma {:induction false} ExitsOfProper(blocks: seq<BasicBlock>, ps: seq<nat>)
    requires AllFineWalks(blocks)
    ensures AllProper(AllCode(blocks), ExitsOf(blocks, ps))
  {
    hide AllFineWalks, Exits, Proper;
    forall m | m in ExitsOf(blocks, ps) ensures Proper(AllCode(blocks), m) {
      var p :| p in ps && m in Exits(blocks, p);
      ExitsProper(blocks, p);
    }
  }

  /** The input of a block describes what arrives at it. */
  lemma {:induction false} InputCollects(blocks: seq<BasicBlock>, preds: seq<seq<nat>>, outs: Flow, b: nat)
    requires UniqueDefinitions(AllCode(blocks)) && AllFineWalks(blocks) && Collects(blocks, outs)
    requires ListsPredecessors(blocks, preds) && b < |blocks|
    ensures InputOf(outs, preds, b).None? <==> Entries(blocks, b) == iset{}
    ensures InputOf(outs, preds, b).Some? ==> Describes(Entries(blocks, b), InputOf(outs, preds, b).value)
  {
    hide UniqueDefinitions, AllFineWalks, Collects, Exits, Entries, Describes, JoinAll;
    if b == 0 {
      FirstEntries(blocks);
      EmptyDescribesStart();
    } else {
      forall p | p in preds[b] ensures p < |blocks| {}
      JoinCollects(blocks, outs, preds[b]);
      IncomingOutputs(outs, preds[b]);
      EntriesFromPreds(blocks, preds, b);
      assert Entries(blocks, b) == ExitsOf(blocks, preds[b]);
    }
  }

  lemma {:induction false} EmptyDescribesStart()
    ensures Describes(iset{START}, EMPTY)
  {
    var ms := iset{START};
    forall v ensures !AllHold(ms, v) && !AllComputed(ms, v) && !SomeSpent(ms, v) { assert START in ms; }
  }

  lemma {:induction false} BlockSolved(blocks: seq<BasicBlock>, preds: seq<seq<nat>>, outs: Flow, b: nat)
    requires UniqueDefinitions(AllCode(blocks)) && AllFineWalks(blocks) && Collects(blocks, outs)
    requires ListsPredecessors(blocks, preds) && b < |blocks|
    ensures Stable(blocks, preds, outs, b)
  {
    assert |preds| == |blocks|;
    CollectsAt(blocks, outs, b);
    hide UniqueDefinitions, AllFineWalks, ListsPredecessors, Exits, Entries, Describes, InputOf, FineBlock, Collects;
    var block := blocks[b].instructions;
    ExitsAreRuns(blocks, b);
    InputCollects(blocks, preds, outs, b);
    if Entries(blocks, b) == iset{} {
      assert Exits(blocks, b) == iset{};
    } else {
      var input := InputOf(outs, preds, b).value;
      EntriesFine(blocks, b);
      BlockCode(blocks, b);
      var m := FreshArrival(blocks, b);
      TransferExact(AllCode(blocks), block, Entries(blocks, b), input, m);
      assert RunBlock(block, m) in Exits(blocks, b);
      OneDescription(Exits(blocks, b), outs[b].value, Transfer(block, input).state);
    }
  }

  /** If nothing is at fault on any walk, the flow equations have a solution. */
  lemma {:induction false} FineIsSolved(blocks: seq<BasicBlock>, preds: seq<seq<nat>>)
    requires UniqueDefinitions(AllCode(blocks)) && AllFineWalks(blocks) && ListsPredecessors(blocks, preds)
    ensures Solution(blocks, preds, Collected(blocks))
  {
    hide UniqueDefinitions, AllFineWalks, Collected, Exits, Good, Stable, Describes;
    var outs := Collected(blocks);
    CollectedCollects(blocks);
    forall b | 0 <= b < |outs| && outs[b].Some? ensures Good(AllCode(blocks), outs[b].value) {
      ExitsProper(blocks, b);
      DescribedGood(AllCode(blocks), Exits(blocks, b), outs[b].value);
    }
    forall b | 0 <= b < |blocks| ensures Stable(blocks, preds, outs, b) { BlockSolved(blocks, preds, outs, b); }
  }

  lemma {:induction false} PredecessorsExist(blocks: seq<BasicBlock>) returns (preds: seq<seq<nat>>)
    ensures ListsPredecessors(blocks, preds)
  {
    preds := seq(|blocks|, j requires 0 <= j < |blocks| => SourcesBelow(blocks, j, |blocks|));
    forall j, i | 0 <= j < |blocks| ensures i in preds[j] <==> 0 <= i < |blocks| && Edge(blocks, i, j) { SourcesAre(blocks, j, |blocks|, i); }
  }

  ghost function SourcesBelow(blocks: seq<BasicBlock>, j: nat, n: nat): seq<nat>
    requires j < |blocks| && n <= |blocks|
  {
    if n == 0 then [] else SourcesBelow(blocks, j, n - 1) + (if Edge(blocks, n - 1, j) then [n - 1] else [])
  }

  lemma {:induction false} SourcesAre(blocks: seq<BasicBlock>, j: nat, n: nat, i: int)
    requires j < |blocks| && n <= |blocks|
    ensures i in SourcesBelow(blocks, j, n) <==> 0 <= i < n && Edge(blocks, i, j)
  {
    hide Edge;
    if n > 0 { SourcesAre(blocks, j, n - 1, i); }
  }

  // ---------- and conversely ----------

  lemma {:induction false} StepUnspent(code: seq<Instruction>, ins: Instruction, s: FlowState, m: Machine)
    requires TempsApart(code) && Good(code, s) && Approximates(code, s, m) && m.spent <= s.moved && Step(ins, s).Ok?
    ensures Shaped(ins) && Unspent(ins, m)
  {
    hide TempsApart, DefinedAs, BorrowedFrom, Results, Mentioned;
    match ins.opcode
    case AssignLocal =>
    case MoveLocal =>
    case Call =>
    case Return =>
    case _ =>
  }

  lemma {:induction false} StepSpends(ins: Instruction, s: FlowState, m: Machine)
    requires m.spent <= s.moved && Step(ins, s).Ok?
    ensures Execute(ins, m).spent <= Step(ins, s).state.moved
  {
    hide Execute;
    SpentAfter(ins, m);
  }

  lemma {:induction false} StepFine(code: seq<Instruction>, ins: Instruction, s: FlowState, m: Machine)
    requires TempsApart(code) && Good(code, s) && Approximates(code, s, m) && m.spent <= s.moved && Step(ins, s).Ok?
    ensures Fine(ins, m) && Execute(ins, m).spent <= Step(ins, s).state.moved
  {
    hide TempsApart, Good, Approximates, Safe, Shaped, Unspent, Step, Execute;
    StepSafe(code, ins, s, m);
    StepUnspent(code, ins, s, m);
    StepSpends(ins, s, m);
  }

  lemma {:induction false} BlockFine(code: seq<Instruction>, block: seq<Instruction>, s: FlowState, m: Machine)
    requires TempsApart(code) && Good(code, s) && Approximates(code, s, m) && m.spent <= s.moved
    requires (forall ins :: ins in block ==> ins in code) && Transfer(block, s).Ok?
    ensures FineBlock(block, m) && RunBlock(block, m).spent <= Transfer(block, s).state.moved
    decreases |block|
  {
    hide TempsApart, Good, Approximates, Fine, Execute, Step;
    if block != [] {
      StepFine(code, block[0], s, m);
      StepApproximates(code, block[0], s, m);
      StepGood(code, block[0], s);
      BlockFine(code, block[1..], Step(block[0], s).state, Execute(block[0], m));
    }
  }

  lemma {:induction false} WalkFine(blocks: seq<BasicBlock>, preds: seq<seq<nat>>, outs: Flow, path: seq<nat>)
    requires UniqueDefinitions(AllCode(blocks)) && TempsApart(AllCode(blocks))
    requires ListsPredecessors(blocks, preds) && Solution(blocks, preds, outs) && Walk(blocks, path)
    ensures FineOn(blocks, path)
    ensures |outs| == |blocks| && outs[path[|path| - 1]].Some? && Replay(blocks, path).spent <= outs[path[|path| - 1]].value.moved
    decreases |path|
  {
    hide UniqueDefinitions, TempsApart, Good, Approximates, ListsPredecessors, Solution, FineOn, FineBlock, Walk, RunBlock;
    var code, n := AllCode(blocks), |path| - 1;
    WalkFacts(blocks, path);
    var b, front := path[n], path[..n];
    var m := Replay(blocks, front);
    SolutionAt(blocks, preds, outs, b);
    if n == 0 {
      NothingYet(code);
      NothingFine(blocks, front);
    } else {
      WalkFine(blocks, preds, outs, front);
      WalkSound(blocks, preds, outs, front);
      Listed(blocks, preds, path[n - 1], b);
      InputBelow(code, outs, preds, b, path[n - 1]);
      InputGood(code, outs, preds, b);
      SolutionAt(blocks, preds, outs, path[n - 1]);
      ApproximatesBelow(code, InputOf(outs, preds, b).value, outs[path[n - 1]].value, m);
    }
    BlockCode(blocks, b);
    BlockFine(code, blocks[b].instructions, InputOf(outs, preds, b).value, m);
    FineGrows(blocks, path);
  }

  lemma {:induction false} NothingFine(blocks: seq<BasicBlock>, path: seq<nat>)
    requires path == []
    ensures FineOn(blocks, path)
  {
  }

  lemma {:induction false} FineGrows(blocks: seq<BasicBlock>, path: seq<nat>)
    requires |path| > 0 && forall k :: 0 <= k < |path| ==> path[k] < |blocks|
    requires FineOn(blocks, path[..|path| - 1])
    requires FineBlock(blocks[path[|path| - 1]].instructions, Replay(blocks, path[..|path| - 1]))
    ensures FineOn(blocks, path)
  {
    hide FineBlock, Replay;
    var front := path[..|path| - 1];
    forall k | 0 <= k < |path| ensures FineBlock(blocks[path[k]].instructions, Replay(blocks, path[..k])) {
      if k < |path| - 1 { assert front[k] == path[k] && front[..k] == path[..k]; }
    }
  }

  ghost predicate Structured(f: Function) {
    |f.blocks| > 0 && DistinctIds(f.blocks) && SuccessorsExist(f.blocks) && UniqueDefinitions(AllCode(f.blocks))
  }

  /** The verifier accepts a function if and only if it is well formed and no instruction is at fault on any walk. */
  lemma {:induction false} AcceptedExactly(f: Function)
    requires TempsApart(AllCode(f.blocks))
    ensures Acceptable(f) <==> Structured(f) && AllFineWalks(f.blocks)
  {
    hide TempsApart, UniqueDefinitions, Solution, ListsPredecessors, SuccessorsExist, DistinctIds, Walk, FineOn, Collected;
    if Acceptable(f) {
      var preds, outs :| ListsPredecessors(f.blocks, preds) && Solution(f.blocks, preds, outs);
      forall path | Walk(f.blocks, path) ensures FineOn(f.blocks, path) { WalkFine(f.blocks, preds, outs, path); }
    }
    if Structured(f) && AllFineWalks(f.blocks) {
      var preds := PredecessorsExist(f.blocks);
      FineIsSolved(f.blocks, preds);
    }
  }

  // ---------- what the verifier rejects beyond faults ----------

  /** Where every moved local is still marked as moved, a safe instruction uses no spent one; and the marks stay so unless a
      local is defined again that was moved and not dropped. */
  lemma {:induction false} SpentIsMoved(ins: Instruction, m: Machine)
    requires Safe(ins, m) && m.spent == m.moved
    ensures Unspent(ins, m)
    ensures !(Defines(ins) && (ins.result in m.spent || (ins.opcode.MoveLocal? && ins.result == ins.operand0))) ==>
              Execute(ins, m).spent == Execute(ins, m).moved
  {
  }

  /** A loop whose body defines an owner and moves it away, without dropping it. */
  function Looping(): Function {
    Function([
      BasicBlock(1, [], [2]),
      BasicBlock(2, [Instruction(DefineLocal, 1, 0, "", OWNED, []), Instruction(MoveLocal, 0, 1, "", GC, [])], [2])])
  }

  lemma {:induction false} LoopBody(m: Machine)
    requires m.loans == map[]
    ensures var code := Looping().blocks[1].instructions; SafeBlock(code, m) && RunBlock(code, m).loans == map[]
  {
    var code := Looping().blocks[1].instructions;
    var n := Execute(code[0], m);
    assert Safe(code[0], m) && Safe(code[1], n) && n.loans == map[];
    assert code[1..][1..] == [] && code[1..][0] == code[1];
    assert RunBlock(code[1..], n) == RunBlock([], Execute(code[1], n));
  }

  lemma {:induction false} LoopSafe(path: seq<nat>)
    requires forall k :: 0 <= k < |path| ==> path[k] < 2
    ensures SafeWalk(Looping().blocks, path) && Replay(Looping().blocks, path).loans == map[]
    decreases |path|
  {
    hide SafeBlock, RunBlock;
    var blocks := Looping().blocks;
    if path != [] {
      var n := |path| - 1;
      LoopSafe(path[..n]);
      var m := Replay(blocks, path[..n]);
      if path[n] == 1 { LoopBody(m); } else { EmptyBody(m); }
      SafeWalkGrows(blocks, path);
    }
  }

  lemma {:induction false} EmptyBody(m: Machine)
    ensures SafeBlock([], m) && RunBlock([], m) == m
  {
  }

  lemma {:induction false} LoopSpends(m: Machine)
    ensures var code := Looping().blocks[1].instructions;
            && 1 in RunBlock(code, m).spent && (1 in m.spent ==> !FineBlock(code, m))
  {
    var code := Looping().blocks[1].instructions;
    var n := Execute(code[0], m);
    assert code[1..][1..] == [] && code[1..][0] == code[1];
    assert RunBlock(code[1..], n) == RunBlock([], Execute(code[1], n)) == Execute(code[1], n);
    if FineBlock(code, m) { assert FineBlock(code[1..], n) && Fine(code[1], n); }
  }

  /** No walk through it is at fault, yet the verifier rejects it: it takes the owner of the second round for the one that
      was moved in the first. */
  lemma {:induction false} SafeLoopIsRejected()
    ensures forall path :: Walk(Looping().blocks, path) ==> (forall k :: 0 <= k < |path| ==> path[k] < 2) && SafeWalk(Looping().blocks, path)
    ensures TempsApart(AllCode(Looping().blocks)) && !Acceptable(Looping())
  {
    hide SafeWalk, Replay, FineBlock, RunBlock, Walk, Acceptable;
    var blocks := Looping().blocks;
    forall path | Walk(blocks, path) ensures (forall k :: 0 <= k < |path| ==> path[k] < 2) && SafeWalk(blocks, path) {
      WalkFacts(blocks, path);
      LoopSafe(path);
    }
    LoopCode();
    LoopWalk();
    LoopSpends(Replay(blocks, [0]));
    ReplayTwo(blocks);
    AcceptedExactly(Looping());
    if AllFineWalks(blocks) {
      assert FineOn(blocks, [0, 1, 1]);
      assert FineBlock(blocks[[0, 1, 1][2]].instructions, Replay(blocks, [0, 1, 1][..2]));
      assert [0, 1, 1][..2] == [0, 1];
      LoopSpends(Replay(blocks, [0, 1]));
    }
  }

  lemma {:induction false} ReplayTwo(blocks: seq<BasicBlock>)
    requires |blocks| == 2
    ensures Replay(blocks, [0, 1]) == RunBlock(blocks[1].instructions, Replay(blocks, [0]))
  {
    hide RunBlock;
    assert [0, 1][..1] == [0];
  }

  lemma {:induction false} LoopCode()
    ensures TempsApart(AllCode(Looping().blocks))
  {
    var blocks := Looping().blocks;
    assert blocks[1..] == [blocks[1]] && blocks[1..][1..] == [];
    assert AllCode(blocks[1..]) == blocks[1].instructions + AllCode([]);
    assert AllCode(blocks) == [] + blocks[1].instructions;
  }

  lemma {:induction false} LoopWalk()
    ensures Walk(Looping().blocks, [0, 1, 1])
  {
    var blocks := Looping().blocks;
    OneBlock(blocks);
    WalkMore(blocks, [0], 1);
    assert [0] + [1] == [0, 1];
    WalkMore(blocks, [0, 1], 1);
    assert [0, 1] + [1] == [0, 1, 1];
  }
}

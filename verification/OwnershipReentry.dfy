/** Paths that return to the first block. The verifier starts that block from the empty state every time, so it forgets the
    loans that are open then. That is all it forgets: on any path, an accepted function can fault only by moving an owner
    that was borrowed before the first block was last entered. */
module OwnershipReentry {
  import opened Wrappers
  import opened OwnershipIr
  import opened OwnershipVerify
  import opened OwnershipSound

  /** The machine on entering block `b`, with the loans forgotten that are open on entering the first block. */
  function Arrive(b: nat, m: Machine): Machine {
    if b == 0 then m.(loans := map[]) else m
  }

  /** The replay that knows only the loans opened since the first block was last entered. */
  function ReplayRecent(blocks: seq<BasicBlock>, path: seq<nat>): Machine
    requires forall k :: 0 <= k < |path| ==> path[k] < |blocks|
    decreases |path|
  {
    if path == [] then START
    else RunBlock(blocks[path[|path| - 1]].instructions, Arrive(path[|path| - 1], ReplayRecent(blocks, path[..|path| - 1])))
  }

  /** No instruction on the path faults as far as recent loans are concerned. */
  ghost predicate SafeRecent(blocks: seq<BasicBlock>, path: seq<nat>)
    requires forall k :: 0 <= k < |path| ==> path[k] < |blocks|
  {
    forall k :: 0 <= k < |path| ==> SafeBlock(blocks[path[k]].instructions, Arrive(path[k], ReplayRecent(blocks, path[..k])))
  }

  // ---------- accepted functions are safe up to old loans ----------

  lemma {:induction false} EmptyApproximates(code: seq<Instruction>, s: FlowState, m: Machine)
    requires Approximates(code, s, m)
    ensures Good(code, EMPTY) && Approximates(code, EMPTY, m.(loans := map[]))
  {
    EmptyGood(code);
  }

  lemma {:induction false} FrontIsPath(blocks: seq<BasicBlock>, path: seq<nat>)
    requires IsPath(blocks, path) && |path| > 1
    ensures IsPath(blocks, path[..|path| - 1]) && Edge(blocks, path[|path| - 2], path[|path| - 1])
  {
    var front := path[..|path| - 1];
    forall k | 1 <= k < |front| ensures Edge(blocks, front[k - 1], front[k]) { assert Edge(blocks, path[k - 1], path[k]); }
    assert Edge(blocks, path[|path| - 1 - 1], path[|path| - 1]);
  }

  lemma {:induction false} PathSound(blocks: seq<BasicBlock>, preds: seq<seq<nat>>, outs: Flow, path: seq<nat>)
    requires UniqueDefinitions(AllCode(blocks)) && TempsApart(AllCode(blocks))
    requires ListsPredecessors(blocks, preds) && Solution(blocks, preds, outs) && IsPath(blocks, path)
    ensures SafeRecent(blocks, path)
    ensures |outs| == |blocks| && outs[path[|path| - 1]].Some?
    ensures Approximates(AllCode(blocks), outs[path[|path| - 1]].value, ReplayRecent(blocks, path))
    decreases |path|
  {
    hide UniqueDefinitions, TempsApart, Good, Approximates, ListsPredecessors, Solution, SafeRecent, SafeBlock;
    var code, n := AllCode(blocks), |path| - 1;
    var b, front := path[n], path[..n];
    SolutionAt(blocks, preds, outs, b);
    if n == 0 {
      NothingYet(code);
      EmptyApproximates(code, EMPTY, START);
      NothingRecent(blocks, front);
    } else {
      FrontIsPath(blocks, path);
      PathSound(blocks, preds, outs, front);
      var from := outs[path[n - 1]].value;
      if b == 0 {
        EmptyApproximates(code, from, ReplayRecent(blocks, front));
      } else {
        Listed(blocks, preds, path[n - 1], b);
        InputBelow(code, outs, preds, b, path[n - 1]);
        InputGood(code, outs, preds, b);
        SolutionAt(blocks, preds, outs, path[n - 1]);
        ApproximatesBelow(code, InputOf(outs, preds, b).value, from, ReplayRecent(blocks, front));
      }
    }
    BlockCode(blocks, b);
    BlockSound(code, blocks[b].instructions, InputOf(outs, preds, b).value, Arrive(b, ReplayRecent(blocks, front)));
    RecentGrows(blocks, path);
  }

  lemma {:induction false} NothingRecent(blocks: seq<BasicBlock>, path: seq<nat>)
    requires path == []
    ensures SafeRecent(blocks, path)
  {
  }

  lemma {:induction false} RecentGrows(blocks: seq<BasicBlock>, path: seq<nat>)
    requires |path| > 0 && forall k :: 0 <= k < |path| ==> path[k] < |blocks|
    requires SafeRecent(blocks, path[..|path| - 1])
    requires SafeBlock(blocks[path[|path| - 1]].instructions, Arrive(path[|path| - 1], ReplayRecent(blocks, path[..|path| - 1])))
    ensures SafeRecent(blocks, path)
  {
    hide SafeBlock, ReplayRecent;
    var front := path[..|path| - 1];
    forall k | 0 <= k < |path|
      ensures SafeBlock(blocks[path[k]].instructions, Arrive(path[k], ReplayRecent(blocks, path[..k])))
    {
      if k < |path| - 1 {
        assert front[k] == path[k] && front[..k] == path[..k];
      }
    }
  }

  // ---------- the two replays differ in old loans only ----------

  /** `recent` is `m` without some of its loans. */
  ghost predicate FewerLoans(recent: Machine, m: Machine) {
    && recent.kinds == m.kinds && recent.computed == m.computed && recent.moved == m.moved
    && forall b :: b in recent.loans ==> b in m.loans && m.loans[b] == recent.loans[b]
  }

  lemma {:induction false} ExecuteFewer(ins: Instruction, recent: Machine, m: Machine)
    requires FewerLoans(recent, m)
    ensures FewerLoans(Execute(ins, recent), Execute(ins, m))
  {
    match ins.opcode
    case DefineLocal =>
    case MoveLocal =>
    case BorrowLocal =>
    case EndBorrow =>
    case DropLocal =>
    case _ =>
  }

  lemma {:induction false} RunFewer(code: seq<Instruction>, recent: Machine, m: Machine)
    requires FewerLoans(recent, m)
    ensures FewerLoans(RunBlock(code, recent), RunBlock(code, m))
    decreases |code|
  {
    hide Execute, FewerLoans;
    if code != [] {
      ExecuteFewer(code[0], recent, m);
      RunFewer(code[1..], Execute(code[0], recent), Execute(code[0], m));
    }
  }

  lemma {:induction false} ReplayFewer(blocks: seq<BasicBlock>, path: seq<nat>)
    requires forall k :: 0 <= k < |path| ==> path[k] < |blocks|
    ensures FewerLoans(ReplayRecent(blocks, path), Replay(blocks, path))
    decreases |path|
  {
    hide RunBlock;
    if path != [] {
      var front, b := path[..|path| - 1], path[|path| - 1];
      ReplayFewer(blocks, front);
      RunFewer(blocks[b].instructions, Arrive(b, ReplayRecent(blocks, front)), Replay(blocks, front));
    }
  }

  /** The instruction moves an owner on which some loan is open. */
  ghost predicate MovesLent(ins: Instruction, m: Machine) {
    ins.opcode.MoveLocal? && exists b :: b in m.loans && m.loans[b] == ins.operand0
  }

  lemma {:induction false} FaultIsOldLoan(ins: Instruction, recent: Machine, m: Machine)
    requires FewerLoans(recent, m) && Safe(ins, recent)
    ensures Safe(ins, m) <==> !MovesLent(ins, m)
    ensures !MovesLent(ins, recent)
  {
  }

  /** The machine before instruction `i` of the block at position `k` of the path. */
  function Before(blocks: seq<BasicBlock>, path: seq<nat>, k: nat, i: nat): Machine
    requires (forall j :: 0 <= j < |path| ==> path[j] < |blocks|) && k < |path| && i <= |blocks[path[k]].instructions|
  {
    RunBlock(blocks[path[k]].instructions[..i], Replay(blocks, path[..k]))
  }

  function BeforeRecent(blocks: seq<BasicBlock>, path: seq<nat>, k: nat, i: nat): Machine
    requires (forall j :: 0 <= j < |path| ==> path[j] < |blocks|) && k < |path| && i <= |blocks[path[k]].instructions|
  {
    RunBlock(blocks[path[k]].instructions[..i], Arrive(path[k], ReplayRecent(blocks, path[..k])))
  }

  lemma {:induction false} SafeAt(code: seq<Instruction>, m: Machine, i: nat)
    requires SafeBlock(code, m) && i < |code|
    ensures Safe(code[i], RunBlock(code[..i], m))
    decreases |code|
  {
    hide Safe, Execute;
    if i > 0 {
      SafeAt(code[1..], Execute(code[0], m), i - 1);
      assert code[..i][1..] == code[1..][..i - 1] && code[..i][0] == code[0];
    }
  }

  lemma {:induction false} ArriveFewer(b: nat, recent: Machine, m: Machine)
    requires FewerLoans(recent, m)
    ensures FewerLoans(Arrive(b, recent), m)
  {
  }

  /** On every path of an accepted function, through the first block as often as one likes: an instruction faults exactly
      when it moves an owner with an open loan, and that loan is never a recent one. */
  lemma {:induction false} OnlyOldLoansFault(f: Function, path: seq<nat>, k: nat, i: nat)
    requires Acceptable(f) && TempsApart(AllCode(f.blocks)) && IsPath(f.blocks, path)
    requires k < |path| && i < |f.blocks[path[k]].instructions|
    ensures var ins := f.blocks[path[k]].instructions[i];
            && (Safe(ins, Before(f.blocks, path, k, i)) <==> !MovesLent(ins, Before(f.blocks, path, k, i)))
            && !MovesLent(ins, BeforeRecent(f.blocks, path, k, i)) && Safe(ins, BeforeRecent(f.blocks, path, k, i))
            && FewerLoans(BeforeRecent(f.blocks, path, k, i), Before(f.blocks, path, k, i))
  {
    hide TempsApart, Solution, ListsPredecessors, SafeBlock, Safe, FewerLoans, MovesLent, Approximates, Edge, UniqueDefinitions;
    var preds, outs :| ListsPredecessors(f.blocks, preds) && Solution(f.blocks, preds, outs);
    PathSound(f.blocks, preds, outs, path);
    var code := f.blocks[path[k]].instructions;
    var recent := ReplayRecent(f.blocks, path[..k]);
    SafeAt(code, Arrive(path[k], recent), i);
    ReplayFewer(f.blocks, path[..k]);
    ArriveFewer(path[k], recent, Replay(f.blocks, path[..k]));
    RunFewer(code[..i], Arrive(path[k], recent), Replay(f.blocks, path[..k]));
    FaultIsOldLoan(code[i], BeforeRecent(f.blocks, path, k, i), Before(f.blocks, path, k, i));
  }

  // ---------- returning with no loan open ----------

  /** Whenever the path enters the first block no loan is open. */
  ghost predicate LoansEnded(blocks: seq<BasicBlock>, path: seq<nat>)
    requires forall k :: 0 <= k < |path| ==> path[k] < |blocks|
  {
    forall k :: 0 <= k < |path| && path[k] == 0 ==> Replay(blocks, path[..k]).loans == map[]
  }

  lemma {:induction false} SameReplay(blocks: seq<BasicBlock>, path: seq<nat>, n: nat)
    requires (forall k :: 0 <= k < |path| ==> path[k] < |blocks|) && LoansEnded(blocks, path) && n <= |path|
    ensures ReplayRecent(blocks, path[..n]) == Replay(blocks, path[..n])
    ensures n < |path| ==> Arrive(path[n], ReplayRecent(blocks, path[..n])) == Replay(blocks, path[..n])
    decreases n
  {
    hide RunBlock;
    if n > 0 {
      SameReplay(blocks, path, n - 1);
      assert path[..n][..n - 1] == path[..n - 1] && path[..n][n - 1] == path[n - 1];
    }
  }

  /** An accepted function is safe on every path that returns to the first block only with no loan open. */
  lemma {:induction false} SafeWhenLoansEnded(f: Function, path: seq<nat>)
    requires Acceptable(f) && TempsApart(AllCode(f.blocks)) && IsPath(f.blocks, path) && LoansEnded(f.blocks, path)
    ensures SafeWalk(f.blocks, path)
  {
    hide TempsApart, Solution, ListsPredecessors, SafeBlock, Approximates, Edge, UniqueDefinitions, Replay, ReplayRecent;
    var preds, outs :| ListsPredecessors(f.blocks, preds) && Solution(f.blocks, preds, outs);
    PathSound(f.blocks, preds, outs, path);
    forall k | 0 <= k < |path| ensures SafeBlock(f.blocks[path[k]].instructions, Replay(f.blocks, path[..k])) {
      SameReplay(f.blocks, path, k);
    }
  }
}

/** Which accepted functions are safe on all paths, told from the control-flow graph: exactly those in which no loan is
    carried, still open, into the first block and from there to a move of its owner. */
module OwnershipCarried {
  import opened Wrappers
  import opened OwnershipIr
  import opened OwnershipVerify
  import opened OwnershipSound
  import opened OwnershipReentry

  // ---------- paths as sequences of instructions ----------

  ghost predicate Inside(blocks: seq<BasicBlock>, path: seq<nat>) {
    forall k :: 0 <= k < |path| ==> path[k] < |blocks|
  }

  function Trace(blocks: seq<BasicBlock>, path: seq<nat>): seq<Instruction>
    requires Inside(blocks, path)
    decreases |path|
  {
    if path == [] then []
    else Trace(blocks, path[..|path| - 1]) + blocks[path[|path| - 1]].instructions
  }

  /** The instructions before instruction `i` of the block at position `k` of the path. */
  function Upto(blocks: seq<BasicBlock>, path: seq<nat>, k: nat, i: nat): seq<Instruction>
    requires Inside(blocks, path) && k < |path| && i <= |blocks[path[k]].instructions|
  {
    Trace(blocks, path[..k]) + blocks[path[k]].instructions[..i]
  }

  /** The instruction ends the loan `b` of `owner`. */
  predicate EndsLoan(ins: Instruction, b: ValueId, owner: ValueId) {
    || (ins.opcode.EndBorrow? && ins.operand0 == b)
    || (ins.opcode.DropLocal? && (ins.operand0 == b || ins.operand0 == owner))
  }

  /** Instruction `x` of the trace opens the loan `b` of `owner`, and nothing after it ends the loan. */
  predicate LeavesOpen(trace: seq<Instruction>, x: nat, b: ValueId, owner: ValueId) {
    && x < |trace| && trace[x].opcode.BorrowLocal? && trace[x].result == b && trace[x].operand0 == owner
    && forall y :: x < y < |trace| ==> !EndsLoan(trace[y], b, owner)
  }

  /** Along the path a loan opened before the first block is entered again is still open when its owner is moved. */
  ghost predicate CarriedAlong(blocks: seq<BasicBlock>, path: seq<nat>, again: nat, k: nat, i: nat, x: nat) {
    && IsPath(blocks, path) && 0 < again <= k < |path| && path[again] == 0
    && i < |blocks[path[k]].instructions| && blocks[path[k]].instructions[i].opcode.MoveLocal?
    && x < |Trace(blocks, path[..again])| <= |Upto(blocks, path, k, i)|
    && LeavesOpen(Upto(blocks, path, k, i), x, Upto(blocks, path, k, i)[x].result, blocks[path[k]].instructions[i].operand0)
  }

  ghost predicate LoanCarried(blocks: seq<BasicBlock>) {
    exists path, again, k, i, x :: CarriedAlong(blocks, path, again, k, i, x)
  }

  // ---------- running a trace ----------

  lemma {:induction false} RunAppend(a: seq<Instruction>, b: seq<Instruction>, m: Machine)
    ensures RunBlock(a + b, m) == RunBlock(b, RunBlock(a, m))
    decreases |a|
  {
    hide Execute;
    if a == [] {
      assert [] + b == b;
    } else {
      assert (a + b)[1..] == a[1..] + b;
      RunAppend(a[1..], b, Execute(a[0], m));
    }
  }

  lemma {:induction false} ReplayIsTrace(blocks: seq<BasicBlock>, path: seq<nat>)
    requires Inside(blocks, path)
    ensures Replay(blocks, path) == RunBlock(Trace(blocks, path), START)
    decreases |path|
  {
    hide Execute;
    if path != [] {
      var front := path[..|path| - 1];
      ReplayIsTrace(blocks, front);
      RunAppend(Trace(blocks, front), blocks[path[|path| - 1]].instructions, START);
    }
  }

  lemma {:induction false} BeforeIsTrace(blocks: seq<BasicBlock>, path: seq<nat>, k: nat, i: nat)
    requires Inside(blocks, path) && k < |path| && i <= |blocks[path[k]].instructions|
    ensures Before(blocks, path, k, i) == RunBlock(Upto(blocks, path, k, i), START)
  {
    hide RunBlock, Replay, Trace;
    ReplayIsTrace(blocks, path[..k]);
    RunAppend(Trace(blocks, path[..k]), blocks[path[k]].instructions[..i], START);
  }

  lemma {:induction false} TraceInside(blocks: seq<BasicBlock>, path: seq<nat>)
    requires Inside(blocks, path)
    ensures forall ins :: ins in Trace(blocks, path) ==> ins in AllCode(blocks)
    decreases |path|
  {
    if path != [] {
      TraceInside(blocks, path[..|path| - 1]);
      BlockCode(blocks, path[|path| - 1]);
    }
  }

  lemma {:induction false} UptoInside(blocks: seq<BasicBlock>, path: seq<nat>, k: nat, i: nat)
    requires Inside(blocks, path) && k < |path| && i <= |blocks[path[k]].instructions|
    ensures forall ins :: ins in Upto(blocks, path, k, i) ==> ins in AllCode(blocks)
  {
    hide Trace;
    TraceInside(blocks, path[..k]);
    BlockCode(blocks, path[k]);
  }

  // ---------- an open loan stays open until something ends it ----------

  /** Every loan `b` is a loan of `owner`. */
  ghost predicate OneOwner(trace: seq<Instruction>, b: ValueId, owner: ValueId) {
    forall ins :: ins in trace && ins.opcode.BorrowLocal? && ins.result == b ==> ins.operand0 == owner
  }

  ghost predicate Open(m: Machine, b: ValueId, owner: ValueId) {
    b in m.loans && m.loans[b] == owner
  }

  lemma {:induction false} StepKeepsOpen(ins: Instruction, m: Machine, b: ValueId, owner: ValueId)
    requires Open(m, b, owner) && !EndsLoan(ins, b, owner)
    requires ins.opcode.BorrowLocal? && ins.result == b ==> ins.operand0 == owner
    ensures Open(Execute(ins, m), b, owner)
  {
    match ins.opcode
    case DefineLocal =>
    case MoveLocal =>
    case BorrowLocal =>
    case EndBorrow =>
    case DropLocal =>
    case _ =>
  }

  lemma {:induction false} StaysOpen(trace: seq<Instruction>, m: Machine, b: ValueId, owner: ValueId)
    requires Open(m, b, owner) && OneOwner(trace, b, owner) && forall y :: 0 <= y < |trace| ==> !EndsLoan(trace[y], b, owner)
    ensures Open(RunBlock(trace, m), b, owner)
    decreases |trace|
  {
    hide Execute, Open, EndsLoan;
    if trace != [] {
      StepKeepsOpen(trace[0], m, b, owner);
      StaysOpen(trace[1..], Execute(trace[0], m), b, owner);
    }
  }

  /** A loan that the trace leaves open is open when it has run. */
  lemma {:induction false} LeftOpen(trace: seq<Instruction>, m: Machine, x: nat, b: ValueId, owner: ValueId)
    requires LeavesOpen(trace, x, b, owner) && OneOwner(trace, b, owner)
    ensures Open(RunBlock(trace, m), b, owner)
    decreases |trace|
  {
    hide EndsLoan;
    if x == 0 {
      StaysOpen(trace[1..], Execute(trace[0], m), b, owner);
    } else {
      var rest := trace[1..];
      assert rest[x - 1] == trace[x];
      forall y | x - 1 < y < |rest| ensures !EndsLoan(rest[y], b, owner) { assert rest[y] == trace[y + 1]; }
      LeftOpen(rest, Execute(trace[0], m), x - 1, b, owner);
    }
  }

  // ---------- an open loan was opened ----------

  /** What definitions say about a machine. */
  ghost predicate Tracked(code: seq<Instruction>, m: Machine) {
    && (forall v :: v in m.kinds ==> DefinedAs(code, v, m.kinds[v]))
    && (forall b :: b in m.loans ==> b in m.kinds && m.kinds[b] == BORROW && BorrowedFrom(code, b, m.loans[b]))
  }

  lemma {:induction false} DefinitionKinds(code: seq<Instruction>, ins: Instruction)
    requires ins in code && Defines(ins)
    ensures DefinedAs(code, ins.result, DefinedKind(ins))
    ensures ins.opcode.BorrowLocal? ==> BorrowedFrom(code, ins.result, ins.operand0)
  {
  }

  /** A local that is borrowed from its definition on is nothing else. */
  lemma {:induction false} LoanIsBorrow(code: seq<Instruction>, v: ValueId, kind: OwnershipKind, owner: ValueId)
    requires UniqueDefinitions(code) && DefinedAs(code, v, kind) && BorrowedFrom(code, v, owner)
    ensures kind == BORROW
  {
    hide UniqueDefinitions;
    var d :| d in code && d.opcode.BorrowLocal? && d.result == v && d.operand0 == owner;
    var e :| e in code && Defines(e) && e.result == v && DefinedKind(e) == kind;
    OneDefinition(code, d, e);
  }

  lemma {:induction false} TrackedStep(code: seq<Instruction>, ins: Instruction, m: Machine)
    requires UniqueDefinitions(code) && Tracked(code, m) && ins in code
    ensures Tracked(code, Execute(ins, m))
  {
    hide UniqueDefinitions, DefinedAs, BorrowedFrom;
    if Defines(ins) {
      DefinitionKinds(code, ins);
      if ins.result in m.loans { LoanIsBorrow(code, ins.result, DefinedKind(ins), m.loans[ins.result]); }
    }
    match ins.opcode
    case DefineLocal =>
    case MoveLocal =>
    case BorrowLocal =>
    case EndBorrow =>
    case DropLocal =>
    case _ =>
  }

  lemma {:induction false} TrackedRun(code: seq<Instruction>, trace: seq<Instruction>, m: Machine)
    requires UniqueDefinitions(code) && Tracked(code, m) && forall ins :: ins in trace ==> ins in code
    ensures Tracked(code, RunBlock(trace, m))
    decreases |trace|
  {
    hide UniqueDefinitions, Tracked, Execute;
    if trace != [] {
      TrackedStep(code, trace[0], m);
      TrackedRun(code, trace[1..], Execute(trace[0], m));
    }
  }

  /** What ends a loan of an owner that is itself no borrow takes it away. */
  lemma {:induction false} EndsIt(code: seq<Instruction>, ins: Instruction, m: Machine, b: ValueId, owner: ValueId)
    requires Tracked(code, m) && Open(m, b, owner) && EndsLoan(ins, b, owner) && !DefinedAs(code, owner, BORROW)
    ensures b !in Execute(ins, m).loans
  {
    hide DefinedAs, BorrowedFrom;
  }

  lemma {:induction false} OpenBefore(ins: Instruction, m: Machine, b: ValueId, owner: ValueId)
    requires Open(Execute(ins, m), b, owner) && !(ins.opcode.BorrowLocal? && ins.result == b)
    ensures Open(m, b, owner)
  {
    match ins.opcode
    case DefineLocal =>
    case MoveLocal =>
    case BorrowLocal =>
    case EndBorrow =>
    case DropLocal =>
    case _ =>
  }

  lemma {:induction false} RunLast(trace: seq<Instruction>, m: Machine)
    requires trace != []
    ensures RunBlock(trace, m) == Execute(trace[|trace| - 1], RunBlock(trace[..|trace| - 1], m))
  {
    var n := |trace| - 1;
    RunAppend(trace[..n], [trace[n]], m);
    assert trace[..n] + [trace[n]] == trace;
    assert RunBlock([], Execute(trace[n], RunBlock(trace[..n], m))) == Execute(trace[n], RunBlock(trace[..n], m));
  }

  /** A loan that is open after the trace and was not before is one the trace leaves open. */
  lemma {:induction false} OpenedBy(code: seq<Instruction>, trace: seq<Instruction>, m: Machine, b: ValueId, owner: ValueId) returns (x: nat)
    requires UniqueDefinitions(code) && Tracked(code, m) && (forall ins :: ins in trace ==> ins in code)
    requires b !in m.loans && Open(RunBlock(trace, m), b, owner) && !DefinedAs(code, owner, BORROW)
    ensures LeavesOpen(trace, x, b, owner)
    decreases |trace|
  {
    hide UniqueDefinitions, Tracked, EndsLoan, DefinedAs, RunBlock;
    EmptyRun(m);
    var n := |trace| - 1;
    var front, last := trace[..n], trace[n];
    var before := RunBlock(front, m);
    RunLast(trace, m);
    if last.opcode.BorrowLocal? && last.result == b {
      return n;
    }
    hide Execute;
    OpenBefore(last, before, b, owner);
    x := OpenedBy(code, front, m, b, owner);
    TrackedRun(code, front, m);
    if EndsLoan(last, b, owner) { EndsIt(code, last, before, b, owner); }
  }

  lemma {:induction false} EmptyRun(m: Machine)
    ensures RunBlock([], m) == m
  {
  }

  // ---------- loans opened since the first block was entered ----------

  /** The first block is not entered again after instruction `x` of the trace. */
  ghost predicate NotAgain(blocks: seq<BasicBlock>, path: seq<nat>, x: nat)
    requires Inside(blocks, path)
  {
    forall again :: 0 < again < |path| && path[again] == 0 ==> |Trace(blocks, path[..again])| <= x
  }

  lemma {:induction false} OpenSplit(a: seq<Instruction>, c: seq<Instruction>, x: nat, b: ValueId, owner: ValueId)
    requires LeavesOpen(a + c, x, b, owner)
    ensures x < |a| ==> LeavesOpen(a, x, b, owner) && forall y :: 0 <= y < |c| ==> !EndsLoan(c[y], b, owner)
    ensures x >= |a| ==> LeavesOpen(c, x - |a|, b, owner)
  {
    hide EndsLoan;
    var all := a + c;
    if x < |a| {
      forall y | x < y < |a| ensures !EndsLoan(a[y], b, owner) { assert all[y] == a[y]; }
      forall y | 0 <= y < |c| ensures !EndsLoan(c[y], b, owner) { assert all[|a| + y] == c[y]; }
    } else {
      forall y | x - |a| < y < |c| ensures !EndsLoan(c[y], b, owner) { assert all[|a| + y] == c[y]; }
    }
  }

  /** A loan opened since then is known to the replay that forgets old loans. */
  lemma {:induction false} RecentOpen(blocks: seq<BasicBlock>, path: seq<nat>, c: seq<Instruction>, x: nat, b: ValueId, owner: ValueId)
    requires path != [] && Inside(blocks, path) && NotAgain(blocks, path, x) && OneOwner(AllCode(blocks), b, owner)
    requires LeavesOpen(Trace(blocks, path[..|path| - 1]) + c, x, b, owner) && forall ins :: ins in c ==> ins in AllCode(blocks)
    ensures Open(RunBlock(c, Arrive(path[|path| - 1], ReplayRecent(blocks, path[..|path| - 1]))), b, owner)
    decreases |path|
  {
    hide EndsLoan, Open, RunBlock, AllCode, LeavesOpen;
    var n := |path| - 1;
    var front := path[..n];
    var m := Arrive(path[n], ReplayRecent(blocks, front));
    OpenSplit(Trace(blocks, front), c, x, b, owner);
    if x >= |Trace(blocks, front)| {
      LeftOpen(c, m, x - |Trace(blocks, front)|, b, owner);
    } else {
      assert path[n] != 0 by { assert 0 < n; }
      BlockCode(blocks, front[n - 1]);
      forall again | 0 < again < |front| && front[again] == 0 ensures |Trace(blocks, front[..again])| <= x {
        assert path[again] == 0 && path[..again] == front[..again];
      }
      RecentOpen(blocks, front, blocks[front[n - 1]].instructions, x, b, owner);
      StaysOpen(c, m, b, owner);
    }
  }

  // ---------- the condition is exact ----------

  lemma {:induction false} OwnerIsOne(code: seq<Instruction>, b: ValueId, owner: ValueId)
    requires UniqueDefinitions(code) && BorrowedFrom(code, b, owner)
    ensures OneOwner(code, b, owner)
  {
    hide UniqueDefinitions;
    var d :| d in code && d.opcode.BorrowLocal? && d.result == b && d.operand0 == owner;
    forall e | e in code && e.opcode.BorrowLocal? && e.result == b ensures e.operand0 == owner { OneDefinition(code, d, e); }
  }

  lemma {:induction false} OwnerIsOneIn(code: seq<Instruction>, trace: seq<Instruction>, x: nat)
    requires UniqueDefinitions(code) && (forall ins :: ins in trace ==> ins in code) && x < |trace| && trace[x].opcode.BorrowLocal?
    ensures OneOwner(code, trace[x].result, trace[x].operand0) && OneOwner(trace, trace[x].result, trace[x].operand0)
  {
    hide UniqueDefinitions;
    assert trace[x] in code;
    DefinitionKinds(code, trace[x]);
    OwnerIsOne(code, trace[x].result, trace[x].operand0);
  }

  /** A carried loan makes the move at the end of it a fault. */
  lemma {:induction false} CarriedFaults(f: Function, path: seq<nat>, again: nat, k: nat, i: nat, x: nat)
    requires UniqueDefinitions(AllCode(f.blocks)) && CarriedAlong(f.blocks, path, again, k, i, x)
    ensures !SafeWalk(f.blocks, path)
  {
    hide UniqueDefinitions, RunBlock, Trace, AllCode, EndsLoan, SafeBlock, Replay;
    var trace, code := Upto(f.blocks, path, k, i), f.blocks[path[k]].instructions;
    UptoInside(f.blocks, path, k, i);
    OwnerIsOneIn(AllCode(f.blocks), trace, x);
    LeftOpen(trace, START, x, trace[x].result, trace[x].operand0);
    BeforeIsTrace(f.blocks, path, k, i);
    if SafeWalk(f.blocks, path) {
      SafeAt(code, Replay(f.blocks, path[..k]), i);
    }
  }

  lemma {:induction false} OwnedIsNoBorrow(code: seq<Instruction>, v: ValueId)
    requires UniqueDefinitions(code) && DefinedAs(code, v, OWNED)
    ensures !DefinedAs(code, v, BORROW)
  {
    hide UniqueDefinitions;
    if DefinedAs(code, v, BORROW) {
      var d :| d in code && Defines(d) && d.result == v && DefinedKind(d) == OWNED;
      var e :| e in code && Defines(e) && e.result == v && DefinedKind(e) == BORROW;
      OneDefinition(code, d, e);
    }
  }

  lemma {:induction false} StartTracked(code: seq<Instruction>)
    ensures Tracked(code, START)
  {
  }

  /** The owner that a faulting move takes is no borrow itself. */
  lemma {:induction false} MovedIsOwned(code: seq<Instruction>, ins: Instruction, recent: Machine, m: Machine)
    requires UniqueDefinitions(code) && Tracked(code, m) && FewerLoans(recent, m) && ins.opcode.MoveLocal? && Safe(ins, recent)
    ensures !DefinedAs(code, ins.operand0, BORROW)
  {
    hide UniqueDefinitions, DefinedAs, BorrowedFrom;
    assert DefinedAs(code, ins.operand0, OWNED);
    OwnedIsNoBorrow(code, ins.operand0);
  }

  /** A fault has a carried loan behind it. */
  lemma {:induction false} FaultCarries(f: Function, path: seq<nat>, k: nat, i: nat) returns (again: nat, x: nat)
    requires Acceptable(f) && TempsApart(AllCode(f.blocks)) && IsPath(f.blocks, path)
    requires k < |path| && i < |f.blocks[path[k]].instructions|
    requires !Safe(f.blocks[path[k]].instructions[i], Before(f.blocks, path, k, i))
    ensures CarriedAlong(f.blocks, path, again, k, i, x)
  {
    hide TempsApart, UniqueDefinitions, RunBlock, Trace, AllCode, EndsLoan, Tracked, DefinedAs, FewerLoans, Replay, ReplayRecent, Safe;
    hide OneOwner, Solution, ListsPredecessors, SuccessorsExist, Edge;
    var code, ins := AllCode(f.blocks), f.blocks[path[k]].instructions[i];
    OnlyOldLoansFault(f, path, k, i);
    var m := Before(f.blocks, path, k, i);
    var b :| b in m.loans && m.loans[b] == ins.operand0;
    BeforeIsTrace(f.blocks, path, k, i);
    UptoInside(f.blocks, path, k, i);
    var trace := Upto(f.blocks, path, k, i);
    StartTracked(code);
    TrackedRun(code, trace, START);
    MovedIsOwned(code, ins, BeforeRecent(f.blocks, path, k, i), m);
    x := OpenedBy(code, trace, START, b, ins.operand0);
    again := Returned(f, path, k, i, x, b);
  }

  /** Between the loan and the move the first block is entered again: the verifier would have seen it otherwise. */
  lemma {:induction false} Returned(f: Function, path: seq<nat>, k: nat, i: nat, x: nat, b: ValueId) returns (again: nat)
    requires UniqueDefinitions(AllCode(f.blocks)) && IsPath(f.blocks, path) && k < |path| && i < |f.blocks[path[k]].instructions|
    requires var ins := f.blocks[path[k]].instructions[i];
             && ins.opcode.MoveLocal? && LeavesOpen(Upto(f.blocks, path, k, i), x, b, ins.operand0)
             && !MovesLent(ins, BeforeRecent(f.blocks, path, k, i))
    ensures 0 < again <= k && path[again] == 0 && x < |Trace(f.blocks, path[..again])| <= |Upto(f.blocks, path, k, i)|
  {
    hide UniqueDefinitions, RunBlock, Trace, AllCode, EndsLoan, Replay, ReplayRecent, Edge;
    var ins, here := f.blocks[path[k]].instructions[i], path[..k + 1];
    var trace := Upto(f.blocks, path, k, i);
    UptoInside(f.blocks, path, k, i);
    OwnerIsOneIn(AllCode(f.blocks), trace, x);
    assert here[..k] == path[..k] && here[k] == path[k];
    if NotAgain(f.blocks, here, x) {
      BlockCode(f.blocks, path[k]);
      RecentOpen(f.blocks, here, f.blocks[path[k]].instructions[..i], x, b, ins.operand0);
      assert false;
    }
    again :| 0 < again < |here| && here[again] == 0 && !(|Trace(f.blocks, here[..again])| <= x);
    assert here[..again] == path[..again];
    TraceGrows(f.blocks, path, again, k);
  }

  lemma {:induction false} TraceGrows(blocks: seq<BasicBlock>, path: seq<nat>, a: nat, k: nat)
    requires Inside(blocks, path) && a <= k <= |path|
    ensures |Trace(blocks, path[..a])| <= |Trace(blocks, path[..k])|
    decreases k
  {
    if a < k {
      TraceGrows(blocks, path, a, k - 1);
      assert path[..k][..k - 1] == path[..k - 1];
    }
  }

  lemma {:induction false} FirstFault(code: seq<Instruction>, m: Machine) returns (i: nat)
    requires !SafeBlock(code, m)
    ensures i < |code| && !Safe(code[i], RunBlock(code[..i], m))
    decreases |code|
  {
    hide Safe, Execute;
    if Safe(code[0], m) {
      var j := FirstFault(code[1..], Execute(code[0], m));
      i := j + 1;
      assert code[..i][0] == code[0] && code[..i][1..] == code[1..][..j];
    } else {
      i := 0;
    }
  }

  /** An accepted function is safe on all paths if and only if no loan is carried into the first block and on to a move of
      its owner. */
  lemma {:induction false} SafeUnlessCarried(f: Function)
    requires Acceptable(f) && TempsApart(AllCode(f.blocks))
    ensures (forall path :: IsPath(f.blocks, path) ==> SafeWalk(f.blocks, path)) <==> !LoanCarried(f.blocks)
  {
    hide TempsApart, UniqueDefinitions, AllCode, Solution, ListsPredecessors, SuccessorsExist, CarriedAlong, SafeBlock, Replay, Edge;
    if path, again, k, i, x :| CarriedAlong(f.blocks, path, again, k, i, x) {
      CarriedFaults(f, path, again, k, i, x);
      CarriedPath(f.blocks, path, again, k, i, x);
    }
    if path :| IsPath(f.blocks, path) && !SafeWalk(f.blocks, path) {
      var k :| 0 <= k < |path| && !SafeBlock(f.blocks[path[k]].instructions, Replay(f.blocks, path[..k]));
      var i := FirstFault(f.blocks[path[k]].instructions, Replay(f.blocks, path[..k]));
      var again, x := FaultCarries(f, path, k, i);
    }
  }

  lemma {:induction false} CarriedPath(blocks: seq<BasicBlock>, path: seq<nat>, again: nat, k: nat, i: nat, x: nat)
    requires CarriedAlong(blocks, path, again, k, i, x)
    ensures IsPath(blocks, path)
  {
  }
}

/** The ownership verifier is exact (src/compiler/ir.cpp): it accepts a function if and only if no instruction is at fault on
    any walk through it. Joining states loses nothing, because whatever a joined state forbids, some walk forbids. */
module OwnershipExact {
  import opened Wrappers
  import opened OwnershipIr
  import opened OwnershipVerify
  import opened OwnershipSound

  // ---------- what a walk may not do ----------

  /** The ids that an instruction needs are given, and a call names its target. */
  predicate Shaped(ins: Instruction) {
    match ins.opcode
    case DefineLocal => ins.result != 0
    case AssignLocal => ins.result != 0
    case MoveLocal => ins.operand0 != 0
    case BorrowLocal => ins.result != 0 && ins.operand0 != 0
    case EndBorrow => ins.operand0 != 0
    case DropLocal => ins.operand0 != 0
    case Const => ins.result != 0
    case Unary => ins.result != 0
    case Binary => ins.result != 0
    case LoadLocal => ins.operand0 != 0 && ins.result != 0
    case Call => ins.result != 0 && ins.symbol != "" && 0 !in ins.operands
    case _ => true
  }

  /** No local is used that was moved out and not dropped since: a new definition alone does not make it good again. */
  predicate Unspent(ins: Instruction, m: Machine) {
    match ins.opcode
    case LoadLocal => ins.operand0 !in m.spent
    case AssignLocal => ins.result !in m.spent && (ins.operand0 in m.kinds && ins.operand0 != 0 ==> ins.operand0 !in m.spent)
    case MoveLocal => ins.operand0 !in m.spent
    case BorrowLocal => ins.operand0 !in m.spent
    case Return => ins.operand0 in m.kinds && ins.operand0 != 0 ==> ins.operand0 !in m.spent
    case _ => true
  }

  predicate Fine(ins: Instruction, m: Machine) {
    Shaped(ins) && Safe(ins, m) && Unspent(ins, m)
  }

  predicate FineBlock(code: seq<Instruction>, m: Machine)
    decreases |code|
  {
    code == [] || (Fine(code[0], m) && FineBlock(code[1..], Execute(code[0], m)))
  }

  ghost predicate FineWalk(blocks: seq<BasicBlock>, path: seq<nat>)
    requires forall k :: 0 <= k < |path| ==> path[k] < |blocks|
  {
    forall k :: 0 <= k < |path| ==> FineBlock(blocks[path[k]].instructions, Replay(blocks, path[..k]))
  }

  // ---------- machines of the code ----------

  /** What holds of every machine that runs `code`. */
  ghost predicate Proper(code: seq<Instruction>, m: Machine) {
    && m.kinds.Keys <= m.computed <= Mentioned(code) && m.spent <= Mentioned(code) && m.loans.Keys <= Mentioned(code)
    && m.moved <= m.spent && 0 !in m.computed
    && (forall v :: v in m.kinds ==> DefinedAs(code, v, m.kinds[v]))
    && (forall b :: b in m.loans ==> m.loans[b] != 0 && BorrowedFrom(code, b, m.loans[b]))
    && (TempsApart(code) ==> forall v :: v in m.computed && v in Results(code) ==> v in m.kinds)
  }

  lemma {:induction false} MentionedIn(code: seq<Instruction>, ins: Instruction)
    requires ins in code
    ensures ins.result in Mentioned(code) && ins.operand0 in Mentioned(code)
    ensures Defines(ins) ==> DefinedAs(code, ins.result, DefinedKind(ins)) && ins.result in Results(code)
    ensures ins.opcode.BorrowLocal? ==> BorrowedFrom(code, ins.result, ins.operand0)
    ensures Computes(ins) && TempsApart(code) ==> ins.result !in Results(code)
  {
    var i :| 0 <= i < |code| && code[i] == ins;
  }

  lemma {:induction false} ProperEnd(code: seq<Instruction>, ins: Instruction, m: Machine)
    requires Proper(code, m) && (ins.opcode.EndBorrow? || ins.opcode.DropLocal?)
    ensures Proper(code, Execute(ins, m))
  {
    hide Mentioned, DefinedAs, BorrowedFrom, TempsApart, Results;
  }

  lemma {:induction false} ProperDefine(code: seq<Instruction>, ins: Instruction, m: Machine)
    requires Proper(code, m) && ins in code && Shaped(ins) && (ins.opcode.DefineLocal? || ins.opcode.BorrowLocal?)
    ensures Proper(code, Execute(ins, m))
  {
    MentionedIn(code, ins);
    hide Mentioned, DefinedAs, BorrowedFrom, TempsApart, Results;
  }

  lemma {:induction false} ProperMove(code: seq<Instruction>, ins: Instruction, m: Machine)
    requires Proper(code, m) && ins in code && ins.opcode.MoveLocal?
    ensures Proper(code, Execute(ins, m))
  {
    MentionedIn(code, ins);
    hide Mentioned, DefinedAs, BorrowedFrom, TempsApart, Results;
  }

  lemma {:induction false} ProperRest(code: seq<Instruction>, ins: Instruction, m: Machine)
    requires Proper(code, m) && ins in code && Shaped(ins) && !Defines(ins)
    requires !ins.opcode.MoveLocal? && !ins.opcode.EndBorrow? && !ins.opcode.DropLocal?
    ensures Proper(code, Execute(ins, m))
  {
    MentionedIn(code, ins);
    hide Mentioned, DefinedAs, BorrowedFrom, TempsApart, Results;
  }

  lemma {:induction false} ProperStep(code: seq<Instruction>, ins: Instruction, m: Machine)
    requires Proper(code, m) && ins in code && Shaped(ins)
    ensures Proper(code, Execute(ins, m))
  {
    hide Proper, Execute;
    match ins.opcode
    case DefineLocal => ProperDefine(code, ins, m);
    case BorrowLocal => ProperDefine(code, ins, m);
    case MoveLocal => ProperMove(code, ins, m);
    case EndBorrow => ProperEnd(code, ins, m);
    case DropLocal => ProperEnd(code, ins, m);
    case _ => ProperRest(code, ins, m);
  }

  lemma {:induction false} SameKind(code: seq<Instruction>, m: Machine, n: Machine, v: ValueId)
    requires UniqueDefinitions(code) && Proper(code, m) && Proper(code, n) && v in m.kinds && v in n.kinds
    ensures m.kinds[v] == n.kinds[v]
  {
    hide UniqueDefinitions, DefinedAs, BorrowedFrom;
    OneKind(code, v, m.kinds[v], n.kinds[v]);
  }

  lemma {:induction false} SameLender(code: seq<Instruction>, m: Machine, n: Machine, b: ValueId)
    requires UniqueDefinitions(code) && Proper(code, m) && Proper(code, n) && b in m.loans && b in n.loans
    ensures m.loans[b] == n.loans[b]
  {
    hide UniqueDefinitions, DefinedAs, BorrowedFrom;
    OwnershipIr.OneOwner(code, b, m.loans[b], n.loans[b]);
  }

  // ---------- the state that describes a set of machines ----------

  ghost predicate AllHold(ms: iset<Machine>, v: ValueId) { forall m :: m in ms ==> v in m.kinds }

  ghost predicate AllComputed(ms: iset<Machine>, v: ValueId) { forall m :: m in ms ==> v in m.computed }

  ghost predicate SomeSpent(ms: iset<Machine>, v: ValueId) { exists m :: m in ms && v in m.spent }

  /** The loan `b` of `owner` is open. */
  ghost predicate LoanIn(m: Machine, b: ValueId, owner: ValueId) { b in m.loans && m.loans[b] == owner }

  ghost predicate SomeLoan(ms: iset<Machine>, b: ValueId, owner: ValueId) { exists m :: m in ms && LoanIn(m, b, owner) }

  ghost predicate Recorded(s: FlowState, b: ValueId, owner: ValueId) { b in s.borrowSources && s.borrowSources[b] == owner }

  ghost predicate AllProper(code: seq<Instruction>, ms: iset<Machine>) { forall m :: m in ms ==> Proper(code, m) }

  /** What must hold, holds on all machines; what may be the case, is the case on some. */
  ghost predicate Describes(ms: iset<Machine>, s: FlowState) {
    && s.ownership.Keys == s.live
    && (forall v :: v in s.live <==> AllHold(ms, v))
    && (forall v :: v in s.values <==> AllComputed(ms, v))
    && (forall v :: v in s.moved <==> SomeSpent(ms, v))
    && (forall m, v :: m in ms && v in s.live ==> s.ownership[v] == m.kinds[v])
    && (forall b, o :: Recorded(s, b, o) <==> SomeLoan(ms, b, o))
  }

  lemma {:induction false} OneDescription(ms: iset<Machine>, s: FlowState, t: FlowState)
    requires ms != iset{} && Describes(ms, s) && Describes(ms, t)
    ensures s == t
  {
    hide AllHold, AllComputed, SomeSpent;
    var m :| m in ms;
    assert s.live == t.live && s.values == t.values && s.moved == t.moved;
    forall v | v in s.live ensures v in m.kinds && s.ownership[v] == t.ownership[v] { assert AllHold(ms, v); AllHoldAt(ms, v, m); }
    assert s.ownership == t.ownership;
    hide SomeLoan;
    forall b, o ensures Recorded(s, b, o) <==> Recorded(t, b, o) {}
    forall b | b in s.borrowSources ensures b in t.borrowSources && s.borrowSources[b] == t.borrowSources[b] {
      assert Recorded(s, b, s.borrowSources[b]);
    }
    forall b | b in t.borrowSources ensures b in s.borrowSources { assert Recorded(t, b, t.borrowSources[b]); }
    assert s.borrowSources == t.borrowSources;
  }

  lemma {:induction false} AllHoldAt(ms: iset<Machine>, v: ValueId, m: Machine)
    requires AllHold(ms, v) && m in ms
    ensures v in m.kinds
  {
  }

  ghost function After(ins: Instruction, ms: iset<Machine>): iset<Machine> {
    iset m | m in ms :: Execute(ins, m)
  }

  // ---------- what an instruction does to a set of machines ----------

  function Gained(ins: Instruction): set<ValueId> { if Defines(ins) then {ins.result} else {} }

  function Lost(ins: Instruction): set<ValueId> {
    if ins.opcode.EndBorrow? || ins.opcode.DropLocal? then {ins.operand0} else {}
  }

  lemma {:induction false} KindsAfter(ins: Instruction, m: Machine)
    ensures Execute(ins, m).kinds.Keys == m.kinds.Keys - Lost(ins) + Gained(ins)
    ensures forall v :: v in Execute(ins, m).kinds ==> Execute(ins, m).kinds[v] == if v in Gained(ins) then DefinedKind(ins) else m.kinds[v]
    ensures Execute(ins, m).computed == m.computed - Lost(ins) + Gained(ins) + (if Computes(ins) then {ins.result} else {})
  {
  }

  lemma {:induction false} SpentAfter(ins: Instruction, m: Machine)
    ensures Execute(ins, m).spent
         == m.spent + (if ins.opcode.MoveLocal? then {ins.operand0} else {}) - (if ins.opcode.DropLocal? then {ins.operand0} else {})
  {
  }

  lemma {:induction false} LoansAfter(ins: Instruction, m: Machine)
    requires !ins.opcode.DropLocal?
    ensures Execute(ins, m).loans
         == if ins.opcode.BorrowLocal? then m.loans[ins.result := ins.operand0]
            else if ins.opcode.EndBorrow? then m.loans - {ins.operand0} else m.loans
  {
  }

  /** The parts of a description that do not concern loans. */
  ghost predicate DescribesLocals(ms: iset<Machine>, s: FlowState) {
    && s.ownership.Keys == s.live
    && (forall v :: v in s.live <==> AllHold(ms, v))
    && (forall v :: v in s.values <==> AllComputed(ms, v))
    && (forall v :: v in s.moved <==> SomeSpent(ms, v))
    && (forall m, v :: m in ms && v in s.live ==> s.ownership[v] == m.kinds[v])
  }

  ghost predicate DescribesLoans(ms: iset<Machine>, s: FlowState) {
    forall b, o :: Recorded(s, b, o) <==> SomeLoan(ms, b, o)
  }

  lemma {:induction false} TwoParts(ms: iset<Machine>, s: FlowState)
    ensures Describes(ms, s) <==> DescribesLocals(ms, s) && DescribesLoans(ms, s)
  {
    hide AllHold, AllComputed, SomeSpent, SomeLoan, Recorded;
  }

  /** The locals of the state after an instruction, by what the instruction gains, loses and moves. */
  ghost predicate Follows(ins: Instruction, s: FlowState, t: FlowState)
    requires s.ownership.Keys == s.live
  {
    && t.live == s.live - Lost(ins) + Gained(ins)
    && t.values == s.values - Lost(ins) + Gained(ins) + (if Computes(ins) then {ins.result} else {})
    && t.moved == s.moved + (if ins.opcode.MoveLocal? then {ins.operand0} else {}) - (if ins.opcode.DropLocal? then {ins.operand0} else {})
    && t.ownership.Keys == t.live
    && forall v :: v in t.live ==> t.ownership[v] == if v in Gained(ins) then DefinedKind(ins) else s.ownership[v]
  }

  lemma {:induction false} HoldAfter(ins: Instruction, ms: iset<Machine>, v: ValueId)
    requires ms != iset{}
    ensures AllHold(After(ins, ms), v) <==> v in Gained(ins) || (v !in Lost(ins) && AllHold(ms, v))
    ensures AllComputed(After(ins, ms), v) <==>
            v in Gained(ins) || (Computes(ins) && v == ins.result) || (v !in Lost(ins) && AllComputed(ms, v))
  {
    hide Execute, Gained, Lost;
    forall m ensures var n := Execute(ins, m);
      && (v in n.kinds <==> v in Gained(ins) || (v !in Lost(ins) && v in m.kinds))
      && (v in n.computed <==> v in Gained(ins) || (Computes(ins) && v == ins.result) || (v !in Lost(ins) && v in m.computed))
    {
      KindsAfter(ins, m);
    }
    var some :| some in ms;
    assert Execute(ins, some) in After(ins, ms);
    if AllHold(After(ins, ms), v) && v !in Gained(ins) {
      forall m | m in ms ensures v in m.kinds { assert Execute(ins, m) in After(ins, ms); }
    }
    if AllComputed(After(ins, ms), v) && v !in Gained(ins) && !(Computes(ins) && v == ins.result) {
      forall m | m in ms ensures v in m.computed { assert Execute(ins, m) in After(ins, ms); }
    }
  }

  lemma {:induction false} SomeSpentAfter(ins: Instruction, ms: iset<Machine>, v: ValueId)
    requires ms != iset{}
    ensures SomeSpent(After(ins, ms), v) <==>
            !(ins.opcode.DropLocal? && v == ins.operand0) && ((ins.opcode.MoveLocal? && v == ins.operand0) || SomeSpent(ms, v))
  {
    hide Execute;
    forall m ensures v in Execute(ins, m).spent <==>
      !(ins.opcode.DropLocal? && v == ins.operand0) && ((ins.opcode.MoveLocal? && v == ins.operand0) || v in m.spent)
    {
      SpentAfter(ins, m);
    }
    var some :| some in ms;
    assert Execute(ins, some) in After(ins, ms);
    if m :| m in ms && v in m.spent { assert Execute(ins, m) in After(ins, ms); }
  }

  lemma {:induction false} LocalsFollow(ins: Instruction, ms: iset<Machine>, s: FlowState, t: FlowState)
    requires ms != iset{} && DescribesLocals(ms, s) && Follows(ins, s, t)
    ensures DescribesLocals(After(ins, ms), t)
  {
    hide Execute, Gained, Lost, AllHold, AllComputed, SomeSpent;
    var ns := After(ins, ms);
    forall v ensures (v in t.live <==> AllHold(ns, v)) && (v in t.values <==> AllComputed(ns, v)) && (v in t.moved <==> SomeSpent(ns, v)) {
      HoldAfter(ins, ms, v);
      SomeSpentAfter(ins, ms, v);
    }
    forall n, v | n in ns && v in t.live ensures v in n.kinds && t.ownership[v] == n.kinds[v] {
      var m :| m in ms && n == Execute(ins, m);
      KindsAfter(ins, m);
      assert AllHold(ns, v);
      AllHoldAt(ns, v, n);
    }
  }

  /** Loans follow one by one where the instruction does the same to all machines. */
  lemma {:induction false} LoansFollow(ins: Instruction, ms: iset<Machine>, s: FlowState, t: FlowState)
    requires ms != iset{} && DescribesLoans(ms, s) && !ins.opcode.DropLocal?
    requires t.borrowSources == if ins.opcode.BorrowLocal? then s.borrowSources[ins.result := ins.operand0]
                                else if ins.opcode.EndBorrow? then s.borrowSources - {ins.operand0} else s.borrowSources
    ensures DescribesLoans(After(ins, ms), t)
  {
    hide Execute;
    var ns := After(ins, ms);
    forall m ensures Execute(ins, m).loans
         == if ins.opcode.BorrowLocal? then m.loans[ins.result := ins.operand0]
            else if ins.opcode.EndBorrow? then m.loans - {ins.operand0} else m.loans
    {
      LoansAfter(ins, m);
    }
    var some :| some in ms;
    assert Execute(ins, some) in ns;
    forall b, o ensures Recorded(t, b, o) <==> SomeLoan(ns, b, o) {
      assert Recorded(s, b, o) <==> SomeLoan(ms, b, o);
      if m :| m in ms && LoanIn(m, b, o) { assert Execute(ins, m) in ns; }
      if n :| n in ns && LoanIn(n, b, o) { var m :| m in ms && n == Execute(ins, m); }
    }
  }

  // ---------- one instruction ----------

  /** Everything that one instruction needs: machines on which it is fine, described by a state. */
  ghost predicate Ready(code: seq<Instruction>, ins: Instruction, ms: iset<Machine>, s: FlowState) {
    && UniqueDefinitions(code) && ms != iset{} && AllProper(code, ms) && Describes(ms, s)
    && (forall m :: m in ms ==> Fine(ins, m))
    && (ins.opcode.DefineLocal? || ins.opcode.BorrowLocal? ==> !AllHold(ms, ins.result))
  }

  lemma {:induction false} HeldByAll(ms: iset<Machine>, s: FlowState, v: ValueId)
    requires Describes(ms, s) && forall m :: m in ms ==> v in m.kinds
    ensures v in s.live
  {
    assert AllHold(ms, v);
  }

  lemma {:induction false} UnspentByAll(ms: iset<Machine>, s: FlowState, v: ValueId)
    requires Describes(ms, s) && forall m :: m in ms ==> v !in m.spent
    ensures v !in s.moved
  {
    assert !SomeSpent(ms, v);
  }

  lemma {:induction false} AccountedByAll(ms: iset<Machine>, s: FlowState, v: ValueId)
    requires Describes(ms, s) && forall m :: m in ms ==> v in m.computed
    ensures v in s.values
  {
    assert AllComputed(ms, v);
  }

  /** A state that follows the instruction describes the machines after it, if the loans do. */
  lemma {:induction false} FollowsExact(ins: Instruction, ms: iset<Machine>, s: FlowState, t: FlowState)
    requires ms != iset{} && Describes(ms, s) && !ins.opcode.DropLocal? && Follows(ins, s, t)
    requires t.borrowSources == if ins.opcode.BorrowLocal? then s.borrowSources[ins.result := ins.operand0]
                                else if ins.opcode.EndBorrow? then s.borrowSources - {ins.operand0} else s.borrowSources
    ensures Describes(After(ins, ms), t)
  {
    hide Follows, After, AllHold, AllComputed, SomeSpent, SomeLoan;
    TwoParts(ms, s);
    LocalsFollow(ins, ms, s, t);
    LoansFollow(ins, ms, s, t);
    TwoParts(After(ins, ms), t);
  }

  lemma {:induction false} DefineExact(code: seq<Instruction>, ins: Instruction, ms: iset<Machine>, s: FlowState)
    requires Ready(code, ins, ms, s) && (ins.opcode.DefineLocal? || ins.opcode.BorrowLocal?)
    ensures Step(ins, s).Ok? && Describes(After(ins, ms), Step(ins, s).state)
  {
    hide UniqueDefinitions, AllProper, AllHold, AllComputed, SomeSpent, SomeLoan, After;
    var m :| m in ms;
    assert Fine(ins, m);
    if ins.opcode.BorrowLocal? {
      HeldByAll(ms, s, ins.operand0);
      UnspentByAll(ms, s, ins.operand0);
    }
    FollowsExact(ins, ms, s, Step(ins, s).state);
  }

  lemma {:induction false} NoLoanOn(code: seq<Instruction>, ms: iset<Machine>, s: FlowState, v: ValueId)
    requires AllProper(code, ms) && Describes(ms, s) && forall m, b :: m in ms && b in m.loans ==> m.loans[b] != v
    ensures forall b :: b in s.borrowSources ==> s.borrowSources[b] != v && s.borrowSources[b] != 0
  {
    forall b | b in s.borrowSources ensures s.borrowSources[b] != v && s.borrowSources[b] != 0 {
      assert Recorded(s, b, s.borrowSources[b]);
      var m :| m in ms && LoanIn(m, b, s.borrowSources[b]);
      assert Proper(code, m);
    }
  }

  lemma {:induction false} MoveExact(code: seq<Instruction>, ins: Instruction, ms: iset<Machine>, s: FlowState)
    requires Ready(code, ins, ms, s) && ins.opcode.MoveLocal?
    ensures Step(ins, s).Ok? && Describes(After(ins, ms), Step(ins, s).state)
  {
    hide UniqueDefinitions, AllProper, AllHold, AllComputed, SomeSpent, SomeLoan, After;
    var m :| m in ms;
    assert Fine(ins, m);
    HeldByAll(ms, s, ins.operand0);
    UnspentByAll(ms, s, ins.operand0);
    NoLoanOn(code, ms, s, ins.operand0);
    FollowsExact(ins, ms, s, Step(ins, s).state);
  }

  lemma {:induction false} EndExact(code: seq<Instruction>, ins: Instruction, ms: iset<Machine>, s: FlowState)
    requires Ready(code, ins, ms, s) && ins.opcode.EndBorrow?
    ensures Step(ins, s).Ok? && Describes(After(ins, ms), Step(ins, s).state)
  {
    hide UniqueDefinitions, AllProper, AllHold, AllComputed, SomeSpent, SomeLoan, After;
    var m :| m in ms;
    assert Fine(ins, m);
    HeldByAll(ms, s, ins.operand0);
    FollowsExact(ins, ms, s, Step(ins, s).state);
  }

  /** The loan `b` of `owner` survives dropping `x`, a local of this kind. */
  predicate Survives(kind: OwnershipKind, x: ValueId, b: ValueId, owner: ValueId) {
    if kind == BORROW then b != x else owner != x
  }

  lemma {:induction false} DropOnMachine(ins: Instruction, m: Machine, b: ValueId, o: ValueId)
    requires ins.opcode.DropLocal? && ins.operand0 in m.kinds
    ensures LoanIn(Execute(ins, m), b, o) <==> LoanIn(m, b, o) && Survives(m.kinds[ins.operand0], ins.operand0, b, o)
  {
  }

  lemma {:induction false} DropOnState(ins: Instruction, s: FlowState, b: ValueId, o: ValueId)
    requires ins.opcode.DropLocal? && Step(ins, s).Ok? && !Recorded(s, b, 0)
    ensures Recorded(Step(ins, s).state, b, o) <==> Recorded(s, b, o) && Survives(KindAt(s, ins.operand0), ins.operand0, b, o)
  {
  }

  lemma {:induction false} NoOwnerZero(code: seq<Instruction>, ms: iset<Machine>, s: FlowState, b: ValueId)
    requires AllProper(code, ms) && Describes(ms, s)
    ensures !Recorded(s, b, 0)
  {
    assert !SomeLoan(ms, b, 0);
  }

  /** Dropping a local ends the same loans everywhere: its own, or those of which it is the owner. */
  lemma {:induction false} DropLoans(code: seq<Instruction>, ins: Instruction, ms: iset<Machine>, s: FlowState)
    requires Ready(code, ins, ms, s) && ins.opcode.DropLocal? && Step(ins, s).Ok?
    ensures DescribesLoans(After(ins, ms), Step(ins, s).state)
  {
    var x, t, ns := ins.operand0, Step(ins, s).state, After(ins, ms);
    forall m | m in ms ensures x in m.kinds && m.kinds[x] == KindAt(s, x) { DropKind(code, ins, ms, s, m); }
    hide Step, Execute, Survives, Ready, AllProper, LoanIn, Recorded, KindAt;
    forall b, o ensures Recorded(t, b, o) <==> SomeLoan(ns, b, o) {
      NoOwnerZero(code, ms, s, b);
      DropOnState(ins, s, b, o);
      assert Recorded(s, b, o) <==> SomeLoan(ms, b, o) by { TwoParts(ms, s); }
      if SomeLoan(ms, b, o) && Survives(KindAt(s, x), x, b, o) {
        var m :| m in ms && LoanIn(m, b, o);
        DropOnMachine(ins, m, b, o);
        assert Execute(ins, m) in ns;
      }
      if SomeLoan(ns, b, o) {
        var n :| n in ns && LoanIn(n, b, o);
        var m :| m in ms && n == Execute(ins, m);
        DropOnMachine(ins, m, b, o);
      }
    }
  }

  lemma {:induction false} DropKind(code: seq<Instruction>, ins: Instruction, ms: iset<Machine>, s: FlowState, m: Machine)
    requires Ready(code, ins, ms, s) && ins.opcode.DropLocal? && Step(ins, s).Ok? && m in ms
    ensures ins.operand0 in m.kinds && m.kinds[ins.operand0] == KindAt(s, ins.operand0)
  {
    hide UniqueDefinitions, AllProper;
    assert Fine(ins, m);
  }

  lemma {:induction false} DropExact(code: seq<Instruction>, ins: Instruction, ms: iset<Machine>, s: FlowState)
    requires Ready(code, ins, ms, s) && ins.opcode.DropLocal?
    ensures Step(ins, s).Ok? && Describes(After(ins, ms), Step(ins, s).state)
  {
    hide UniqueDefinitions, AllProper, AllHold, AllComputed, SomeSpent, SomeLoan, After;
    var m :| m in ms;
    assert Fine(ins, m);
    HeldByAll(ms, s, ins.operand0);
    var t := Step(ins, s).state;
    DropLoans(code, ins, ms, s);
    TwoParts(ms, s);
    LocalsFollow(ins, ms, s, t);
    TwoParts(After(ins, ms), t);
  }

  lemma {:induction false} ComputeExact(code: seq<Instruction>, ins: Instruction, ms: iset<Machine>, s: FlowState)
    requires Ready(code, ins, ms, s) && Computes(ins)
    ensures Step(ins, s).Ok? && Describes(After(ins, ms), Step(ins, s).state)
  {
    hide UniqueDefinitions, AllProper, AllHold, AllComputed, SomeSpent, SomeLoan, After;
    var m :| m in ms;
    assert Fine(ins, m);
    if ins.opcode.LoadLocal? {
      HeldByAll(ms, s, ins.operand0);
      UnspentByAll(ms, s, ins.operand0);
    }
    if ins.opcode.Call? {
      forall a | a in ins.operands ensures a in s.values {
        forall n | n in ms ensures a in n.computed { assert Fine(ins, n); }
        AccountedByAll(ms, s, a);
      }
    }
    FollowsExact(ins, ms, s, Step(ins, s).state);
  }

  /** A local held by all machines is used well if it is used well on each. */
  lemma {:induction false} LiveUse(ins: Instruction, ms: iset<Machine>, s: FlowState, v: ValueId)
    requires Describes(ms, s) && v in s.live && forall m :: m in ms && v in m.kinds ==> v !in m.spent
    ensures v !in s.moved
  {
    assert AllHold(ms, v);
    UnspentByAll(ms, s, v);
  }

  lemma {:induction false} AssignExact(code: seq<Instruction>, ins: Instruction, ms: iset<Machine>, s: FlowState)
    requires Ready(code, ins, ms, s) && ins.opcode.AssignLocal?
    ensures Step(ins, s).Ok? && Describes(After(ins, ms), Step(ins, s).state)
  {
    hide UniqueDefinitions, AllProper, AllHold, AllComputed, SomeSpent, SomeLoan, After;
    var m :| m in ms;
    assert Fine(ins, m);
    HeldByAll(ms, s, ins.result);
    UnspentByAll(ms, s, ins.result);
    if ins.operand0 != 0 {
      forall n | n in ms ensures ins.operand0 in n.computed { assert Fine(ins, n); }
      AccountedByAll(ms, s, ins.operand0);
      if ins.operand0 in s.live {
        forall n | n in ms && ins.operand0 in n.kinds ensures ins.operand0 !in n.spent { assert Fine(ins, n); }
        LiveUse(ins, ms, s, ins.operand0);
        HeldAt(ms, s, ins.operand0, m);
      }
    }
    FollowsExact(ins, ms, s, Step(ins, s).state);
  }

  lemma {:induction false} HeldAt(ms: iset<Machine>, s: FlowState, v: ValueId, m: Machine)
    requires Describes(ms, s) && v in s.live && m in ms
    ensures v in m.kinds && s.ownership[v] == m.kinds[v]
  {
    assert AllHold(ms, v);
  }

  lemma {:induction false} ReturnExact(code: seq<Instruction>, ins: Instruction, ms: iset<Machine>, s: FlowState)
    requires Ready(code, ins, ms, s) && ins.opcode.Return?
    ensures Step(ins, s).Ok? && Describes(After(ins, ms), Step(ins, s).state)
  {
    hide UniqueDefinitions, AllProper, AllHold, AllComputed, SomeSpent, SomeLoan, After;
    var m :| m in ms;
    assert Fine(ins, m);
    if ins.operand0 != 0 {
      forall n | n in ms ensures ins.operand0 in n.computed { assert Fine(ins, n); }
      AccountedByAll(ms, s, ins.operand0);
      if ins.operand0 in s.live {
        forall n | n in ms && ins.operand0 in n.kinds ensures ins.operand0 !in n.spent { assert Fine(ins, n); }
        LiveUse(ins, ms, s, ins.operand0);
        HeldAt(ms, s, ins.operand0, m);
      }
    }
    FollowsExact(ins, ms, s, Step(ins, s).state);
  }

  /** One instruction that is fine on all machines is accepted in the state that describes them, and the new state describes
      the machines after it. */
  lemma {:induction false} StepExact(code: seq<Instruction>, ins: Instruction, ms: iset<Machine>, s: FlowState)
    requires Ready(code, ins, ms, s)
    ensures Step(ins, s).Ok? && Describes(After(ins, ms), Step(ins, s).state)
  {
    hide Ready, Describes;
    match ins.opcode
    case DefineLocal => DefineExact(code, ins, ms, s);
    case BorrowLocal => DefineExact(code, ins, ms, s);
    case MoveLocal => MoveExact(code, ins, ms, s);
    case EndBorrow => EndExact(code, ins, ms, s);
    case DropLocal => DropExact(code, ins, ms, s);
    case AssignLocal => AssignExact(code, ins, ms, s);
    case Return => ReturnExact(code, ins, ms, s);
    case Const => ComputeExact(code, ins, ms, s);
    case Unary => ComputeExact(code, ins, ms, s);
    case Binary => ComputeExact(code, ins, ms, s);
    case Call => ComputeExact(code, ins, ms, s);
    case LoadLocal => ComputeExact(code, ins, ms, s);
    case _ => RestExact(code, ins, ms, s);
  }

  lemma {:induction false} RestExact(code: seq<Instruction>, ins: Instruction, ms: iset<Machine>, s: FlowState)
    requires Ready(code, ins, ms, s) && (ins.opcode.Nop? || ins.opcode.StoreLocal? || ins.opcode.Jump? || ins.opcode.Branch? || ins.opcode.Throw?)
    ensures Step(ins, s).Ok? && Describes(After(ins, ms), Step(ins, s).state)
  {
    hide UniqueDefinitions, AllProper, AllHold, AllComputed, SomeSpent, SomeLoan, After;
    FollowsExact(ins, ms, s, Step(ins, s).state);
  }

  // ---------- a block ----------

  ghost function RunAll(code: seq<Instruction>, ms: iset<Machine>): iset<Machine> {
    iset m | m in ms :: RunBlock(code, m)
  }

  /** None of the locals that `code` defines is there yet. */
  ghost predicate FreshFor(code: seq<Instruction>, m: Machine) {
    forall i :: 0 <= i < |code| && Defines(code[i]) ==> code[i].result !in m.kinds
  }

  lemma {:induction false} FreshStep(code: seq<Instruction>, m: Machine)
    requires code != [] && UniqueDefinitions(code) && FreshFor(code, m)
    ensures FreshFor(code[1..], Execute(code[0], m)) && UniqueDefinitions(code[1..])
  {
    hide Execute;
    KindsAfter(code[0], m);
    forall i | 0 <= i < |code[1..]| && Defines(code[1..][i]) ensures code[1..][i].result !in Execute(code[0], m).kinds {
      assert code[1..][i] == code[i + 1];
    }
  }

  lemma {:induction false} RunAllStep(code: seq<Instruction>, ms: iset<Machine>)
    requires code != []
    ensures RunAll(code, ms) == RunAll(code[1..], After(code[0], ms))
  {
    hide Execute;
    forall r | r in RunAll(code, ms) ensures r in RunAll(code[1..], After(code[0], ms)) {
      var m :| m in ms && r == RunBlock(code, m);
      assert Execute(code[0], m) in After(code[0], ms);
    }
    forall r | r in RunAll(code[1..], After(code[0], ms)) ensures r in RunAll(code, ms) {
      var n :| n in After(code[0], ms) && r == RunBlock(code[1..], n);
      var m :| m in ms && n == Execute(code[0], m);
      assert r == RunBlock(code, m);
    }
  }

  lemma {:induction false} RunNothing(ms: iset<Machine>)
    ensures RunAll([], ms) == ms
  {
    forall m | m in ms ensures m in RunAll([], ms) { assert RunBlock([], m) == m; }
  }

  /** A block that is fine on all machines is accepted in the state that describes them; `first` is one of them on which the
      block defines everything anew. */
  lemma {:induction false} TransferExact(code: seq<Instruction>, block: seq<Instruction>, ms: iset<Machine>, s: FlowState, first: Machine)
    requires UniqueDefinitions(code) && UniqueDefinitions(block) && (forall ins :: ins in block ==> ins in code)
    requires ms != iset{} && AllProper(code, ms) && Describes(ms, s) && (forall m :: m in ms ==> FineBlock(block, m))
    requires first in ms && FreshFor(block, first)
    ensures Transfer(block, s).Ok? && Describes(RunAll(block, ms), Transfer(block, s).state)
    decreases |block|
  {
    hide UniqueDefinitions, AllProper, Describes, Fine, Execute, Step, AllHold, FreshFor;
    if block == [] {
      RunNothing(ms);
    } else {
      var ins, ns := block[0], After(block[0], ms);
      AllFine(block, ms);
      NotHeldYet(block, ms, first);
      assert Ready(code, ins, ms, s);
      StepExact(code, ins, ms, s);
      FreshStep(block, first);
      AfterProper(code, ins, ms);
      RunAllStep(block, ms);
      assert Execute(ins, first) in ns;
      TransferExact(code, block[1..], ns, Step(ins, s).state, Execute(ins, first));
    }
  }

  lemma {:induction false} NotHeldYet(block: seq<Instruction>, ms: iset<Machine>, first: Machine)
    requires block != [] && first in ms && FreshFor(block, first)
    ensures Defines(block[0]) ==> !AllHold(ms, block[0].result)
  {
  }

  lemma {:induction false} AllFine(block: seq<Instruction>, ms: iset<Machine>)
    requires block != [] && forall m :: m in ms ==> FineBlock(block, m)
    ensures forall m :: m in ms ==> Fine(block[0], m)
    ensures forall n :: n in After(block[0], ms) ==> FineBlock(block[1..], n)
  {
    hide Fine, Execute;
  }

  lemma {:induction false} AfterProper(code: seq<Instruction>, ins: Instruction, ms: iset<Machine>)
    requires AllProper(code, ms) && ins in code && forall m :: m in ms ==> Fine(ins, m)
    ensures AllProper(code, After(ins, ms))
  {
    hide Execute, Proper, Safe, Unspent, Shaped;
    forall n | n in After(ins, ms) ensures Proper(code, n) {
      var m :| m in ms && n == Execute(ins, m);
      assert Fine(ins, m);
      ProperStep(code, ins, m);
    }
  }

  // ---------- joins ----------

  lemma {:induction false} JoinLoans(code: seq<Instruction>, ms: iset<Machine>, s: FlowState, ns: iset<Machine>, t: FlowState)
    requires UniqueDefinitions(code) && AllProper(code, ms + ns) && DescribesLoans(ms, s) && DescribesLoans(ns, t)
    ensures DescribesLoans(ms + ns, JoinTwo(s, t))
  {
    var j := JoinTwo(s, t);
    forall b, o ensures Recorded(j, b, o) <==> SomeLoan(ms + ns, b, o) {
      if b in s.borrowSources && b in t.borrowSources { LendersAgree(code, ms, s, ns, t, b); }
      hide UniqueDefinitions, AllProper, DescribesLoans, LoanIn;
      assert (Recorded(s, b, o) <==> SomeLoan(ms, b, o)) && (Recorded(t, b, o) <==> SomeLoan(ns, b, o)) by {
        LoansAt(ms, s, b, o);
        LoansAt(ns, t, b, o);
      }
      if m :| m in ms && LoanIn(m, b, o) { assert m in ms + ns; }
      if n :| n in ns && LoanIn(n, b, o) { assert n in ms + ns; }
    }
  }

  lemma {:induction false} LoansAt(ms: iset<Machine>, s: FlowState, b: ValueId, o: ValueId)
    requires DescribesLoans(ms, s)
    ensures Recorded(s, b, o) <==> SomeLoan(ms, b, o)
  {
  }

  lemma {:induction false} LendersAgree(code: seq<Instruction>, ms: iset<Machine>, s: FlowState, ns: iset<Machine>, t: FlowState, b: ValueId)
    requires UniqueDefinitions(code) && AllProper(code, ms + ns) && DescribesLoans(ms, s) && DescribesLoans(ns, t)
    requires b in s.borrowSources && b in t.borrowSources
    ensures s.borrowSources[b] == t.borrowSources[b]
  {
    hide UniqueDefinitions, Proper;
    assert Recorded(s, b, s.borrowSources[b]) && Recorded(t, b, t.borrowSources[b]);
    var m :| m in ms && LoanIn(m, b, s.borrowSources[b]);
    var n :| n in ns && LoanIn(n, b, t.borrowSources[b]);
    assert m in ms + ns && n in ms + ns;
    SameLender(code, m, n, b);
  }

  lemma {:induction false} JoinLocals(code: seq<Instruction>, ms: iset<Machine>, s: FlowState, ns: iset<Machine>, t: FlowState)
    requires UniqueDefinitions(code) && AllProper(code, ms + ns) && ms != iset{} && ns != iset{}
    requires DescribesLocals(ms, s) && DescribesLocals(ns, t)
    ensures DescribesLocals(ms + ns, JoinTwo(s, t))
  {
    hide UniqueDefinitions, Proper;
    var j := JoinTwo(s, t);
    forall v ensures AllHold(ms + ns, v) <==> AllHold(ms, v) && AllHold(ns, v) {}
    forall v ensures AllComputed(ms + ns, v) <==> AllComputed(ms, v) && AllComputed(ns, v) {}
    forall v ensures SomeSpent(ms + ns, v) <==> SomeSpent(ms, v) || SomeSpent(ns, v) {
      if SomeSpent(ms, v) { var m :| m in ms && v in m.spent; assert m in ms + ns; }
      if SomeSpent(ns, v) { var n :| n in ns && v in n.spent; assert n in ms + ns; }
    }
    hide AllComputed, SomeSpent;
    forall v | v in j.live ensures s.ownership[v] == t.ownership[v] {
      assert AllHold(ms, v) && AllHold(ns, v);
      var m :| m in ms;
      var n :| n in ns;
      assert m in ms + ns && n in ms + ns;
      SameKind(code, m, n, v);
    }
  }

  lemma {:induction false} JoinExact(code: seq<Instruction>, ms: iset<Machine>, s: FlowState, ns: iset<Machine>, t: FlowState)
    requires UniqueDefinitions(code) && AllProper(code, ms + ns) && ms != iset{} && ns != iset{}
    requires Describes(ms, s) && Describes(ns, t)
    ensures Describes(ms + ns, JoinTwo(s, t))
  {
    hide UniqueDefinitions, AllProper, Describes, DescribesLocals, DescribesLoans, JoinTwo;
    TwoParts(ms, s);
    TwoParts(ns, t);
    JoinLocals(code, ms, s, ns, t);
    JoinLoans(code, ms, s, ns, t);
    TwoParts(ms + ns, JoinTwo(s, t));
  }

  // ---------- the state of a set of machines exists ----------

  /** The state that describes a set of machines. */
  ghost function Abs(code: seq<Instruction>, ms: iset<Machine>): FlowState {
    var live := set v | v in Mentioned(code) && AllHold(ms, v);
    FlowState(
      live,
      set v | v in Mentioned(code) && AllComputed(ms, v),
      set v | v in Mentioned(code) && SomeSpent(ms, v),
      map b | b in Mentioned(code) && (exists o :: SomeLoan(ms, b, o)) :: Lender(ms, b),
      map v | v in live :: KindIn(ms, v))
  }

  ghost function Lender(ms: iset<Machine>, b: ValueId): ValueId
    requires exists o :: SomeLoan(ms, b, o)
  {
    var o :| SomeLoan(ms, b, o);
    o
  }

  ghost function KindIn(ms: iset<Machine>, v: ValueId): OwnershipKind {
    if m :| m in ms && v in m.kinds then m.kinds[v] else GC
  }

  lemma {:induction false} AbsLocals(code: seq<Instruction>, ms: iset<Machine>)
    requires UniqueDefinitions(code) && AllProper(code, ms) && ms != iset{}
    ensures DescribesLocals(ms, Abs(code, ms))
  {
    hide UniqueDefinitions, Mentioned, DefinedAs, BorrowedFrom, Results, TempsApart;
    var s := Abs(code, ms);
    var some :| some in ms;
    forall v | AllHold(ms, v) || AllComputed(ms, v) || SomeSpent(ms, v) ensures v in Mentioned(code) {
      assert Proper(code, some);
      if SomeSpent(ms, v) {
        var m :| m in ms && v in m.spent;
        assert Proper(code, m);
      }
    }
    hide AllComputed, SomeSpent;
    forall m, v | m in ms && v in s.live ensures v in m.kinds && s.ownership[v] == m.kinds[v] {
      assert AllHold(ms, v);
      KindInIs(code, ms, v, m);
    }
  }

  lemma {:induction false} KindInIs(code: seq<Instruction>, ms: iset<Machine>, v: ValueId, m: Machine)
    requires UniqueDefinitions(code) && AllProper(code, ms) && m in ms && v in m.kinds
    ensures KindIn(ms, v) == m.kinds[v]
  {
    hide UniqueDefinitions, Proper;
    var n :| n in ms && v in n.kinds && KindIn(ms, v) == n.kinds[v];
    SameKind(code, m, n, v);
  }

  lemma {:induction false} AbsLoans(code: seq<Instruction>, ms: iset<Machine>)
    requires UniqueDefinitions(code) && AllProper(code, ms)
    ensures DescribesLoans(ms, Abs(code, ms))
  {
    hide UniqueDefinitions, Mentioned, DefinedAs, BorrowedFrom, Results, TempsApart;
    var s := Abs(code, ms);
    forall b, o ensures Recorded(s, b, o) <==> SomeLoan(ms, b, o) {
      if SomeLoan(ms, b, o) {
        var m :| m in ms && LoanIn(m, b, o);
        assert Proper(code, m);
        assert SomeLoan(ms, b, Lender(ms, b));
        var n :| n in ms && LoanIn(n, b, Lender(ms, b));
        SameLender(code, m, n, b);
      }
    }
  }

  lemma {:induction false} AbsDescribes(code: seq<Instruction>, ms: iset<Machine>)
    requires UniqueDefinitions(code) && AllProper(code, ms) && ms != iset{}
    ensures Describes(ms, Abs(code, ms))
  {
    hide UniqueDefinitions, AllProper, Abs, DescribesLocals, DescribesLoans, Describes;
    AbsLocals(code, ms);
    AbsLoans(code, ms);
    TwoParts(ms, Abs(code, ms));
  }

  /** A state that describes machines of the code is one the analysis of the code works with. */
  lemma {:induction false} DescribedGood(code: seq<Instruction>, ms: iset<Machine>, s: FlowState)
    requires AllProper(code, ms) && ms != iset{} && Describes(ms, s)
    ensures Good(code, s)
  {
    hide Mentioned, DefinedAs, BorrowedFrom, Results, TempsApart;
    var some :| some in ms;
    assert Proper(code, some);
    forall v | v in s.moved ensures v in Mentioned(code) {
      assert SomeSpent(ms, v);
      var m :| m in ms && v in m.spent;
      assert Proper(code, m);
    }
    forall b | b in s.borrowSources
      ensures b in Mentioned(code) && s.borrowSources[b] != 0 && BorrowedFrom(code, b, s.borrowSources[b])
    {
      assert Recorded(s, b, s.borrowSources[b]);
      var m :| m in ms && LoanIn(m, b, s.borrowSources[b]);
      assert Proper(code, m);
    }
    forall v | v in s.live ensures v in s.values && DefinedAs(code, v, s.ownership[v]) {
      assert AllHold(ms, v);
      forall m | m in ms ensures v in m.computed { assert Proper(code, m); }
      assert AllComputed(ms, v);
    }
    if TempsApart(code) {
      forall v | v in s.values && v in Results(code) ensures v in s.live {
        assert AllComputed(ms, v);
        forall m | m in ms ensures v in m.kinds { assert Proper(code, m); }
        assert AllHold(ms, v);
      }
    }
  }
}

/** The forward worklist of `verify` in src/compiler/ir.cpp: it terminates, and it accepts exactly the
    functions whose flow equations have a solution. */
module OwnershipVerify {
  import opened Wrappers
  import opened OwnershipIr

  type Flow = seq<Option<FlowState>>

  // ---------- flow equations ----------

  /** Control can pass from the block at `i` to the block at `j`. */
  predicate Edge(blocks: seq<BasicBlock>, i: nat, j: nat)
    requires i < |blocks| && j < |blocks|
  {
    blocks[j].id in blocks[i].successors
  }

  ghost predicate ListsPredecessors(blocks: seq<BasicBlock>, preds: seq<seq<nat>>) {
    && |preds| == |blocks|
    && forall j, i :: 0 <= j < |blocks| ==> (i in preds[j] <==> 0 <= i < |blocks| && Edge(blocks, i, j))
  }

  /** The outputs available from the listed predecessors. */
  function Incoming(outs: Flow, ps: seq<nat>): (r: seq<FlowState>)
    ensures forall s :: s in r ==> exists p :: p in ps && p < |outs| && outs[p] == Some(s)
    ensures forall p :: p in ps && p < |outs| && outs[p].Some? ==> outs[p].value in r
  {
    if ps == [] then []
    else (if ps[0] < |outs| && outs[ps[0]].Some? then [outs[ps[0]].value] else []) + Incoming(outs, ps[1..])
  }

  /** The input of a block: nothing for the first block, otherwise the join of what is available. */
  function InputOf(outs: Flow, preds: seq<seq<nat>>, b: nat): Option<FlowState>
    requires b < |preds|
  {
    if b == 0 then Some(EMPTY)
    else
      var incoming := Incoming(outs, preds[b]);
      if incoming == [] then None else Some(JoinAll(incoming))
  }

  /** The equation of block `b` holds. */
  ghost predicate Stable(blocks: seq<BasicBlock>, preds: seq<seq<nat>>, outs: Flow, b: nat)
    requires b < |blocks| && b < |preds| && b < |outs|
  {
    match InputOf(outs, preds, b)
    case None => outs[b].None?
    case Some(input) => outs[b].Some? && Transfer(blocks[b].instructions, input) == Ok(outs[b].value)
  }

  ghost predicate GoodFlow(code: seq<Instruction>, outs: Flow) {
    forall b :: 0 <= b < |outs| && outs[b].Some? ==> Good(code, outs[b].value)
  }

  /** An assignment of output states under which every block's equation holds. */
  ghost predicate Solution(blocks: seq<BasicBlock>, preds: seq<seq<nat>>, outs: Flow) {
    && |preds| == |outs| == |blocks|
    && GoodFlow(AllCode(blocks), outs)
    && forall b :: 0 <= b < |blocks| ==> Stable(blocks, preds, outs, b)
  }

  // ---------- joins are meets ----------

  lemma {:induction false} JoinAllMeets(code: seq<Instruction>, inputs: seq<FlowState>)
    requires UniqueDefinitions(code) && inputs != [] && forall s :: s in inputs ==> Good(code, s)
    ensures Good(code, JoinAll(inputs))
    ensures forall s :: s in inputs ==> Below(JoinAll(inputs), s)
  {
    hide UniqueDefinitions, Good;
    if |inputs| > 1 {
      var front, last := inputs[..|inputs| - 1], inputs[|inputs| - 1];
      JoinAllMeets(code, front);
      JoinGood(code, JoinAll(front), last);
      JoinBelow(JoinAll(front), last);
      assert inputs == front + [last];
    }
  }

  lemma {:induction false} JoinAllGreatest(r: FlowState, inputs: seq<FlowState>)
    requires inputs != [] && forall s :: s in inputs ==> Below(r, s)
    ensures Below(r, JoinAll(inputs))
  {
    if |inputs| > 1 {
      var front, last := inputs[..|inputs| - 1], inputs[|inputs| - 1];
      JoinAllGreatest(r, front);
      JoinGreatest(r, JoinAll(front), last);
    }
  }

  lemma {:induction false} EmptyGood(code: seq<Instruction>)
    ensures Good(code, EMPTY)
  {
  }

  lemma {:induction false} InputGood(code: seq<Instruction>, outs: Flow, preds: seq<seq<nat>>, b: nat)
    requires UniqueDefinitions(code) && GoodFlow(code, outs) && b < |preds| && InputOf(outs, preds, b).Some?
    ensures Good(code, InputOf(outs, preds, b).value)
  {
    hide UniqueDefinitions, Good;
    if b == 0 { EmptyGood(code); } else { JoinAllMeets(code, Incoming(outs, preds[b])); }
  }

  /** Every available predecessor is at or above the input. */
  lemma {:induction false} InputBelow(code: seq<Instruction>, outs: Flow, preds: seq<seq<nat>>, b: nat, p: nat)
    requires UniqueDefinitions(code) && GoodFlow(code, outs) && 0 < b < |preds|
    requires p in preds[b] && p < |outs| && outs[p].Some?
    ensures InputOf(outs, preds, b).Some? && Below(InputOf(outs, preds, b).value, outs[p].value)
  {
    hide UniqueDefinitions, Good;
    JoinAllMeets(code, Incoming(outs, preds[b]));
  }

  /** `low` is at least as defined as `high`, and at or below it. */
  ghost predicate FlowBelow(low: Flow, high: Flow) {
    && |low| == |high|
    && forall b :: 0 <= b < |high| && high[b].Some? ==> low[b].Some? && Below(low[b].value, high[b].value)
  }

  lemma {:induction false} InputFalls(code: seq<Instruction>, low: Flow, high: Flow, preds: seq<seq<nat>>, b: nat)
    requires UniqueDefinitions(code) && GoodFlow(code, low) && FlowBelow(low, high) && b < |preds|
    requires InputOf(high, preds, b).Some?
    ensures InputOf(low, preds, b).Some? && Below(InputOf(low, preds, b).value, InputOf(high, preds, b).value)
  {
    hide UniqueDefinitions, Good;
    if b != 0 {
      var inputs := Incoming(high, preds[b]);
      forall s | s in inputs
        ensures InputOf(low, preds, b).Some? && Below(InputOf(low, preds, b).value, s)
      {
        var p :| p in preds[b] && p < |high| && high[p] == Some(s);
        InputBelow(code, low, preds, b, p);
      }
      assert inputs[0] in inputs;
      JoinAllGreatest(InputOf(low, preds, b).value, inputs);
    }
  }

  // ---------- the worklist state ----------

  /** What is known of block `b`: its last input produced its output, its input has only fallen since,
      and unless it is queued its equation holds. */
  ghost predicate BlockInv(blocks: seq<BasicBlock>, preds: seq<seq<nat>>, ins: Flow, outs: Flow, work: seq<nat>, b: nat)
    requires |blocks| == |preds| == |ins| == |outs| && b < |blocks|
  {
    && (b !in work ==> Stable(blocks, preds, outs, b))
    && (outs[b].Some? ==>
          && ins[b].Some? && Good(AllCode(blocks), ins[b].value)
          && Transfer(blocks[b].instructions, ins[b].value) == Ok(outs[b].value)
          && InputOf(outs, preds, b).Some? && Below(InputOf(outs, preds, b).value, ins[b].value))
  }

  ghost predicate FlowInv(blocks: seq<BasicBlock>, preds: seq<seq<nat>>, ins: Flow, outs: Flow, work: seq<nat>) {
    && |blocks| == |preds| == |ins| == |outs|
    && GoodFlow(AllCode(blocks), outs)
    && (forall b :: b in work ==> b < |blocks|)
    && (forall b {:trigger BlockInv(blocks, preds, ins, outs, work, b)} :: 0 <= b < |blocks| ==> BlockInv(blocks, preds, ins, outs, work, b))
  }

  lemma {:induction false} BlockCode(blocks: seq<BasicBlock>, b: nat)
    requires b < |blocks|
    ensures forall ins :: ins in blocks[b].instructions ==> ins in AllCode(blocks)
    ensures UniqueDefinitions(AllCode(blocks)) ==> UniqueDefinitions(blocks[b].instructions)
  {
    var first, rest := blocks[0].instructions, AllCode(blocks[1..]);
    if b == 0 {
      forall i | 0 <= i < |first| ensures AllCode(blocks)[i] == first[i] {}
    } else {
      assert blocks[b] == blocks[1..][b - 1];
      BlockCode(blocks[1..], b - 1);
      forall i | 0 <= i < |rest| ensures AllCode(blocks)[|first| + i] == rest[i] {}
    }
  }

  /** Re-evaluating a block lowers its output, or leaves it as it is. */
  lemma {:induction false} OutputFalls(blocks: seq<BasicBlock>, preds: seq<seq<nat>>, ins: Flow, outs: Flow, work: seq<nat>, b: nat, next: FlowState)
    requires UniqueDefinitions(AllCode(blocks)) && FlowInv(blocks, preds, ins, outs, work) && b < |blocks|
    requires InputOf(outs, preds, b).Some? && Transfer(blocks[b].instructions, InputOf(outs, preds, b).value) == Ok(next)
    ensures Good(AllCode(blocks), InputOf(outs, preds, b).value) && Good(AllCode(blocks), next)
    ensures outs[b].Some? ==> Below(next, outs[b].value)
    ensures FlowBelow(outs[b := Some(next)], outs)
  {
    hide UniqueDefinitions, Good;
    var code, block := AllCode(blocks), blocks[b].instructions;
    assert BlockInv(blocks, preds, ins, outs, work, b);
    InputGood(code, outs, preds, b);
    BlockCode(blocks, b);
    TransferGood(code, block, InputOf(outs, preds, b).value);
    if outs[b].Some? {
      TransferOrdered(code, block, InputOf(outs, preds, b).value, ins[b].value);
    }
  }

  /** A block that is not a successor of `b` does not see the update of `b`. */
  lemma {:induction false} InputUnaffected(outs: Flow, preds: seq<seq<nat>>, b: nat, out: Option<FlowState>, c: nat)
    requires b < |outs| && c < |preds| && b !in preds[c]
    ensures InputOf(outs[b := out], preds, c) == InputOf(outs, preds, c)
  {
    IncomingUnaffected(outs, b, out, preds[c]);
  }

  lemma {:induction false} IncomingUnaffected(outs: Flow, b: nat, out: Option<FlowState>, ps: seq<nat>)
    requires b < |outs| && b !in ps
    ensures Incoming(outs[b := out], ps) == Incoming(outs, ps)
  {
    if ps != [] {
      IncomingUnaffected(outs, b, out, ps[1..]);
    }
  }

  ghost predicate ListsSuccessors(blocks: seq<BasicBlock>, b: nat, succs: seq<nat>)
    requires b < |blocks|
  {
    forall c: nat :: c in succs <==> c < |blocks| && Edge(blocks, b, c)
  }

  /** One round in which the output did not change. */
  lemma {:induction false} SettledKeeps(blocks: seq<BasicBlock>, preds: seq<seq<nat>>, ins: Flow, outs: Flow, rest: seq<nat>, b: nat, input: FlowState)
    requires UniqueDefinitions(AllCode(blocks)) && b < |blocks| && FlowInv(blocks, preds, ins, outs, [b] + rest)
    requires InputOf(outs, preds, b) == Some(input) && outs[b].Some? && Transfer(blocks[b].instructions, input) == Ok(outs[b].value)
    ensures FlowInv(blocks, preds, ins[b := Some(input)], outs, rest)
  {
    hide UniqueDefinitions, Good;
    InputGood(AllCode(blocks), outs, preds, b);
    var ins' := ins[b := Some(input)];
    forall x | x in rest ensures x in [b] + rest {}
    forall c | 0 <= c < |blocks|
      ensures BlockInv(blocks, preds, ins', outs, rest, c)
    {
      assert BlockInv(blocks, preds, ins, outs, [b] + rest, c);
      assert c in [b] + rest <==> c == b || c in rest;
    }
  }

  /** One round that changed the output and queued the successors. */
  lemma {:induction false} UpdateKeeps(blocks: seq<BasicBlock>, preds: seq<seq<nat>>, ins: Flow, outs: Flow, rest: seq<nat>, b: nat, input: FlowState, next: FlowState, succs: seq<nat>)
    requires UniqueDefinitions(AllCode(blocks)) && b < |blocks| && FlowInv(blocks, preds, ins, outs, [b] + rest)
    requires ListsPredecessors(blocks, preds) && ListsSuccessors(blocks, b, succs)
    requires InputOf(outs, preds, b) == Some(input) && Transfer(blocks[b].instructions, input) == Ok(next)
    ensures FlowInv(blocks, preds, ins[b := Some(input)], outs[b := Some(next)], rest + succs)
  {
    hide UniqueDefinitions, Good;
    OutputFalls(blocks, preds, ins, outs, [b] + rest, b, next);
    var ins', outs', work' := ins[b := Some(input)], outs[b := Some(next)], rest + succs;
    forall x | x in rest ensures x in [b] + rest {}
    forall c | 0 <= c < |blocks|
      ensures BlockInv(blocks, preds, ins', outs', work', c)
    {
      UpdateKeepsBlock(blocks, preds, ins, outs, rest, b, input, next, succs, c);
    }
  }

  lemma {:induction false} UpdateKeepsBlock(blocks: seq<BasicBlock>, preds: seq<seq<nat>>, ins: Flow, outs: Flow, rest: seq<nat>, b: nat, input: FlowState, next: FlowState, succs: seq<nat>, c: nat)
    requires UniqueDefinitions(AllCode(blocks)) && b < |blocks| && FlowInv(blocks, preds, ins, outs, [b] + rest) && c < |blocks|
    requires ListsPredecessors(blocks, preds) && ListsSuccessors(blocks, b, succs)
    requires InputOf(outs, preds, b) == Some(input) && Transfer(blocks[b].instructions, input) == Ok(next)
    ensures BlockInv(blocks, preds, ins[b := Some(input)], outs[b := Some(next)], rest + succs, c)
  {
    hide UniqueDefinitions, Good;
    var outs' := outs[b := Some(next)];
    OutputFalls(blocks, preds, ins, outs, [b] + rest, b, next);
    assert BlockInv(blocks, preds, ins, outs, [b] + rest, c);
    if InputOf(outs, preds, c).Some? {
      InputFalls(AllCode(blocks), outs', outs, preds, c);
    }
    if c !in rest + succs {
      assert c !in succs && b !in preds[c];
      InputUnaffected(outs, preds, b, Some(next), c);
      assert c != b ==> c !in [b] + rest;
    }
  }

  // ---------- termination ----------

  ghost function Weight(code: seq<Instruction>, out: Option<FlowState>): nat {
    var ids := Mentioned(code);
    match out
    case None => 4 * |ids| + 1
    case Some(s) => |s.live| + |s.values| + |ids - s.moved| + |ids - s.borrowSources.Keys|
  }

  ghost function TotalWeight(code: seq<Instruction>, outs: Flow): nat {
    if outs == [] then 0 else Weight(code, outs[0]) + TotalWeight(code, outs[1..])
  }

  lemma {:induction false} SmallerSet(a: set<ValueId>, b: set<ValueId>)
    requires a <= b
    ensures |a| <= |b| && (a != b ==> |a| < |b|)
  {
    assert b == a + (b - a);
    if a != b {
      var x :| x in b - a;
      assert b - a == {x} + (b - a - {x});
    }
  }

  lemma {:induction false} WeightFalls(code: seq<Instruction>, next: FlowState, out: Option<FlowState>)
    requires UniqueDefinitions(code) && Good(code, next) && out != Some(next)
    requires out.Some? ==> Good(code, out.value) && Below(next, out.value)
    ensures Weight(code, Some(next)) < Weight(code, out)
  {
    hide UniqueDefinitions, DefinedAs, BorrowedFrom, Results, TempsApart;
    var ids := Mentioned(code);
    if out.None? {
      SmallerSet(next.live, ids);
      SmallerSet(next.values, ids);
      SmallerSet(ids - next.moved, ids);
      SmallerSet(ids - next.borrowSources.Keys, ids);
    } else {
      var s := out.value;
      SmallerSet(next.live, s.live);
      SmallerSet(next.values, s.values);
      SmallerSet(ids - next.moved, ids - s.moved);
      SmallerSet(ids - next.borrowSources.Keys, ids - s.borrowSources.Keys);
      if next.live == s.live && next.values == s.values && ids - next.moved == ids - s.moved
         && ids - next.borrowSources.Keys == ids - s.borrowSources.Keys {
        SameComplement(ids, next.moved, s.moved);
        SameComplement(ids, next.borrowSources.Keys, s.borrowSources.Keys);
        BelowBoth(code, next, s);
      }
    }
  }

  lemma {:induction false} SameComplement(ids: set<ValueId>, a: set<ValueId>, b: set<ValueId>)
    requires a <= ids && b <= ids && ids - a == ids - b
    ensures a == b
  {
    assert a == ids - (ids - a);
  }

  lemma {:induction false} TotalFalls(code: seq<Instruction>, outs: Flow, b: nat, out: Option<FlowState>)
    requires b < |outs| && Weight(code, out) < Weight(code, outs[b])
    ensures TotalWeight(code, outs[b := out]) < TotalWeight(code, outs)
    decreases |outs|
  {
    var changed := outs[b := out];
    if b > 0 {
      assert changed[1..] == outs[1..][b - 1 := out];
      TotalFalls(code, outs[1..], b - 1, out);
    } else {
      assert changed[1..] == outs[1..];
    }
  }

  // ---------- a block never sees its own definitions ----------

  lemma {:induction false} ResultsOf(code: seq<Instruction>, ins: Instruction)
    requires ins in code && Defines(ins)
    ensures ins.result in Results(code)
  {
    var i :| 0 <= i < |code| && code[i] == ins;
  }

  /** The position in the whole code of an instruction of block `b`. */
  lemma {:induction false} CodePosition(blocks: seq<BasicBlock>, b: nat, i: nat) returns (k: nat)
    requires b < |blocks| && i < |blocks[b].instructions|
    ensures k < |AllCode(blocks)| && AllCode(blocks)[k] == blocks[b].instructions[i]
    ensures |AllCode(blocks[..b])| <= k < |AllCode(blocks[..b + 1])|
    decreases |blocks|
  {
    if b == 0 {
      k := i;
      assert blocks[..0] == [];
      assert blocks[..1][0] == blocks[0] && blocks[..1][1..] == [];
    } else {
      var rest := blocks[1..];
      var m := CodePosition(rest, b - 1, i);
      k := |blocks[0].instructions| + m;
      assert blocks[..b][1..] == rest[..b - 1] && blocks[..b + 1][1..] == rest[..b];
    }
  }

  lemma {:induction false} CodeGrows(blocks: seq<BasicBlock>, b: nat, c: nat)
    requires b <= c <= |blocks|
    ensures |AllCode(blocks[..b])| <= |AllCode(blocks[..c])|
    decreases |blocks|
  {
    if b > 0 {
      assert blocks[..b][1..] == blocks[1..][..b - 1] && blocks[..c][1..] == blocks[1..][..c - 1];
      CodeGrows(blocks[1..], b - 1, c - 1);
    }
  }

  lemma {:induction false} ResultsApart(blocks: seq<BasicBlock>, b: nat, c: nat)
    requires UniqueDefinitions(AllCode(blocks)) && b < c < |blocks|
    ensures Results(blocks[b].instructions) !! Results(blocks[c].instructions)
  {
    forall v | v in Results(blocks[b].instructions) && v in Results(blocks[c].instructions)
      ensures false
    {
      var i :| 0 <= i < |blocks[b].instructions| && Defines(blocks[b].instructions[i]) && blocks[b].instructions[i].result == v;
      var j :| 0 <= j < |blocks[c].instructions| && Defines(blocks[c].instructions[j]) && blocks[c].instructions[j].result == v;
      var k := CodePosition(blocks, b, i);
      var m := CodePosition(blocks, c, j);
      CodeGrows(blocks, b + 1, c);
    }
  }

  /** `v` is defined by a block that has an output. */
  ghost predicate Born(blocks: seq<BasicBlock>, outs: Flow, v: ValueId)
    requires |outs| == |blocks|
  {
    exists c :: 0 <= c < |blocks| && outs[c].Some? && v in Results(blocks[c].instructions)
  }

  /** Some available predecessor of `b` holds none of the locals `b` defines. */
  ghost predicate EnteredFresh(blocks: seq<BasicBlock>, preds: seq<seq<nat>>, outs: Flow, b: nat)
    requires |outs| == |blocks| == |preds| && b < |blocks|
  {
    exists p :: p in preds[b] && p < |outs| && outs[p].Some? && outs[p].value.live !! Results(blocks[b].instructions)
  }

  ghost predicate FreshInv(blocks: seq<BasicBlock>, preds: seq<seq<nat>>, outs: Flow) {
    && |outs| == |blocks| == |preds|
    && (forall b, v :: 0 <= b < |blocks| && outs[b].Some? && v in outs[b].value.live ==> Born(blocks, outs, v))
    && (forall b {:trigger EnteredFresh(blocks, preds, outs, b)} :: 0 < b < |blocks| && outs[b].Some? ==> EnteredFresh(blocks, preds, outs, b))
  }

  lemma {:induction false} UnbornFresh(blocks: seq<BasicBlock>, preds: seq<seq<nat>>, outs: Flow, b: nat, p: nat)
    requires UniqueDefinitions(AllCode(blocks)) && FreshInv(blocks, preds, outs)
    requires b < |blocks| && outs[b].None? && p < |blocks| && outs[p].Some?
    ensures outs[p].value.live !! Results(blocks[b].instructions)
  {
    hide UniqueDefinitions;
    forall v | v in outs[p].value.live && v in Results(blocks[b].instructions)
      ensures false
    {
      assert Born(blocks, outs, v);
      var c :| 0 <= c < |blocks| && outs[c].Some? && v in Results(blocks[c].instructions);
      if b < c { ResultsApart(blocks, b, c); } else { ResultsApart(blocks, c, b); }
    }
  }

  /** The input of a block holds none of the locals the block defines: the redefinition checks of
      `transfer` can only fire inside one block, where unique ids already exclude them. */
  lemma {:induction false} InputFresh(blocks: seq<BasicBlock>, preds: seq<seq<nat>>, outs: Flow, b: nat)
    requires UniqueDefinitions(AllCode(blocks)) && FreshInv(blocks, preds, outs) && GoodFlow(AllCode(blocks), outs)
    requires b < |blocks| && InputOf(outs, preds, b).Some?
    ensures InputOf(outs, preds, b).value.live !! Results(blocks[b].instructions)
    ensures b > 0 ==> EnteredFresh(blocks, preds, outs, b)
    ensures forall v :: v in InputOf(outs, preds, b).value.live ==> Born(blocks, outs, v)
  {
    hide UniqueDefinitions, GoodFlow;
    if b > 0 {
      var inputs := Incoming(outs, preds[b]);
      assert inputs[0] in inputs;
      var p :| p in preds[b] && p < |outs| && outs[p] == Some(inputs[0]);
      if outs[b].None? { UnbornFresh(blocks, preds, outs, b, p); }
      assert EnteredFresh(blocks, preds, outs, b);
      var q :| q in preds[b] && q < |outs| && outs[q].Some? && outs[q].value.live !! Results(blocks[b].instructions);
      InputBelow(AllCode(blocks), outs, preds, b, q);
    }
  }

  lemma {:induction false} UpdateFresh(blocks: seq<BasicBlock>, preds: seq<seq<nat>>, outs: Flow, b: nat, input: FlowState, next: FlowState)
    requires UniqueDefinitions(AllCode(blocks)) && FreshInv(blocks, preds, outs) && GoodFlow(AllCode(blocks), outs) && b < |blocks|
    requires InputOf(outs, preds, b) == Some(input) && Transfer(blocks[b].instructions, input) == Ok(next)
    requires FlowBelow(outs[b := Some(next)], outs)
    ensures FreshInv(blocks, preds, outs[b := Some(next)])
  {
    hide UniqueDefinitions, GoodFlow;
    var outs' := outs[b := Some(next)];
    InputFresh(blocks, preds, outs, b);
    TransferLive(blocks[b].instructions, input);
    forall v | Born(blocks, outs, v) || v in Results(blocks[b].instructions)
      ensures Born(blocks, outs', v)
    {
      if v !in Results(blocks[b].instructions) {
        var c :| 0 <= c < |blocks| && outs[c].Some? && v in Results(blocks[c].instructions);
        assert outs'[c].Some?;
      } else {
        assert outs'[b].Some?;
      }
    }
    forall c | 0 < c < |blocks| && outs'[c].Some?
      ensures EnteredFresh(blocks, preds, outs', c)
    {
      assert EnteredFresh(blocks, preds, outs, c);
      var p :| p in preds[c] && p < |outs| && outs[p].Some? && outs[p].value.live !! Results(blocks[c].instructions);
      assert outs'[p].Some? && outs'[p].value.live <= outs[p].value.live;
    }
  }

  // ---------- the iterates stay above every solution ----------

  lemma {:induction false} SolutionAccepts(blocks: seq<BasicBlock>, preds: seq<seq<nat>>, outs: Flow, sol: Flow, b: nat, input: FlowState)
    requires UniqueDefinitions(AllCode(blocks)) && TempsApart(AllCode(blocks))
    requires Solution(blocks, preds, sol) && FlowBelow(sol, outs) && FreshInv(blocks, preds, outs) && GoodFlow(AllCode(blocks), outs)
    requires b < |blocks| && InputOf(outs, preds, b) == Some(input)
    ensures Transfer(blocks[b].instructions, input).Ok?
    ensures FlowBelow(sol, outs[b := Some(Transfer(blocks[b].instructions, input).state)])
  {
    hide UniqueDefinitions, TempsApart, Good;
    var code, block := AllCode(blocks), blocks[b].instructions;
    InputFalls(code, sol, outs, preds, b);
    InputGood(code, outs, preds, b);
    InputGood(code, sol, preds, b);
    InputFresh(blocks, preds, outs, b);
    BlockCode(blocks, b);
    assert Stable(blocks, preds, sol, b);
    TransferAccepts(code, block, InputOf(sol, preds, b).value, input);
    TransferOrdered(code, block, InputOf(sol, preds, b).value, input);
  }

  // ---------- the algorithm ----------

  /** The worklist of `verify` for one function. */
  method AnalyzeFlow(blocks: seq<BasicBlock>, preds: seq<seq<nat>>, succs: seq<seq<nat>>) returns (ok: bool, out: Flow)
    requires |blocks| > 0 && UniqueDefinitions(AllCode(blocks)) && ListsPredecessors(blocks, preds)
    requires |succs| == |blocks| && forall b :: 0 <= b < |blocks| ==> ListsSuccessors(blocks, b, succs[b])
    ensures ok ==> Solution(blocks, preds, out)
    ensures !ok && TempsApart(AllCode(blocks)) ==> forall sol :: !Solution(blocks, preds, sol)
  {
    hide UniqueDefinitions, TempsApart, Good, FlowInv, FreshInv, GoodFlow, Solution, ListsSuccessors;
    var inn: Flow := seq(|blocks|, _ => None);
    out := seq(|blocks|, _ => None);
    var work: seq<nat> := [0];
    ghost var code := AllCode(blocks);
    StartState(blocks, preds, inn, out);
    while |work| > 0
      invariant FlowInv(blocks, preds, inn, out, work) && FreshInv(blocks, preds, out)
      invariant |inn| == |out| == |blocks|
      invariant TempsApart(code) ==> forall sol :: Solution(blocks, preds, sol) ==> FlowBelow(sol, out)
      decreases TotalWeight(code, out), |work|
    {
      var bi, rest := work[0], work[1..];
      assert work == [bi] + rest && bi in work;
      FlowFacts(blocks, preds, inn, out, work);
      var input := EMPTY;
      if bi != 0 {
        var incoming := Incoming(out, preds[bi]);
        if incoming == [] {
          NothingArrives(blocks, preds, inn, out, rest, bi);
          work := rest;
          continue;
        }
        input := JoinStates(incoming);
      }
      var next := RunTransfer(blocks[bi].instructions, input);
      if TempsApart(code) {
        forall sol | Solution(blocks, preds, sol)
          ensures next.Ok? && FlowBelow(sol, out[bi := Some(next.state)])
        {
          SolutionAccepts(blocks, preds, out, sol, bi, input);
        }
      }
      if next.Rejected? { return false, out; }
      if out[bi] == Some(next.state) {
        SettledKeeps(blocks, preds, inn, out, rest, bi, input);
        inn := inn[bi := Some(input)];
        work := rest;
      } else {
        OutputFalls(blocks, preds, inn, out, work, bi, next.state);
        WeightFalls(code, next.state, out[bi]);
        TotalFalls(code, out, bi, Some(next.state));
        UpdateKeeps(blocks, preds, inn, out, rest, bi, input, next.state, succs[bi]);
        UpdateFresh(blocks, preds, out, bi, input, next.state);
        inn := inn[bi := Some(input)];
        out := out[bi := Some(next.state)];
        work := rest + succs[bi];
      }
    }
    ok := true;
    EndState(blocks, preds, inn, out, work);
  }

  lemma {:induction false} NothingIncoming(outs: Flow, ps: seq<nat>)
    requires forall b :: 0 <= b < |outs| ==> outs[b].None?
    ensures Incoming(outs, ps) == []
  {
    if ps != [] { NothingIncoming(outs, ps[1..]); }
  }

  lemma {:induction false} StartState(blocks: seq<BasicBlock>, preds: seq<seq<nat>>, ins: Flow, outs: Flow)
    requires |blocks| > 0 && |preds| == |ins| == |outs| == |blocks| && forall b :: 0 <= b < |blocks| ==> outs[b].None?
    ensures FlowInv(blocks, preds, ins, outs, [0]) && FreshInv(blocks, preds, outs)
    ensures forall sol :: Solution(blocks, preds, sol) ==> FlowBelow(sol, outs)
  {
    forall b | 0 <= b < |blocks|
      ensures BlockInv(blocks, preds, ins, outs, [0], b)
    {
      NothingIncoming(outs, preds[b]);
    }
  }

  lemma {:induction false} FlowFacts(blocks: seq<BasicBlock>, preds: seq<seq<nat>>, ins: Flow, outs: Flow, work: seq<nat>)
    requires FlowInv(blocks, preds, ins, outs, work)
    ensures GoodFlow(AllCode(blocks), outs) && |preds| == |blocks| && forall b :: b in work ==> b < |blocks|
    ensures forall b :: 0 <= b < |outs| && outs[b].Some? ==> Good(AllCode(blocks), outs[b].value)
  {
  }

  lemma {:induction false} NothingArrives(blocks: seq<BasicBlock>, preds: seq<seq<nat>>, ins: Flow, outs: Flow, rest: seq<nat>, b: nat)
    requires 0 < b < |blocks| && FlowInv(blocks, preds, ins, outs, [b] + rest) && Incoming(outs, preds[b]) == []
    ensures FlowInv(blocks, preds, ins, outs, rest)
  {
    forall x | x in rest ensures x in [b] + rest {}
    forall c | 0 <= c < |blocks|
      ensures BlockInv(blocks, preds, ins, outs, rest, c)
    {
      assert BlockInv(blocks, preds, ins, outs, [b] + rest, c);
      assert c in [b] + rest <==> c == b || c in rest;
    }
  }

  lemma {:induction false} EndState(blocks: seq<BasicBlock>, preds: seq<seq<nat>>, ins: Flow, outs: Flow, work: seq<nat>)
    requires FlowInv(blocks, preds, ins, outs, work) && |work| == 0
    ensures Solution(blocks, preds, outs)
  {
    forall b | 0 <= b < |blocks|
      ensures Stable(blocks, preds, outs, b)
    {
      assert BlockInv(blocks, preds, ins, outs, work, b);
    }
  }
}

/** The pass that deletes unread results and stores to locals nobody reads (src/mir/opt_dead.cpp): round after round, because
    deleting one instruction can leave another unread. Every round, and so the whole pass, keeps all runs of the function. */
module MirDeadValues {
  import opened Wrappers
  import opened MirEffects
  import opened MirExecution
  import opened MirDeletion
  import opened MirDeadRounds

  /** At most this many rounds. */
  const ROUNDS: nat := 64

  // ---------- the checks survive deletion ----------

  ghost function Without(have: Have, dead: Scrap): Have {
    Have((set id | id in have.values && !Dead(dead, id)), have.slots - dead.slots)
  }

  lemma {:induction false} FreeUses(os: seq<Operand>, have: Have, less: Have, dead: Scrap)
    requires UsesIn(os, have.values) && Free(os, dead) && Within(Without(have, dead), less)
    ensures UsesIn(os, less.values)
  {
    forall k | 0 <= k < |os| && os[k].Use? ensures os[k].id in less.values {
      assert os[k].id in Without(have, dead).values;
    }
  }

  ghost function Fewer(avail: Available, dead: Scrap): (r: Available)
    ensures |r| == |avail|
  {
    seq(|avail|, b requires 0 <= b < |avail| => Without(avail[b], dead))
  }

  lemma {:induction false} HandlersStayReady(p: Program, avail: Available, hs: seq<Handler>, have: Have, less: Have, dead: Scrap)
    requires |avail| == |p| && HandlersReady(p, avail, hs, have) && Within(Without(have, dead), less)
    ensures HandlersReady(Drop(p, dead), Fewer(avail, dead), hs, less)
  {
    hide DropBlock;
    forall h | h in hs && h.block < |p| ensures Within(Without(avail[h.block], dead), less.(slots := less.slots + {h.slot})) {
      var all := have.(slots := have.slots + {h.slot});
      assert Within(avail[h.block], all);
      WithoutLess(avail[h.block], all, dead);
    }
  }

  lemma {:induction false} WithoutLess(a: Have, b: Have, dead: Scrap)
    requires Within(a, b)
    ensures Within(Without(a, dead), Without(b, dead))
  {
  }

  lemma {:induction false} WithoutResult(have: Have, less: Have, ins: Instr, dead: Scrap)
    requires Within(Without(have, dead), less)
    ensures Within(Without(AddResult(have, ins), dead), AddResult(less, ins))
    ensures Dropped(dead, ins) ==> Within(Without(AddResult(have, ins), dead), less)
  {
    hide Removable, SlotSet;
    if Dropped(dead, ins) { DroppedSets(dead, ins); }
  }

  lemma {:induction false} DroppedSets(dead: Scrap, ins: Instr)
    requires Dropped(dead, ins)
    ensures SlotSet(ins.op) <= dead.slots
  {
    hide Removable;
    if DeadResult(dead, ins) { RemovableShape(ins); }
  }

  lemma {:induction false} InstrStaysReady(p: Program, avail: Available, hs: seq<Handler>, ins: Instr, have: Have, less: Have, dead: Scrap)
    requires |avail| == |p| && InstrReady(p, avail, hs, ins, have) && InstrFree(ins, dead) && Within(Without(have, dead), less)
    ensures InstrReady(Drop(p, dead), Fewer(avail, dead), hs, ins, less)
  {
    hide UsesIn, Free, HandlersReady, MayRaise, Drop, Fewer;
    FreeUses(ins.operands, have, less, dead);
    if ins.op.Load? {
      assert ReadsSlot(ins.op, ins.op.slot);
      assert ins.op.slot in Without(have, dead).slots;
    }
    if MayRaise(ins.op) { HandlersStayReady(p, avail, hs, have, less, dead); }
  }

  lemma {:induction false} KeepReady(p: Program, avail: Available, hs: seq<Handler>, instrs: seq<Instr>, have: Have, less: Have, dead: Scrap)
    requires |avail| == |p| && InstrsReady(p, avail, hs, instrs, have) && InstrsFree(instrs, dead) && Within(Without(have, dead), less)
    ensures InstrsReady(Drop(p, dead), Fewer(avail, dead), hs, Keep(instrs, dead), less)
    ensures Within(Without(After(instrs, have), dead), After(Keep(instrs, dead), less))
    decreases |instrs|
  {
    hide InstrReady, InstrFree, Dropped, Drop, Fewer, AddResult, Without, Within;
    if instrs != [] {
      var ins, rest := instrs[0], instrs[1..];
      RestFree(instrs, dead);
      WithoutResult(have, less, ins, dead);
      if Dropped(dead, ins) {
        KeepReady(p, avail, hs, rest, AddResult(have, ins), less, dead);
        assert Keep(instrs, dead) == Keep(rest, dead);
      } else {
        InstrStaysReady(p, avail, hs, ins, have, less, dead);
        KeepReady(p, avail, hs, rest, AddResult(have, ins), AddResult(less, ins), dead);
        var kept := Keep(instrs, dead);
        assert kept == [ins] + Keep(rest, dead) && kept[0] == ins && kept[1..] == Keep(rest, dead);
      }
    }
  }

  lemma {:induction false} WithoutParams(have: Have, less: Have, b: Block, dead: Scrap)
    requires Within(Without(have, dead), less)
    ensures Within(Without(have.(values := have.values + Params(b)), dead), less.(values := less.values + Params(b)))
  {
    hide Params;
  }

  lemma {:induction false} TermStaysReady(p: Program, avail: Available, b: nat, have: Have, less: Have, dead: Scrap)
    requires |avail| == |p| && b < |p| && TermReady(p, avail, p[b], have) && Free(TermOperands(p[b].term), dead)
    requires Within(Without(have, dead), less)
    ensures TermReady(Drop(p, dead), Fewer(avail, dead), Drop(p, dead)[b], less)
  {
    hide UsesIn, Free, IsEdge, Without, HandlersReady, Keep, Params;
    var t := p[b].term;
    FreeUses(TermOperands(t), have, less, dead);
    forall e | IsEdge(t, e) && e.block < |p|
      ensures Within(Without(avail[e.block], dead), less.(values := less.values + Params(Drop(p, dead)[e.block])))
    {
      WithoutLess(avail[e.block], have.(values := have.values + Params(p[e.block])), dead);
      WithoutParams(have, less, p[e.block], dead);
      SameParams(p[e.block], dead);
    }
    if t.Throw? { HandlersStayReady(p, avail, p[b].handlers, have, less, dead); }
  }

  lemma {:induction false} SameParams(b: Block, dead: Scrap)
    ensures Params(DropBlock(b, dead)) == Params(b)
  {
  }

  lemma {:induction false} BlockStaysReady(p: Program, avail: Available, b: nat, dead: Scrap)
    requires |avail| == |p| && b < |p| && Unused(p, dead) && Ready(p, avail, p[b], p[b].instrs, avail[b])
    ensures Ready(Drop(p, dead), Fewer(avail, dead), Drop(p, dead)[b], Drop(p, dead)[b].instrs, Fewer(avail, dead)[b])
  {
    hide Keep, TermReady, InstrsReady, Without, After, InstrsFree, Free;
    var less := Without(avail[b], dead);
    KeepReady(p, avail, p[b].handlers, p[b].instrs, avail[b], less, dead);
    TermStaysReady(p, avail, b, After(p[b].instrs, avail[b]), After(Keep(p[b].instrs, dead), less), dead);
  }

  lemma {:induction false} BlockStaysTyped(ty: Typing, p: Program, b: nat, dead: Scrap)
    requires b < |p| && BlockTyped(ty, p, p[b])
    ensures BlockTyped(ty, Drop(p, dead), Drop(p, dead)[b])
  {
    hide Dropped, InstrTyped, IsEdge, SubType;
    var q := Drop(p, dead);
    forall i | 0 <= i < |q[b].instrs| ensures InstrTyped(ty, q[b].instrs[i]) {
      assert q[b].instrs[i] in Keep(p[b].instrs, dead);
      var j :| 0 <= j < |p[b].instrs| && p[b].instrs[j] == q[b].instrs[i];
    }
    forall e | IsEdge(q[b].term, e) ensures EdgeTyped(ty, q, e) { EdgeStaysTyped(ty, p, e, dead); }
  }

  lemma {:induction false} EdgeStaysTyped(ty: Typing, p: Program, e: Edge, dead: Scrap)
    requires EdgeTyped(ty, p, e)
    ensures EdgeTyped(ty, Drop(p, dead), e)
  {
    hide OperandsTyped, SubType, Keep;
  }

  /** A function that passes the checks still passes them after deletion. */
  lemma {:induction false} StaysChecked(ty: Typing, p: Program, avail: Available, dead: Scrap)
    requires Checked(ty, p, avail) && Unused(p, dead)
    ensures Checked(ty, Drop(p, dead), Fewer(avail, dead))
  {
    hide BlockTyped, Ready, Unused, Without, DropBlock;
    forall b | 0 <= b < |p|
      ensures BlockTyped(ty, Drop(p, dead), Drop(p, dead)[b])
      ensures Ready(Drop(p, dead), Fewer(avail, dead), Drop(p, dead)[b], Drop(p, dead)[b].instrs, Fewer(avail, dead)[b])
    {
      BlockStaysTyped(ty, p, b, dead);
      BlockStaysReady(p, avail, b, dead);
    }
  }

  lemma {:induction false} StaysStartable(ty: Typing, p: Program, avail: Available, dead: Scrap, st: State)
    requires StartOk(ty, p, avail, st)
    ensures StartOk(ty, Drop(p, dead), Fewer(avail, dead), st)
  {
    hide Drop, TypesHold;
  }

  // ---------- which temporaries are read ----------

  lemma {:induction false} InstrsFreeAll(instrs: seq<Instr>, dead: Scrap)
    requires Free(InstrOperands(instrs), dead)
    requires forall i, slot :: 0 <= i < |instrs| && slot in dead.slots ==> !ReadsSlot(instrs[i].op, slot)
    ensures InstrsFree(instrs, dead)
  {
    hide Free, ReadsSlot;
    if instrs != [] {
      FreePart(instrs[0].operands, InstrOperands(instrs[1..]), dead);
      InstrsFreeAll(instrs[1..], dead);
    }
  }

  lemma {:induction false} NotReadIsUnused(p: Program, dead: Scrap)
    requires (forall t :: t in dead.temps ==> !Read(p, t)) && (forall slot :: slot in dead.slots ==> !SlotIsRead(p, slot))
    ensures Unused(p, dead)
  {
    hide TermOperands, ReadsSlot;
    forall b | 0 <= b < |p| ensures InstrsFree(p[b].instrs, dead) && Free(TermOperands(p[b].term), dead) {
      var os := BlockOperands(p[b]);
      forall k | 0 <= k < |os| && os[k].Use? && os[k].id.Temp? ensures os[k].id.index !in dead.temps {
        assert ReadsTemp(os[k], os[k].id.index) && ReadIn(os, os[k].id.index);
      }
      assert Free(os, dead);
      FreePart(InstrOperands(p[b].instrs), TermOperands(p[b].term), dead);
      InstrsFreeAll(p[b].instrs, dead);
    }
  }

  method UsedIn(os: seq<Operand>) returns (used: set<nat>)
    ensures forall t :: t in used <==> ReadIn(os, t)
  {
    used := {};
    for k := 0 to |os|
      invariant forall t :: t in used <==> exists i :: 0 <= i < k && ReadsTemp(os[i], t)
    {
      if os[k].Use? && os[k].id.Temp? { used := used + {os[k].id.index}; }
    }
  }

  method UsedTemps(p: Program) returns (used: set<nat>)
    ensures forall t :: t in used <==> Read(p, t)
  {
    hide ReadIn, BlockOperands;
    used := {};
    for b := 0 to |p|
      invariant forall t :: t in used <==> exists i :: 0 <= i < b && ReadIn(BlockOperands(p[i]), t)
    {
      var more := UsedIn(BlockOperands(p[b]));
      used := used + more;
    }
  }

  method SlotsRead(p: Program) returns (read: set<string>)
    ensures forall slot :: slot in read <==> SlotIsRead(p, slot)
  {
    hide ReadsSlot;
    read := {};
    for b := 0 to |p|
      invariant forall slot :: slot in read <==> exists j, i :: 0 <= j < b && 0 <= i < |p[j].instrs| && ReadsSlot(p[j].instrs[i].op, slot)
    {
      var more := SlotsReadIn(p[b].instrs);
      read := read + more;
    }
  }

  method SlotsReadIn(instrs: seq<Instr>) returns (read: set<string>)
    ensures forall slot :: slot in read <==> exists i :: 0 <= i < |instrs| && ReadsSlot(instrs[i].op, slot)
  {
    read := {};
    for k := 0 to |instrs|
      invariant forall slot :: slot in read <==> exists i :: 0 <= i < k && ReadsSlot(instrs[i].op, slot)
    {
      var slot := SlotRead(instrs[k].op);
      if slot.Some? { read := read + {slot.value}; }
    }
  }

  // ---------- what may go ----------

  predicate UnreadStore(ins: Instr, read: set<string>, captures: set<string>, slots: map<string, Slot>) {
    ins.op.Store? && ins.op.slot !in read && StoreRemovable(captures, slots, ins.op.slot)
  }

  predicate UnreadValue(ins: Instr, used: set<nat>) {
    ins.result.Some? && ins.result.value !in used && Removable(ins)
  }

  /** The test picks exactly what `dead` stands for. */
  ghost predicate Picks(p: Program, test: Instr -> bool, dead: Scrap) {
    forall b, i :: 0 <= b < |p| && 0 <= i < |p[b].instrs| ==> (test(p[b].instrs[i]) <==> Dropped(dead, p[b].instrs[i]))
  }

  lemma {:induction false} ValuesPicked(p: Program, used: set<nat>)
    requires forall t :: t in used <==> Read(p, t)
    ensures Picks(p, ins => UnreadValue(ins, used), Scrap(Unread(p), {}))
  {
    hide Removable, Read;
  }

  lemma {:induction false} StoresPicked(ty: Typing, p: Program, avail: Available, read: set<string>, captures: set<string>, slots: map<string, Slot>)
    requires Checked(ty, p, avail) && forall slot :: slot in read <==> SlotIsRead(p, slot)
    ensures Picks(p, ins => UnreadStore(ins, read, captures, slots), Scrap({}, UnreadSlots(p, captures, slots)))
  {
    hide Checked, SlotIsRead, StoreRemovable, Removable;
    StoresArePlain(ty, p, avail);
    forall b, i | 0 <= b < |p| && 0 <= i < |p[b].instrs| && p[b].instrs[i].op.Store? ensures p[b].instrs[i].result.None? {
      assert In(p, p[b].instrs[i]);
    }
  }

  lemma {:induction false} StoresArePlain(ty: Typing, p: Program, avail: Available)
    requires Checked(ty, p, avail)
    ensures StoresPlain(p)
  {
    hide Ready, IsEdge, EdgeTyped, SubType, OperandsTyped;
    forall ins | In(p, ins) && ins.op.Store? ensures ins.result.None? {
      var b :| 0 <= b < |p| && ins in p[b].instrs;
      var i :| 0 <= i < |p[b].instrs| && p[b].instrs[i] == ins;
      assert BlockTyped(ty, p, p[b]) && InstrTyped(ty, p[b].instrs[i]);
    }
  }

  /** `remove_if` on one block. */
  method RemoveIf(instrs: seq<Instr>, test: Instr -> bool, ghost dead: Scrap) returns (kept: seq<Instr>, progress: bool)
    requires forall i :: 0 <= i < |instrs| ==> (test(instrs[i]) <==> Dropped(dead, instrs[i]))
    ensures kept == Keep(instrs, dead)
    ensures if progress then |kept| < |instrs| else kept == instrs
    ensures !progress <==> NoneDropped(instrs, dead)
  {
    hide Dropped, Keep;
    kept, progress := [], false;
    assert instrs[0..] == instrs;
    for i := 0 to |instrs|
      invariant kept + Keep(instrs[i..], dead) == Keep(instrs, dead)
      invariant |kept| <= i && (progress <==> |kept| < i)
    {
      KeepNext(instrs, i, dead, kept);
      if test(instrs[i]) {
        progress := true;
      } else {
        kept := kept + [instrs[i]];
      }
    }
    assert instrs[|instrs|..] == [];
    KeepNothing(dead);
    assert kept + [] == kept;
    KeepShorter(instrs, dead);
  }

  lemma {:induction false} KeepNothing(dead: Scrap)
    ensures Keep([], dead) == []
  {
  }

  lemma {:induction false} KeepNext(instrs: seq<Instr>, i: nat, dead: Scrap, kept: seq<Instr>)
    requires i < |instrs|
    ensures kept + Keep(instrs[i..], dead)
         == (if Dropped(dead, instrs[i]) then kept else kept + [instrs[i]]) + Keep(instrs[i + 1..], dead)
  {
    hide Dropped;
    assert instrs[i..][0] == instrs[i] && instrs[i..][1..] == instrs[i + 1..];
    var rest := Keep(instrs[i + 1..], dead);
    if Dropped(dead, instrs[i]) { assert [] + rest == rest; } else { assert kept + ([instrs[i]] + rest) == kept + [instrs[i]] + rest; }
  }

  lemma {:induction false} UnreadNotUsed(p: Program)
    ensures Unused(p, Scrap(Unread(p), {}))
  {
    hide Read;
    NotReadIsUnused(p, Scrap(Unread(p), {}));
  }

  lemma {:induction false} UnreadSlotsNotRead(p: Program, captures: set<string>, slots: map<string, Slot>)
    ensures Unused(p, Scrap({}, UnreadSlots(p, captures, slots)))
    ensures UnreadSlots(p, captures, slots) !! captures
  {
    hide SlotIsRead;
    NotReadIsUnused(p, Scrap({}, UnreadSlots(p, captures, slots)));
  }

  ghost predicate QuietFor(p: Program, test: Instr -> bool) {
    forall b, i :: 0 <= b < |p| && 0 <= i < |p[b].instrs| ==> !test(p[b].instrs[i])
  }

  /** A round finds nothing exactly when nothing is left to delete. */
  lemma {:induction false} QuietIsClean(p: Program, used: set<nat>, read: set<string>, captures: set<string>, slots: map<string, Slot>)
    requires (forall t :: t in used <==> Read(p, t)) && (forall slot :: slot in read <==> SlotIsRead(p, slot))
    ensures QuietFor(p, ins => UnreadValue(ins, used)) && QuietFor(p, ins => UnreadStore(ins, read, captures, slots))
       <==> Clean(p, captures, slots)
  {
    hide Removable, Read, SlotIsRead, StoreRemovable;
    if Clean(p, captures, slots) {
      forall b, i | 0 <= b < |p| && 0 <= i < |p[b].instrs|
        ensures !UnreadValue(p[b].instrs[i], used) && !UnreadStore(p[b].instrs[i], read, captures, slots)
      {
      }
    } else {
      var b, i :| 0 <= b < |p| && 0 <= i < |p[b].instrs| &&
        (UnreadValue(p[b].instrs[i], used) || UnreadStore(p[b].instrs[i], read, captures, slots));
    }
  }

  lemma {:induction false} QuietWhenNoneDropped(p: Program, test: Instr -> bool, dead: Scrap)
    requires Picks(p, test, dead)
    ensures QuietFor(p, test) <==> forall b :: 0 <= b < |p| ==> NoneDropped(p[b].instrs, dead)
  {
    hide Dropped;
    if QuietFor(p, test) {
      forall b, i | 0 <= b < |p| && 0 <= i < |p[b].instrs| ensures !Dropped(dead, p[b].instrs[i]) {
        assert !test(p[b].instrs[i]);
      }
    }
  }

  lemma {:induction false} NotQuiet(p: Program, used: set<nat>, captures: set<string>, slots: map<string, Slot>)
    requires (forall t :: t in used <==> Read(p, t)) && !QuietFor(p, ins => UnreadValue(ins, used))
    ensures !Clean(p, captures, slots)
  {
    hide Removable, Read, SlotIsRead, StoreRemovable;
    var b, i :| 0 <= b < |p| && 0 <= i < |p[b].instrs| && UnreadValue(p[b].instrs[i], used);
  }

  /** Runs of `q` are runs of `p`, in every world and from every start that fits the checks of `p`. */
  ghost predicate Preserves(ty: Typing, p: Program, avail: Available, q: Program, captures: set<string>) {
    forall w: World, st {:trigger SameRuns(p, q, w, st, captures)} :: StartOk(ty, p, avail, st) ==> SameRuns(p, q, w, st, captures)
  }

  /** `q` with what is available in it can take the place of `p`. */
  ghost predicate Replaces(ty: Typing, p: Program, avail: Available, q: Program, after: Available, captures: set<string>) {
    && Preserves(ty, p, avail, q, captures)
    && forall st :: StartOk(ty, p, avail, st) ==> StartOk(ty, q, after, st)
  }

  lemma {:induction false} ReplacesSelf(ty: Typing, p: Program, avail: Available, captures: set<string>)
    ensures Replaces(ty, p, avail, p, avail, captures)
  {
    hide Ends, Shows;
  }

  lemma {:induction false} DropReplaces(ty: Typing, p: Program, avail: Available, dead: Scrap, captures: set<string>)
    requires Checked(ty, p, avail) && Unused(p, dead) && dead.slots !! captures
    ensures Replaces(ty, p, avail, Drop(p, dead), Fewer(avail, dead), captures)
  {
    hide SameRuns, StartOk, Checked, Unused, Drop;
    forall w: World, st | StartOk(ty, p, avail, st) ensures SameRuns(p, Drop(p, dead), w, st, captures) {
      DeletionIsSafe(dead, ty, p, avail, w, st, captures);
    }
    forall st | StartOk(ty, p, avail, st) ensures StartOk(ty, Drop(p, dead), Fewer(avail, dead), st) {
      StaysStartable(ty, p, avail, dead, st);
    }
  }

  lemma {:induction false} ReplacesTrans(ty: Typing, p: Program, a: Available, q: Program, b: Available, r: Program, c: Available, captures: set<string>)
    requires Replaces(ty, p, a, q, b, captures) && Replaces(ty, q, b, r, c, captures)
    ensures Replaces(ty, p, a, r, c, captures)
  {
    hide StartOk, Ends, Shows;
    forall w: World, st | StartOk(ty, p, a, st) ensures SameRuns(p, r, w, st, captures) {
      assert SameRuns(p, q, w, st, captures) && SameRuns(q, r, w, st, captures);
    }
  }

  class DeadValueElimination {
    var blocks: Program
    const captures: set<string>
    const slots: map<string, Slot>
    ghost const typing: Typing
    ghost var avail: Available

    ghost predicate Valid()
      reads this
    {
      Checked(typing, blocks, avail)
    }

    constructor (p: Program, captured: set<string>, declared: map<string, Slot>, ghost ty: Typing, ghost available: Available)
      requires Checked(ty, p, available)
      ensures Valid() && blocks == p && captures == captured && slots == declared && typing == ty && avail == available
    {
      blocks, captures, slots, typing, avail := p, captured, declared, ty, available;
    }

    /** Delete from every block what the test picks. */
    method Sweep(test: Instr -> bool, ghost dead: Scrap) returns (progress: bool)
      requires Valid() && Unused(blocks, dead) && dead.slots !! captures && Picks(blocks, test, dead)
      modifies this
      ensures Valid() && blocks == Drop(old(blocks), dead)
      ensures Replaces(typing, old(blocks), old(avail), blocks, avail, captures)
      ensures if progress then Size(blocks) < Size(old(blocks)) else blocks == old(blocks) && avail == old(avail)
      ensures !progress <==> QuietFor(old(blocks), test)
    {
      hide Checked, Replaces, Keep, Dropped, Unused, StartOk, Size;
      progress := false;
      var result: Program := [];
      assert blocks[..0] == [];
      for b := 0 to |blocks|
        invariant blocks == old(blocks) && avail == old(avail)
        invariant |result| == b && forall j :: 0 <= j < b ==> result[j] == DropBlock(blocks[j], dead)
        invariant if progress then Size(result) < Size(blocks[..b]) else result == blocks[..b]
        invariant !progress <==> forall j :: 0 <= j < b ==> NoneDropped(blocks[j].instrs, dead)
      {
        var kept, some := RemoveIf(blocks[b].instrs, test, dead);
        SizeAppend(result, blocks[b].(instrs := kept));
        SizeAppend(blocks[..b], blocks[b]);
        assert blocks[..b + 1] == blocks[..b] + [blocks[b]];
        progress := progress || some;
        result := result + [blocks[b].(instrs := kept)];
      }
      assert result == Drop(blocks, dead) && blocks[..|blocks|] == blocks;
      QuietWhenNoneDropped(blocks, test, dead);
      if progress {
        StaysChecked(typing, blocks, avail, dead);
        DropReplaces(typing, blocks, avail, dead, captures);
        avail := Fewer(avail, dead);
      } else {
        assert result == blocks;
        ReplacesSelf(typing, blocks, avail, captures);
      }
      blocks := result;
    }

    /** One round: delete the removable results that nothing reads, then the stores to locals that nothing reads now. */
    method Round() returns (progress: bool)
      requires Valid()
      modifies this
      ensures Valid() && Replaces(typing, old(blocks), old(avail), blocks, avail, captures)
      ensures blocks == AfterRound(old(blocks), captures, slots)
      ensures if progress then Size(blocks) < Size(old(blocks)) else blocks == old(blocks)
      ensures !progress <==> Clean(old(blocks), captures, slots)
    {
      hide Checked, Read, SlotIsRead, Clean, Replaces, Unused, Unread, UnreadSlots, UnreadValue, UnreadStore, Picks, Drop, Size, QuietFor;
      var used := UsedTemps(blocks);
      UnreadNotUsed(blocks);
      ValuesPicked(blocks, used);
      var values := Sweep(ins => UnreadValue(ins, used), Scrap(Unread(blocks), {}));
      ghost var between, had := blocks, avail;
      var read := SlotsRead(blocks);
      var captured, declared := captures, slots;
      UnreadSlotsNotRead(blocks, captured, declared);
      StoresPicked(typing, blocks, avail, read, captured, declared);
      var stores := Sweep(ins => UnreadStore(ins, read, captured, declared), Scrap({}, UnreadSlots(blocks, captured, declared)));
      ReplacesTrans(typing, old(blocks), old(avail), between, had, blocks, avail, captures);
      progress := values || stores;
      if values {
        NotQuiet(old(blocks), used, captured, declared);
      } else {
        QuietIsClean(between, used, read, captured, declared);
      }
    }

    /** The pass: rounds until one deletes nothing, or the bound is reached. Something is left exactly when the function had
        a chain of more deletable instructions than there are rounds. */
    method Eliminate() returns (ghost rounds: nat)
      requires Valid()
      modifies this
      ensures Valid() && Preserves(typing, old(blocks), old(avail), blocks, captures)
      ensures rounds <= ROUNDS && blocks == AfterRounds(old(blocks), captures, slots, rounds)
      ensures Clean(blocks, captures, slots) || rounds == ROUNDS
      ensures Clean(blocks, captures, slots) <==> !HasChain(Job(old(blocks), captures, slots), ROUNDS + 1)
      ensures Size(blocks) + rounds <= Size(old(blocks))
      ensures Size(old(blocks)) <= ROUNDS ==> Clean(blocks, captures, slots)
    {
      hide Checked, Preserves, StartOk, Clean, Size, AfterRound, AfterRounds, HasChain, StoresPlain, Replaces;
      rounds := 0;
      ghost var job := Job(blocks, captures, slots);
      ReplacesSelf(typing, blocks, avail, captures);
      StoresArePlain(typing, blocks, avail);
      CleanWithoutLongChain(job, ROUNDS);
      NoRound(job);
      for round := 0 to ROUNDS
        invariant Valid() && Replaces(typing, old(blocks), old(avail), blocks, avail, captures)
        invariant rounds == round && blocks == AfterRounds(job.p, captures, slots, round)
        invariant Size(blocks) + round <= Size(old(blocks))
      {
        ghost var before, had := blocks, avail;
        var progress := Round();
        ReplacesTrans(typing, old(blocks), old(avail), before, had, blocks, avail, captures);
        if !progress {
          StaysClean(job, round, ROUNDS);
          ReplacesPreserves(typing, old(blocks), old(avail), blocks, avail, captures);
          return;
        }
        OneMoreRound(job, round);
        rounds := rounds + 1;
      }
      ReplacesPreserves(typing, old(blocks), old(avail), blocks, avail, captures);
      if Size(blocks) == 0 { EmptyIsClean(blocks, captures, slots); }
    }
  }

  lemma {:induction false} NoRound(j: Job)
    ensures AfterRounds(j.p, j.captures, j.slots, 0) == j.p
  {
  }

  lemma {:induction false} OneMoreRound(j: Job, n: nat)
    ensures AfterRounds(j.p, j.captures, j.slots, n + 1) == AfterRound(AfterRounds(j.p, j.captures, j.slots, n), j.captures, j.slots)
  {
    hide AfterRound;
  }

  lemma {:induction false} ReplacesPreserves(ty: Typing, p: Program, avail: Available, q: Program, after: Available, captures: set<string>)
    requires Replaces(ty, p, avail, q, after, captures)
    ensures Preserves(ty, p, avail, q, captures)
  {
    hide StartOk, SameRuns;
  }

  /** A block that only returns. */
  lemma {:induction false} ReturnsAtOnce(q: Program, w: World, st: State, n: nat)
    requires q == [Block([], [], Return(None), [])]
    ensures Run(q, w, Start(q, st), n) == if n == 0 then At(0, [], st) else Stop(Returned(Nil), st)
  {
    if n > 0 { ReturnsAtOnce(q, w, st, n - 1); }
  }

  lemma {:induction false} StoreDropped(slot: string, v: Value)
    ensures Keep([Instr(None, Store(slot), [Const(v)])], Scrap({}, {slot})) == []
  {
    var ins := Instr(None, Store(slot), [Const(v)]);
    assert Dropped(Scrap({}, {slot}), ins) && [ins][1..] == [];
  }

  lemma {:induction false} StoresAndReturns(p: Program, w: World, st: State, slot: string, v: Value)
    requires p == [Block([], [Instr(None, Store(slot), [Const(v)])], Return(None), [])]
    ensures Run(p, w, Start(p, st), 2) == Stop(Returned(Nil), Put(st, slot, v))
  {
    var ins := Instr(None, Store(slot), [Const(v)]);
    assert ValuesOf(st, ins.operands) == [v];
    assert Execute(w, ins, st) == Done(Put(st, slot, v));
    assert Run(p, w, Start(p, st), 0) == At(0, [ins], st);
    assert Run(p, w, Start(p, st), 1) == At(0, [], Put(st, slot, v));
  }

  /** A store to a captured local must stay even if nothing in the function reads it: the value outlives the call. */
  lemma {:induction false} CapturedStoreMatters(w: World, st: State, slot: string, v: Value)
    requires slot in st.slots && st.slots[slot] != v
    ensures var p := [Block([], [Instr(None, Store(slot), [Const(v)])], Return(None), [])];
            var dead := Scrap({}, {slot});
            Unused(p, dead) && !SameRuns(p, Drop(p, dead), w, st, {slot})
  {
    var ins := Instr(None, Store(slot), [Const(v)]);
    var p := [Block([], [ins], Return(None), [])];
    var dead := Scrap({}, {slot});
    hide Keep, Dropped;
    NotReadIsUnused(p, dead);
    var q := Drop(p, dead);
    StoreDropped(slot, v);
    assert q == [DropBlock(p[0], dead)];
    StoresAndReturns(p, w, st, slot, v);
    var f := Seen(Stop(Returned(Nil), Put(st, slot, v)), {slot});
    assert Ends(p, w, st, {slot}, f);
    assert f.slots[slot] == v;
    if Ends(q, w, st, {slot}, f) {
      var n: nat :| Seen(Run(q, w, Start(q, st), n), {slot}) == f;
      ReturnsAtOnce(q, w, st, n);
      assert false;
    }
  }
}

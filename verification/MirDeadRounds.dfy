/** What the rounds of the deletion pass take away (src/mir/opt_dead.cpp), told from the function before the pass: in which
    round an instruction goes, and for which functions a bound on the rounds leaves something that could be deleted. */
module MirDeadRounds {
  import opened Wrappers
  import opened MirEffects
  import opened MirExecution
  import opened MirDeletion
  import OwnershipIr

  // ---------- what is read ----------

  predicate ReadsTemp(o: Operand, t: nat) { o.Use? && o.id == Temp(t) }

  ghost predicate ReadIn(os: seq<Operand>, t: nat) {
    exists k :: 0 <= k < |os| && ReadsTemp(os[k], t)
  }

  function BlockOperands(b: Block): seq<Operand> {
    InstrOperands(b.instrs) + TermOperands(b.term)
  }

  /** Some instruction, terminator or edge argument reads `t`. */
  ghost predicate Read(p: Program, t: nat) {
    exists b :: 0 <= b < |p| && ReadIn(BlockOperands(p[b]), t)
  }

  /** Some instruction reads the local `slot`. */
  ghost predicate SlotIsRead(p: Program, slot: string) {
    exists b, i :: 0 <= b < |p| && 0 <= i < |p[b].instrs| && ReadsSlot(p[b].instrs[i].op, slot)
  }

  lemma {:induction false} ReadInAppend(a: seq<Operand>, b: seq<Operand>, t: nat)
    ensures ReadIn(a + b, t) <==> ReadIn(a, t) || ReadIn(b, t)
  {
    if ReadIn(a, t) {
      var k :| 0 <= k < |a| && ReadsTemp(a[k], t);
      assert (a + b)[k] == a[k];
    }
    if ReadIn(b, t) {
      var k :| 0 <= k < |b| && ReadsTemp(b[k], t);
      assert (a + b)[|a| + k] == b[k];
    }
  }

  lemma {:induction false} ReadInstrs(instrs: seq<Instr>, t: nat)
    ensures ReadIn(InstrOperands(instrs), t) <==> exists i :: 0 <= i < |instrs| && ReadIn(instrs[i].operands, t)
  {
    hide ReadIn;
    if instrs == [] {
      NothingRead(t);
    } else {
      ReadInAppend(instrs[0].operands, InstrOperands(instrs[1..]), t);
      ReadInstrs(instrs[1..], t);
      forall i | 0 <= i < |instrs| && ReadIn(instrs[i].operands, t) ensures ReadIn(InstrOperands(instrs), t) {
        if i > 0 { assert instrs[1..][i - 1] == instrs[i]; }
      }
    }
  }

  lemma {:induction false} NothingRead(t: nat)
    ensures !ReadIn([], t)
  {
  }

  // ---------- what may go ----------

  /** A declared local. */
  datatype Slot = Slot(isCatchBinding: bool, ownership: OwnershipIr.OwnershipKind)

  /** Only the plainest locals, and only in functions that capture none. */
  predicate StoreRemovable(captures: set<string>, slots: map<string, Slot>, slot: string) {
    captures == {} && slot in slots && !slots[slot].isCatchBinding && slots[slot].ownership == OwnershipIr.GC
  }

  /** The results that no operand reads. */
  ghost function Unread(p: Program): set<nat> {
    set b, i | 0 <= b < |p| && 0 <= i < |p[b].instrs| && p[b].instrs[i].result.Some? && !Read(p, p[b].instrs[i].result.value)
      :: p[b].instrs[i].result.value
  }

  /** The locals that are stored to, that may go, and that nothing reads. */
  ghost function UnreadSlots(p: Program, captures: set<string>, slots: map<string, Slot>): set<string> {
    set b, i | 0 <= b < |p| && 0 <= i < |p[b].instrs| && p[b].instrs[i].op.Store?
               && StoreRemovable(captures, slots, p[b].instrs[i].op.slot) && !SlotIsRead(p, p[b].instrs[i].op.slot)
      :: p[b].instrs[i].op.slot
  }

  /** Nothing is left to delete. */
  ghost predicate Clean(p: Program, captures: set<string>, slots: map<string, Slot>) {
    forall b, i :: 0 <= b < |p| && 0 <= i < |p[b].instrs| ==>
      var ins := p[b].instrs[i];
      && (ins.result.Some? && Removable(ins) ==> Read(p, ins.result.value))
      && (ins.op.Store? && StoreRemovable(captures, slots, ins.op.slot) ==> SlotIsRead(p, ins.op.slot))
  }

  ghost predicate NoneDropped(instrs: seq<Instr>, dead: Scrap) {
    forall i :: 0 <= i < |instrs| ==> !Dropped(dead, instrs[i])
  }

  lemma {:induction false} KeepShorter(instrs: seq<Instr>, dead: Scrap)
    ensures if NoneDropped(instrs, dead) then Keep(instrs, dead) == instrs else |Keep(instrs, dead)| < |instrs|
  {
    hide Dropped;
    if instrs != [] {
      KeepShorter(instrs[1..], dead);
      if !Dropped(dead, instrs[0]) && NoneDropped(instrs[1..], dead) {
        forall i | 0 <= i < |instrs| ensures !Dropped(dead, instrs[i]) { if i > 0 { assert instrs[i] == instrs[1..][i - 1]; } }
      }
    }
  }

  // ---------- rounds ----------

  ghost function AfterRound(p: Program, captures: set<string>, slots: map<string, Slot>): Program {
    var q := Drop(p, Scrap(Unread(p), {}));
    Drop(q, Scrap({}, UnreadSlots(q, captures, slots)))
  }

  ghost function AfterRounds(p: Program, captures: set<string>, slots: map<string, Slot>, n: nat): Program {
    if n == 0 then p else AfterRound(AfterRounds(p, captures, slots, n - 1), captures, slots)
  }

  ghost function Size(p: Program): nat {
    if p == [] then 0 else |p[0].instrs| + Size(p[1..])
  }

  lemma {:induction false} SizeAppend(p: Program, b: Block)
    ensures Size(p + [b]) == Size(p) + |b.instrs|
  {
    if p == [] {
      assert p + [b] == [b] && [b][1..] == [];
    } else {
      assert (p + [b])[1..] == p[1..] + [b];
      SizeAppend(p[1..], b);
    }
  }

  /** Without a single instruction nothing is left to delete. */
  lemma {:induction false} EmptyIsClean(p: Program, captures: set<string>, slots: map<string, Slot>)
    requires Size(p) == 0
    ensures Clean(p, captures, slots)
  {
    forall b | 0 <= b < |p| ensures p[b].instrs == [] { SizeBounds(p, b); }
  }

  lemma {:induction false} SizeBounds(p: Program, b: nat)
    requires b < |p|
    ensures |p[b].instrs| <= Size(p)
  {
    if b > 0 { SizeBounds(p[1..], b - 1); }
  }

  // ---------- in which round an instruction goes ----------

  /** The function before the pass, with what is known of its locals. */
  datatype Job = Job(p: Program, captures: set<string>, slots: map<string, Slot>)

  ghost predicate In(p: Program, ins: Instr) {
    exists b :: 0 <= b < |p| && ins in p[b].instrs
  }

  ghost predicate TermReads(p: Program, t: nat) {
    exists b :: 0 <= b < |p| && ReadIn(TermOperands(p[b].term), t)
  }

  /** A removable value is gone after `k` rounds if no terminator or edge reads it and its readers are gone a round earlier. */
  ghost predicate GoneValue(j: Job, k: nat, ins: Instr)
    decreases k, 0
  {
    && k > 0 && ins.result.Some? && Removable(ins) && !TermReads(j.p, ins.result.value)
    && forall r :: In(j.p, r) && ReadIn(r.operands, ins.result.value) ==> Gone(j, k - 1, r)
  }

  /** A removable store is gone after `k` rounds if the readers of its local are: they go first in a round. */
  ghost predicate GoneStore(j: Job, k: nat, ins: Instr)
    decreases k, 1
  {
    && k > 0 && ins.result.None? && ins.op.Store? && StoreRemovable(j.captures, j.slots, ins.op.slot)
    && forall r :: In(j.p, r) && ReadsSlot(r.op, ins.op.slot) ==> GoneValue(j, k, r)
  }

  ghost predicate Gone(j: Job, k: nat, ins: Instr)
    decreases k, 2
  {
    GoneValue(j, k, ins) || GoneStore(j, k, ins)
  }

  /** What is gone stays gone. */
  lemma {:induction false} GoneLater(j: Job, k: nat, ins: Instr)
    ensures GoneValue(j, k, ins) ==> GoneValue(j, k + 1, ins)
    ensures GoneStore(j, k, ins) ==> GoneStore(j, k + 1, ins)
    decreases k, if ins.op.Store? then 1 else 0
  {
    hide Removable, StoreRemovable, ReadIn, In, TermReads, ReadsSlot;
    if GoneValue(j, k, ins) {
      forall r | In(j.p, r) && ReadIn(r.operands, ins.result.value) ensures Gone(j, k, r) {
        assert Gone(j, k - 1, r);
        GoneLater(j, k - 1, r);
      }
    }
    if GoneStore(j, k, ins) {
      forall r | In(j.p, r) && ReadsSlot(r.op, ins.op.slot) ensures GoneValue(j, k + 1, r) {
        NotAStore(r.op, ins.op.slot);
        GoneLater(j, k, r);
      }
    }
  }

  lemma {:induction false} NotAStore(op: Opcode, slot: string)
    requires ReadsSlot(op, slot)
    ensures !op.Store?
  {
  }

  lemma {:induction false} GoneMuchLater(j: Job, k: nat, n: nat, ins: Instr)
    requires k <= n && Gone(j, k, ins)
    ensures Gone(j, n, ins)
    decreases n
  {
    hide GoneValue, GoneStore;
    if k < n {
      GoneMuchLater(j, k, n - 1, ins);
      GoneLater(j, n - 1, ins);
    }
  }

  /** Readers of locals are values. */
  lemma {:induction false} ReaderGone(j: Job, k: nat, r: Instr, slot: string)
    requires ReadsSlot(r.op, slot)
    ensures Gone(j, k, r) <==> GoneValue(j, k, r)
  {
    hide GoneValue;
    NotAStore(r.op, slot);
  }

  // ---------- the rounds take exactly what is gone ----------

  ghost function Rest(instrs: seq<Instr>, gone: Instr -> bool): (r: seq<Instr>)
    ensures forall ins :: ins in r <==> ins in instrs && !gone(ins)
  {
    if instrs == [] then [] else (if gone(instrs[0]) then [] else [instrs[0]]) + Rest(instrs[1..], gone)
  }

  /** The function without the instructions in `gone`. */
  ghost function Strip(p: Program, gone: Instr -> bool): (q: Program)
    ensures |q| == |p|
  {
    seq(|p|, b requires 0 <= b < |p| => p[b].(instrs := Rest(p[b].instrs, gone)))
  }

  lemma {:induction false} StripFacts(p: Program, gone: Instr -> bool)
    ensures forall ins :: In(Strip(p, gone), ins) <==> In(p, ins) && !gone(ins)
    ensures forall t :: TermReads(Strip(p, gone), t) <==> TermReads(p, t)
  {
    hide Rest, ReadIn, TermOperands;
    var q := Strip(p, gone);
    forall t | TermReads(p, t) ensures TermReads(q, t) {
      var b :| 0 <= b < |p| && ReadIn(TermOperands(p[b].term), t);
      assert ReadIn(TermOperands(q[b].term), t);
    }
    forall ins | In(p, ins) && !gone(ins) ensures In(q, ins) {
      var b :| 0 <= b < |p| && ins in p[b].instrs;
      assert ins in q[b].instrs;
    }
    forall ins | In(q, ins) ensures In(p, ins) && !gone(ins) {
      var b :| 0 <= b < |q| && ins in q[b].instrs;
      assert ins in p[b].instrs;
    }
  }

  lemma {:induction false} StripNothing(p: Program, gone: Instr -> bool)
    requires forall ins :: !gone(ins)
    ensures Strip(p, gone) == p
  {
    hide Rest;
    forall b | 0 <= b < |p| ensures Rest(p[b].instrs, gone) == p[b].instrs { RestAll(p[b].instrs, gone); }
  }

  lemma {:induction false} RestAll(instrs: seq<Instr>, gone: Instr -> bool)
    requires forall ins :: !gone(ins)
    ensures Rest(instrs, gone) == instrs
  {
    if instrs != [] { RestAll(instrs[1..], gone); }
  }

  lemma {:induction false} KeepRest(instrs: seq<Instr>, gone: Instr -> bool, dead: Scrap, more: Instr -> bool)
    requires forall ins :: ins in instrs ==> (more(ins) <==> gone(ins) || Dropped(dead, ins))
    ensures Keep(Rest(instrs, gone), dead) == Rest(instrs, more)
  {
    hide Dropped;
    if instrs != [] {
      KeepRest(instrs[1..], gone, dead, more);
      var tail := Rest(instrs[1..], gone);
      if !gone(instrs[0]) { assert ([instrs[0]] + tail)[0] == instrs[0] && ([instrs[0]] + tail)[1..] == tail; } else { assert [] + tail == tail; }
    }
  }

  lemma {:induction false} DropStrip(p: Program, gone: Instr -> bool, dead: Scrap, more: Instr -> bool)
    requires forall ins :: In(p, ins) ==> (more(ins) <==> gone(ins) || Dropped(dead, ins))
    ensures Drop(Strip(p, gone), dead) == Strip(p, more)
  {
    hide Rest, Keep, Dropped;
    forall b | 0 <= b < |p| ensures Keep(Rest(p[b].instrs, gone), dead) == Rest(p[b].instrs, more) {
      forall ins | ins in p[b].instrs ensures more(ins) <==> gone(ins) || Dropped(dead, ins) { assert In(p, ins); }
      KeepRest(p[b].instrs, gone, dead, more);
    }
  }

  lemma {:induction false} ReadMeans(p: Program, t: nat)
    ensures Read(p, t) <==> TermReads(p, t) || exists r :: In(p, r) && ReadIn(r.operands, t)
  {
    hide ReadIn, TermOperands, InstrOperands;
    forall b | 0 <= b < |p|
      ensures ReadIn(BlockOperands(p[b]), t) <==>
              ReadIn(TermOperands(p[b].term), t) || exists i :: 0 <= i < |p[b].instrs| && ReadIn(p[b].instrs[i].operands, t)
    {
      ReadInAppend(InstrOperands(p[b].instrs), TermOperands(p[b].term), t);
      ReadInstrs(p[b].instrs, t);
    }
    if Read(p, t) && !TermReads(p, t) {
      var b :| 0 <= b < |p| && ReadIn(BlockOperands(p[b]), t);
      var i :| 0 <= i < |p[b].instrs| && ReadIn(p[b].instrs[i].operands, t);
      assert In(p, p[b].instrs[i]);
    }
    if r :| In(p, r) && ReadIn(r.operands, t) {
      var b :| 0 <= b < |p| && r in p[b].instrs;
      var i :| 0 <= i < |p[b].instrs| && p[b].instrs[i] == r;
      assert ReadIn(BlockOperands(p[b]), t);
    }
  }

  lemma {:induction false} SlotReadMeans(p: Program, slot: string)
    ensures SlotIsRead(p, slot) <==> exists r :: In(p, r) && ReadsSlot(r.op, slot)
  {
    hide ReadsSlot;
    if SlotIsRead(p, slot) {
      var b, i :| 0 <= b < |p| && 0 <= i < |p[b].instrs| && ReadsSlot(p[b].instrs[i].op, slot);
      assert In(p, p[b].instrs[i]);
    }
    if r :| In(p, r) && ReadsSlot(r.op, slot) {
      var b :| 0 <= b < |p| && r in p[b].instrs;
      var i :| 0 <= i < |p[b].instrs| && p[b].instrs[i] == r;
    }
  }

  /** What the first half of a round deletes. */
  lemma {:induction false} UnreadMeans(p: Program, ins: Instr)
    requires In(p, ins)
    ensures Dropped(Scrap(Unread(p), {}), ins) <==> ins.result.Some? && Removable(ins) && !Read(p, ins.result.value)
  {
    hide Removable, Read;
    var b :| 0 <= b < |p| && ins in p[b].instrs;
    var i :| 0 <= i < |p[b].instrs| && p[b].instrs[i] == ins;
  }

  /** What the second half of a round deletes. */
  lemma {:induction false} UnreadSlotMeans(p: Program, captures: set<string>, slots: map<string, Slot>, ins: Instr)
    requires In(p, ins)
    ensures Dropped(Scrap({}, UnreadSlots(p, captures, slots)), ins) <==>
            ins.result.None? && ins.op.Store? && StoreRemovable(captures, slots, ins.op.slot) && !SlotIsRead(p, ins.op.slot)
  {
    hide Removable, SlotIsRead, StoreRemovable;
    var b :| 0 <= b < |p| && ins in p[b].instrs;
    var i :| 0 <= i < |p[b].instrs| && p[b].instrs[i] == ins;
  }

  /** A value left after `k` rounds is unread exactly if the next round takes it. */
  lemma {:induction false} NextValue(j: Job, k: nat, ins: Instr)
    requires In(j.p, ins) && !Gone(j, k, ins)
    ensures Dropped(Scrap(Unread(Strip(j.p, x => Gone(j, k, x))), {}), ins) <==> GoneValue(j, k + 1, ins)
  {
    hide Removable, Gone, Read, In, TermReads, ReadIn, Strip, Unread, Dropped;
    var q := Strip(j.p, x => Gone(j, k, x));
    StripFacts(j.p, x => Gone(j, k, x));
    UnreadMeans(q, ins);
    if ins.result.Some? { ReadMeans(q, ins.result.value); }
  }

  /** The same for a store, once the values of the next round are gone. */
  lemma {:induction false} NextStore(j: Job, k: nat, ins: Instr)
    requires In(j.p, ins) && !Gone(j, k, ins) && !GoneValue(j, k + 1, ins)
    ensures var q := Strip(j.p, x => Gone(j, k, x) || GoneValue(j, k + 1, x));
            Dropped(Scrap({}, UnreadSlots(q, j.captures, j.slots)), ins) <==> GoneStore(j, k + 1, ins)
  {
    hide Removable, Gone, GoneValue, In, TermReads, ReadsSlot, Strip, UnreadSlots, Dropped, StoreRemovable, SlotIsRead;
    var gone := (x: Instr) => Gone(j, k, x) || GoneValue(j, k + 1, x);
    var q := Strip(j.p, gone);
    StripFacts(j.p, gone);
    UnreadSlotMeans(q, j.captures, j.slots, ins);
    if ins.op.Store? {
      SlotReadMeans(q, ins.op.slot);
      forall r: Instr | ReadsSlot(r.op, ins.op.slot) ensures gone(r) <==> GoneValue(j, k + 1, r) {
        ReaderGone(j, k, r, ins.op.slot);
        GoneLater(j, k, r);
      }
    }
  }

  /** A round takes exactly what the next number of rounds says. */
  lemma {:induction false} RoundDeletes(j: Job, k: nat)
    ensures AfterRound(Strip(j.p, x => Gone(j, k, x)), j.captures, j.slots) == Strip(j.p, x => Gone(j, k + 1, x))
  {
    hide GoneValue, GoneStore, In, Strip, Unread, UnreadSlots, Dropped, Drop;
    var p := Strip(j.p, x => Gone(j, k, x));
    var between := (x: Instr) => Gone(j, k, x) || GoneValue(j, k + 1, x);
    var values := Scrap(Unread(p), {});
    forall ins | In(j.p, ins) ensures between(ins) <==> Gone(j, k, ins) || Dropped(values, ins) {
      if !Gone(j, k, ins) { NextValue(j, k, ins); }
    }
    DropStrip(j.p, x => Gone(j, k, x), values, between);
    var q := Strip(j.p, between);
    var stores := Scrap({}, UnreadSlots(q, j.captures, j.slots));
    forall ins | In(j.p, ins) ensures Gone(j, k + 1, ins) <==> between(ins) || Dropped(stores, ins) {
      GoneLater(j, k, ins);
      if !between(ins) { NextStore(j, k, ins); }
    }
    DropStrip(j.p, between, stores, x => Gone(j, k + 1, x));
  }

  /** After `k` rounds the function is the one before the pass without the instructions gone by then. */
  lemma {:induction false} RoundsDelete(j: Job, k: nat)
    ensures AfterRounds(j.p, j.captures, j.slots, k) == Strip(j.p, x => Gone(j, k, x))
  {
    hide Strip, AfterRound;
    if k == 0 {
      StripNothing(j.p, x => Gone(j, k, x));
    } else {
      RoundsDelete(j, k - 1);
      RoundDeletes(j, k - 1);
    }
  }

  // ---------- when nothing is left ----------

  ghost predicate StoresPlain(p: Program) {
    forall ins :: In(p, ins) && ins.op.Store? ==> ins.result.None?
  }

  /** The next round would take nothing. */
  ghost predicate Stable(j: Job, k: nat) {
    forall ins :: In(j.p, ins) && Gone(j, k + 1, ins) ==> Gone(j, k, ins)
  }

  lemma {:induction false} StableOn(j: Job, k: nat)
    requires Stable(j, k)
    ensures Stable(j, k + 1)
  {
    hide Removable, StoreRemovable, ReadIn, In, TermReads, ReadsSlot;
    forall ins | In(j.p, ins) && GoneValue(j, k + 2, ins) ensures GoneValue(j, k + 1, ins) {}
    forall ins | In(j.p, ins) && GoneStore(j, k + 2, ins) ensures GoneStore(j, k + 1, ins) {}
  }

  lemma {:induction false} StableForever(j: Job, k: nat, n: nat, ins: Instr)
    requires Stable(j, k) && In(j.p, ins) && Gone(j, n, ins)
    ensures Gone(j, k, ins)
    decreases n
  {
    hide GoneValue, GoneStore, In;
    if n <= k {
      GoneMuchLater(j, n, k, ins);
    } else {
      StableUpTo(j, k, n - 1);
      StableForever(j, k, n - 1, ins);
    }
  }

  lemma {:induction false} StableUpTo(j: Job, k: nat, n: nat)
    requires Stable(j, k) && k <= n
    ensures Stable(j, n)
    decreases n
  {
    hide Stable;
    if k < n {
      StableUpTo(j, k, n - 1);
      StableOn(j, n - 1);
    }
  }

  lemma {:induction false} CleanMeans(p: Program, captures: set<string>, slots: map<string, Slot>)
    ensures Clean(p, captures, slots) <==> forall ins :: In(p, ins) ==>
              && (ins.result.Some? && Removable(ins) ==> Read(p, ins.result.value))
              && (ins.op.Store? && StoreRemovable(captures, slots, ins.op.slot) ==> SlotIsRead(p, ins.op.slot))
  {
    hide Removable, Read, StoreRemovable, SlotIsRead;
    if Clean(p, captures, slots) {
      forall ins | In(p, ins)
        ensures ins.result.Some? && Removable(ins) ==> Read(p, ins.result.value)
        ensures ins.op.Store? && StoreRemovable(captures, slots, ins.op.slot) ==> SlotIsRead(p, ins.op.slot)
      {
        var b :| 0 <= b < |p| && ins in p[b].instrs;
        var i :| 0 <= i < |p[b].instrs| && p[b].instrs[i] == ins;
      }
    } else {
      var b, i :| 0 <= b < |p| && 0 <= i < |p[b].instrs| &&
        var ins := p[b].instrs[i];
        !((ins.result.Some? && Removable(ins) ==> Read(p, ins.result.value))
          && (ins.op.Store? && StoreRemovable(captures, slots, ins.op.slot) ==> SlotIsRead(p, ins.op.slot)));
      assert In(p, p[b].instrs[i]);
    }
  }

  /** After `k` rounds nothing is left to delete exactly if the next round would take nothing. */
  lemma {:induction false} CleanIsStable(j: Job, k: nat)
    requires StoresPlain(j.p)
    ensures Clean(AfterRounds(j.p, j.captures, j.slots, k), j.captures, j.slots) <==> Stable(j, k)
  {
    hide Clean, AfterRounds, Gone, In, Strip, Removable, StoreRemovable, Read, SlotIsRead;
    var q := Strip(j.p, x => Gone(j, k, x));
    RoundsDelete(j, k);
    CleanMeans(q, j.captures, j.slots);
    StripFacts(j.p, x => Gone(j, k, x));
    if Stable(j, k) {
      forall ins | In(q, ins)
        ensures ins.result.Some? && Removable(ins) ==> Read(q, ins.result.value)
        ensures ins.op.Store? && StoreRemovable(j.captures, j.slots, ins.op.slot) ==> SlotIsRead(q, ins.op.slot)
      {
        LeftIsRead(j, k, ins);
      }
    } else {
      var ins :| In(j.p, ins) && Gone(j, k + 1, ins) && !Gone(j, k, ins);
      var v := NewValueOrStore(j, k, ins);
      if v.result.Some? { ValueIsUnread(j, k, v); } else { StoreIsUnread(j, k, v); }
    }
  }

  lemma {:induction false} LeftIsRead(j: Job, k: nat, ins: Instr)
    requires In(j.p, ins) && !Gone(j, k, ins) && !Gone(j, k + 1, ins) && StoresPlain(j.p)
    ensures var q := Strip(j.p, x => Gone(j, k, x));
            && (ins.result.Some? && Removable(ins) ==> Read(q, ins.result.value))
            && (ins.op.Store? && StoreRemovable(j.captures, j.slots, ins.op.slot) ==> SlotIsRead(q, ins.op.slot))
  {
    hide Removable, StoreRemovable, Read, SlotIsRead, In, TermReads, ReadIn, ReadsSlot, Strip;
    var q := Strip(j.p, x => Gone(j, k, x));
    StripFacts(j.p, x => Gone(j, k, x));
    if ins.result.Some? { ReadMeans(q, ins.result.value); }
    if ins.op.Store? {
      SlotReadMeans(q, ins.op.slot);
      forall r: Instr | ReadsSlot(r.op, ins.op.slot) && Gone(j, k, r) ensures GoneValue(j, k + 1, r) {
        ReaderGone(j, k, r, ins.op.slot);
        GoneLater(j, k, r);
      }
    }
  }

  /** If the next round takes anything, it takes a value, or a store whose local is already unread. */
  lemma {:induction false} NewValueOrStore(j: Job, k: nat, ins: Instr) returns (v: Instr)
    requires In(j.p, ins) && Gone(j, k + 1, ins) && !Gone(j, k, ins)
    ensures In(j.p, v) && Gone(j, k + 1, v) && !Gone(j, k, v)
    ensures v.result.None? ==> v.op.Store? && StoreRemovable(j.captures, j.slots, v.op.slot)
    ensures v.result.None? ==> forall r :: In(j.p, r) && ReadsSlot(r.op, v.op.slot) ==> Gone(j, k, r)
    ensures v.result.Some? ==> GoneValue(j, k + 1, v)
  {
    hide Removable, StoreRemovable, In, TermReads, ReadIn, ReadsSlot;
    v := ins;
    if ins.result.None? && exists r :: In(j.p, r) && ReadsSlot(r.op, ins.op.slot) && !Gone(j, k, r) {
      v :| In(j.p, v) && ReadsSlot(v.op, ins.op.slot) && !Gone(j, k, v);
      assert GoneValue(j, k + 1, v);
    }
  }

  lemma {:induction false} ValueIsUnread(j: Job, k: nat, ins: Instr)
    requires In(j.p, ins) && !Gone(j, k, ins) && GoneValue(j, k + 1, ins)
    ensures !Read(Strip(j.p, x => Gone(j, k, x)), ins.result.value)
  {
    hide Removable, Read, In, TermReads, ReadIn, Strip, Gone;
    StripFacts(j.p, x => Gone(j, k, x));
    ReadMeans(Strip(j.p, x => Gone(j, k, x)), ins.result.value);
  }

  lemma {:induction false} StoreIsUnread(j: Job, k: nat, ins: Instr)
    requires In(j.p, ins) && ins.op.Store? && forall r :: In(j.p, r) && ReadsSlot(r.op, ins.op.slot) ==> Gone(j, k, r)
    ensures !SlotIsRead(Strip(j.p, x => Gone(j, k, x)), ins.op.slot)
  {
    hide SlotIsRead, In, ReadsSlot, Strip, Gone;
    StripFacts(j.p, x => Gone(j, k, x));
    SlotReadMeans(Strip(j.p, x => Gone(j, k, x)), ins.op.slot);
  }

  // ---------- chains ----------

  /** Enough rounds would delete it. */
  ghost predicate Deletable(j: Job, ins: Instr) {
    exists k: nat :: Gone(j, k, ins)
  }

  /** `u` reads the value `v`, directly or by way of a local that `v` is stored to. */
  ghost predicate Feeds(p: Program, v: Instr, u: Instr) {
    && v.result.Some?
    && (ReadIn(u.operands, v.result.value) || exists s :: In(p, s) && StoresFor(s, v.result.value, u))
  }

  ghost predicate StoresFor(s: Instr, t: nat, u: Instr) {
    s.op.Store? && ReadIn(s.operands, t) && ReadsSlot(u.op, s.op.slot)
  }

  /** Deletable instructions of the function, each read by the next. All are values, but the last may be a store. */
  ghost predicate DeadChain(j: Job, es: seq<Instr>) {
    && (forall i :: 0 <= i < |es| ==> In(j.p, es[i]) && Deletable(j, es[i]))
    && (forall i :: 0 < i < |es| ==> Feeds(j.p, es[i - 1], es[i]))
  }

  /** A value goes later than what it feeds. */
  lemma {:induction false} FeedsLater(j: Job, k: nat, v: Instr, u: Instr)
    requires Feeds(j.p, v, u) && In(j.p, u) && Gone(j, k, v)
    ensures k > 0 && Gone(j, k - 1, u)
  {
    hide In, TermReads, ReadIn, ReadsSlot, StoreRemovable, Removable;
    if !ReadIn(u.operands, v.result.value) {
      var s :| In(j.p, s) && StoresFor(s, v.result.value, u);
      assert Gone(j, k - 1, s);
      StoreKept(s);
      assert GoneStore(j, k - 1, s);
    }
  }

  lemma {:induction false} StoreKept(ins: Instr)
    requires ins.op.Store?
    ensures !Removable(ins)
  {
  }

  /** The head of a chain outlives as many rounds as there are links after it. */
  lemma {:induction false} ChainOutlives(j: Job, es: seq<Instr>)
    requires DeadChain(j, es) && es != []
    ensures !Gone(j, |es| - 1, es[0])
  {
    hide Feeds, Deletable, In, GoneValue, GoneStore;
    if |es| > 1 {
      var rest := es[1..];
      forall i | 0 < i < |rest| ensures Feeds(j.p, rest[i - 1], rest[i]) { assert Feeds(j.p, es[i + 1 - 1], es[i + 1]); }
      ChainOutlives(j, rest);
      assert Feeds(j.p, es[1 - 1], es[1]);
      if Gone(j, |es| - 1, es[0]) { FeedsLater(j, |es| - 1, es[0], es[1]); }
    } else {
      NothingGone(j, es[0]);
    }
  }

  lemma {:induction false} NothingGone(j: Job, ins: Instr)
    ensures !Gone(j, 0, ins)
  {
  }

  lemma {:induction false} ChainMore(j: Job, v: Instr, es: seq<Instr>)
    requires DeadChain(j, es) && es != [] && In(j.p, v) && Deletable(j, v) && Feeds(j.p, v, es[0])
    ensures DeadChain(j, [v] + es)
  {
    hide Feeds, Deletable, In;
    var all := [v] + es;
    forall i | 0 < i < |all| ensures Feeds(j.p, all[i - 1], all[i]) { if i > 1 { assert Feeds(j.p, es[i - 1 - 1], es[i - 1]); } }
  }

  lemma {:induction false} ChainOne(j: Job, ins: Instr)
    requires In(j.p, ins) && Deletable(j, ins)
    ensures DeadChain(j, [ins])
  {
    hide Feeds, Deletable, In;
  }

  /** A reader that keeps a deletable value alive for `k` rounds. */
  lemma {:induction false} Blocker(j: Job, k: nat, n: nat, ins: Instr) returns (r: Instr)
    requires k > 0 && GoneValue(j, n, ins) && !Gone(j, k, ins)
    ensures In(j.p, r) && ReadIn(r.operands, ins.result.value) && !Gone(j, k - 1, r) && n > 0 && Gone(j, n - 1, r)
  {
    hide In, TermReads, ReadIn, StoreRemovable, Removable;
    assert !GoneValue(j, k, ins);
    r :| In(j.p, r) && ReadIn(r.operands, ins.result.value) && !Gone(j, k - 1, r);
  }

  /** A reader of the local that keeps a deletable store alive for `k` rounds. */
  lemma {:induction false} SlotBlocker(j: Job, k: nat, n: nat, ins: Instr) returns (r: Instr)
    requires k > 0 && GoneStore(j, n, ins) && !Gone(j, k, ins)
    ensures In(j.p, r) && ReadsSlot(r.op, ins.op.slot) && !Gone(j, k, r) && GoneValue(j, n, r)
  {
    hide In, TermReads, ReadsSlot, StoreRemovable, Removable, GoneValue;
    assert !GoneStore(j, k, ins);
    r :| In(j.p, r) && ReadsSlot(r.op, ins.op.slot) && !GoneValue(j, k, r);
    ReaderGone(j, k, r, ins.op.slot);
  }

  /** A deletable value that outlives `k` rounds heads a chain of `k + 1`. */
  lemma {:induction false} OutlivesByChain(j: Job, k: nat, n: nat, ins: Instr) returns (es: seq<Instr>)
    requires In(j.p, ins) && GoneValue(j, n, ins) && !Gone(j, k, ins)
    ensures |es| == k + 1 && es[0] == ins && DeadChain(j, es)
    decreases k
  {
    hide In, TermReads, ReadIn, ReadsSlot, GoneValue, GoneStore, DeadChain;
    assert Gone(j, n, ins);
    if k == 0 {
      ChainOne(j, ins);
      return [ins];
    }
    var r := Blocker(j, k, n, ins);
    ResultOf(j, n, ins);
    if GoneValue(j, n - 1, r) {
      var rest := OutlivesByChain(j, k - 1, n - 1, r);
      ChainMore(j, ins, rest);
      es := [ins] + rest;
    } else if k == 1 {
      ChainOne(j, r);
      ChainMore(j, ins, [r]);
      es := [ins, r];
      assert es == [ins] + [r];
    } else {
      var u := SlotBlocker(j, k - 1, n - 1, r);
      IsStore(j, n - 1, r);
      var rest := OutlivesByChain(j, k - 1, n - 1, u);
      assert StoresFor(r, ins.result.value, u);
      ChainMore(j, ins, rest);
      es := [ins] + rest;
    }
  }

  lemma {:induction false} ResultOf(j: Job, n: nat, ins: Instr)
    requires GoneValue(j, n, ins)
    ensures ins.result.Some?
  {
  }

  lemma {:induction false} IsStore(j: Job, n: nat, ins: Instr)
    requires GoneStore(j, n, ins)
    ensures ins.op.Store? && ins.result.None?
  {
  }

  ghost predicate HasChain(j: Job, n: nat) {
    exists es :: DeadChain(j, es) && |es| == n
  }

  /** For every function: `k` rounds leave something that could be deleted exactly when it has a chain of more than `k`
      deletable instructions. */
  lemma {:induction false} CleanWithoutLongChain(j: Job, k: nat)
    requires StoresPlain(j.p)
    ensures Clean(AfterRounds(j.p, j.captures, j.slots, k), j.captures, j.slots) <==> !HasChain(j, k + 1)
  {
    hide Clean, AfterRounds, Gone, In, DeadChain, StoreRemovable;
    CleanIsStable(j, k);
    if Stable(j, k) {
      forall es | DeadChain(j, es) && |es| == k + 1 ensures false {
        ChainOutlives(j, es);
        var n := HeadGone(j, es);
        StableForever(j, k, n, es[0]);
      }
    } else {
      var ins :| In(j.p, ins) && Gone(j, k + 1, ins) && !Gone(j, k, ins);
      var es := ChainFor(j, k, ins);
    }
  }

  /** Once nothing is left, more rounds change nothing about that. */
  lemma {:induction false} StaysClean(j: Job, k: nat, n: nat)
    requires StoresPlain(j.p) && k <= n && Clean(AfterRounds(j.p, j.captures, j.slots, k), j.captures, j.slots)
    ensures Clean(AfterRounds(j.p, j.captures, j.slots, n), j.captures, j.slots)
  {
    hide Clean, AfterRounds, Stable;
    CleanIsStable(j, k);
    StableUpTo(j, k, n);
    CleanIsStable(j, n);
  }

  lemma {:induction false} HeadGone(j: Job, es: seq<Instr>) returns (n: nat)
    requires DeadChain(j, es) && es != []
    ensures In(j.p, es[0]) && Gone(j, n, es[0])
  {
    hide Gone, In;
    n :| Gone(j, n, es[0]);
  }

  lemma {:induction false} ChainFor(j: Job, k: nat, ins: Instr) returns (es: seq<Instr>)
    requires In(j.p, ins) && Gone(j, k + 1, ins) && !Gone(j, k, ins)
    ensures DeadChain(j, es) && |es| == k + 1
  {
    hide In, GoneValue, GoneStore, DeadChain;
    if GoneValue(j, k + 1, ins) {
      es := OutlivesByChain(j, k, k + 1, ins);
    } else if k == 0 {
      ChainOne(j, ins);
      es := [ins];
    } else {
      var u := SlotBlocker(j, k, k + 1, ins);
      es := OutlivesByChain(j, k, k + 1, u);
    }
  }

  // ---------- how many rounds are enough ----------

  lemma {:induction false} RestFewer(instrs: seq<Instr>, gone: Instr -> bool, more: Instr -> bool)
    requires forall ins :: gone(ins) ==> more(ins)
    ensures |Rest(instrs, more)| <= |Rest(instrs, gone)|
    ensures (exists ins :: ins in instrs && more(ins) && !gone(ins)) ==> |Rest(instrs, more)| < |Rest(instrs, gone)|
  {
    if instrs != [] { RestFewer(instrs[1..], gone, more); }
  }

  lemma {:induction false} StripFewer(p: Program, gone: Instr -> bool, more: Instr -> bool)
    requires forall ins :: gone(ins) ==> more(ins)
    ensures Size(Strip(p, more)) <= Size(Strip(p, gone))
    ensures (exists ins :: In(p, ins) && more(ins) && !gone(ins)) ==> Size(Strip(p, more)) < Size(Strip(p, gone))
  {
    hide Rest;
    if p != [] {
      var tail := p[1..];
      StripFewer(tail, gone, more);
      RestFewer(p[0].instrs, gone, more);
      assert Strip(p, gone)[1..] == Strip(tail, gone) && Strip(p, more)[1..] == Strip(tail, more);
      if ins :| In(p, ins) && more(ins) && !gone(ins) {
        var b :| 0 <= b < |p| && ins in p[b].instrs;
        if b > 0 { assert tail[b - 1] == p[b] && In(tail, ins); }
      }
    }
  }

  /** The rounds settle: every round before that takes an instruction. */
  lemma {:induction false} Settles(j: Job, k: nat) returns (n: nat)
    requires Size(Strip(j.p, x => Gone(j, k, x))) + k <= Size(j.p)
    ensures n <= Size(j.p) && Stable(j, n)
    decreases Size(Strip(j.p, x => Gone(j, k, x)))
  {
    hide Size, Strip, Gone, In;
    n := k;
    if !Stable(j, k) {
      forall ins | Gone(j, k, ins) ensures Gone(j, k + 1, ins) { GoneMuchLater(j, k, k + 1, ins); }
      var now, later := (x: Instr) => Gone(j, k, x), (x: Instr) => Gone(j, k + 1, x);
      StripFewer(j.p, now, later);
      var ins :| In(j.p, ins) && Gone(j, k + 1, ins) && !Gone(j, k, ins);
      assert later(ins) && !now(ins);
      n := Settles(j, k + 1);
    }
  }

  /** As many rounds as there are instructions show whether an instruction is deletable. */
  lemma {:induction false} DeletableBySize(j: Job, ins: Instr)
    requires In(j.p, ins)
    ensures Deletable(j, ins) <==> Gone(j, Size(j.p), ins)
  {
    hide Gone, In, Size, Strip;
    if Deletable(j, ins) {
      var m: nat :| Gone(j, m, ins);
      forall x ensures !Gone(j, 0, x) { NothingGone(j, x); }
      StripNothing(j.p, x => Gone(j, 0, x));
      var n := Settles(j, 0);
      StableForever(j, n, m, ins);
      GoneMuchLater(j, n, Size(j.p), ins);
    }
  }
}

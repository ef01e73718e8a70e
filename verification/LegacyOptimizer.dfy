/** The control-flow phases of `optimize` (src/compiler/ir_optimizer.cpp) as they rewrite a function in place. */
module LegacyOptimizer {
  import opened Wrappers
  import opened Sequences
  import opened LegacyCfg
  import opened LegacyPhases

  /** At most this many rounds of threading and of merging. */
  const PASSES: nat := 16

  class LegacyFunction {
    var blocks: Cfg

    ghost predicate Valid()
      reads this
    {
      blocks != [] && DistinctIds(blocks)
    }

    constructor (f: Cfg)
      requires f != [] && DistinctIds(f)
      ensures Valid() && blocks == f
    {
      blocks := f;
    }

    // ---------- same-target branches ----------

    method CollapseBranches()
      requires Valid()
      modifies this
      ensures Valid() && Refines(old(blocks), blocks)
      ensures forall b :: b in blocks ==> !Collapsible(b)
    {
      hide Refines;
      for i := 0 to |blocks|
        invariant |blocks| == |old(blocks)|
        invariant forall j :: 0 <= j < i ==> blocks[j] == Collapse(old(blocks)[j])
        invariant forall j :: i <= j < |blocks| ==> blocks[j] == old(blocks)[j]
      {
        var b := blocks[i];
        if b.instrs != [] && Last(b.instrs).Branch? && |b.succs| == 2 && b.succs[0] == b.succs[1] {
          blocks := blocks[i := Block(b.id, b.instrs[..|b.instrs| - 1] + [Jump], [b.succs[0]])];
        }
      }
      CollapseRefines(old(blocks), blocks);
      SameIdsDistinct(old(blocks), blocks);
    }

    // ---------- threading ----------

    /** Follow the jumps from `b`, stopping at a block with work of its own, at a missing block, or on a cycle. */
    method FollowJumps(b: Block) returns (target: BlockId)
      requires Valid() && b in blocks && OnlyJumps(b)
      ensures LeadsTo(blocks, b.id, target)
      ensures forall t :: Exits(blocks, b.id, t) ==> target == t
    {
      hide LeadsTo, Exits;
      ghost var ids := set c | c in blocks :: c.id;
      target := b.succs[0];
      FirstHop(blocks, b);
      var seen := {b.id};
      while target !in seen
        invariant seen <= ids && b.id in seen
        invariant AllLeadTo(blocks, seen, target)
        invariant ExitsBeyond(blocks, b.id, target)
        decreases ids - seen
      {
        ghost var before, was := seen, target;
        seen := seen + {target};
        var next := Lookup(blocks, target);
        if next.None? || !OnlyJumps(next.value) {
          NoHopsFrom(blocks, target);
          return;
        }
        target := next.value.succs[0];
        AllLeadOn(blocks, before, was);
        BeyondOn(blocks, b.id, was);
      }
      NoExitOnCycle(blocks, target);
    }

    method ComputeForwarding() returns (forward: map<BlockId, BlockId>)
      requires Valid()
      ensures SoundForwarding(blocks, forward)
      ensures forall a :: a in forward ==> a != blocks[0].id && Lookup(blocks, forward[a]).Some?
      ensures CompleteForwarding(blocks, forward)
    {
      forward := map[];
      assert CompleteUpTo(blocks, forward, 0);
      hide LeadsTo, Exits, CompleteUpTo, CompleteForwarding, Lookup;
      for i := 0 to |blocks|
        invariant SoundForwarding(blocks, forward)
        invariant forall a :: a in forward ==> a != blocks[0].id && Lookup(blocks, forward[a]).Some?
        invariant CompleteUpTo(blocks, forward, i)
      {
        var b := blocks[i];
        ghost var before := forward;
        ExitFrom(blocks, i);
        if b.id == blocks[0].id || !OnlyJumps(b) {
          CompleteNext(blocks, before, forward, i);
          continue;
        }
        var target := FollowJumps(b);
        if target != b.id && Lookup(blocks, target).Some? {
          forward := forward[b.id := target];
        }
        CompleteNext(blocks, before, forward, i);
      }
      CompleteAll(blocks, forward);
    }

    method RedirectBlock(i: nat, forward: map<BlockId, BlockId>) returns (changed: bool)
      requires i < |blocks|
      modifies this
      ensures blocks == old(blocks)[i := Redirected(old(blocks)[i], forward)]
      ensures changed <==> blocks[i] != old(blocks)[i]
    {
      changed := false;
      var b := blocks[i];
      var succs := b.succs;
      for k := 0 to |succs|
        invariant |succs| == |b.succs|
        invariant forall m :: 0 <= m < k ==> succs[m] == Redirect(forward, b.succs[m])
        invariant forall m :: k <= m < |succs| ==> succs[m] == b.succs[m]
        invariant changed <==> succs != b.succs
      {
        if succs[k] in forward && succs[k] != forward[succs[k]] {
          succs := succs[k := forward[succs[k]]];
          changed := true;
        }
      }
      assert succs == Redirected(b, forward).succs;
      blocks := blocks[i := Block(b.id, b.instrs, succs)];
    }

    method RedirectAll(forward: map<BlockId, BlockId>) returns (changed: bool)
      requires Valid() && SoundForwarding(blocks, forward) && CompleteForwarding(blocks, forward)
      requires blocks[0].id !in forward
      modifies this
      ensures Valid() && Refines(old(blocks), blocks)
      ensures NothingForwards(blocks) && (changed <==> blocks != old(blocks))
    {
      hide Refines, SoundForwarding, CompleteForwarding, NothingForwards, DistinctIds, Redirected;
      changed := false;
      for i := 0 to |blocks|
        invariant |blocks| == |old(blocks)|
        invariant forall j :: 0 <= j < i ==> blocks[j] == Redirected(old(blocks)[j], forward)
        invariant forall j :: i <= j < |blocks| ==> blocks[j] == old(blocks)[j]
        invariant changed <==> blocks != old(blocks)
      {
        var c := RedirectBlock(i, forward);
        changed := changed || c;
      }
      ThreadRefines(old(blocks), blocks, forward);
      SameIdsDistinct(old(blocks), blocks);
      NothingLeft(old(blocks), blocks, forward);
    }

    /** The first round already leaves nothing to forward, so the bound on rounds is never what ends the loop. */
    method ThreadJumps()
      requires Valid()
      modifies this
      ensures Valid() && Refines(old(blocks), blocks)
      ensures NothingForwards(blocks)
    {
      hide Refines, DistinctIds, SoundForwarding, CompleteForwarding, NothingForwards;
      RefinesSelf(blocks);
      for pass := 0 to PASSES
        invariant Valid() && Refines(old(blocks), blocks)
        invariant pass > 0 ==> NothingForwards(blocks)
      {
        var forward := ComputeForwarding();
        if forward == map[] {
          NothingToForward(blocks);
          break;
        }
        ghost var before := blocks;
        var changed := RedirectAll(forward);
        RefinesTrans(old(blocks), before, blocks);
        if !changed { break; }
      }
    }

    // ---------- merging ----------

    method Predecessors() returns (preds: map<BlockId, seq<BlockId>>)
      ensures Records(preds, blocks, |blocks|)
    {
      hide Records, RecordsPart, Listed, EntriesOf, Mentions;
      preds := map[];
      NoRecords(blocks);
      for i := 0 to |blocks|
        invariant Records(preds, blocks, i)
      {
        var b := blocks[i];
        StartRecord(preds, blocks, i);
        for k := 0 to |b.succs|
          invariant RecordsPart(preds, blocks, i, k)
        {
          var s := b.succs[k];
          ghost var before := preds;
          preds := preds[s := Listed(preds, s) + [b.id]];
          RecordNext(before, preds, blocks, i, k);
        }
        EndRecord(preds, blocks, i);
      }
    }

    method FindBlock(id: BlockId) returns (p: nat)
      ensures p <= |blocks| && (p < |blocks| ==> blocks[p].id == id)
      ensures p == |blocks| ==> forall j :: 0 <= j < |blocks| ==> blocks[j].id != id
    {
      p := 0;
      while p < |blocks| && blocks[p].id != id
        invariant p <= |blocks| && forall j :: 0 <= j < p ==> blocks[j].id != id
      {
        p := p + 1;
      }
    }

    /** Merge the first block that its only predecessor just jumps to. */
    method MergeOnce() returns (merged: bool)
      requires Valid()
      modifies this
      ensures Valid() && Refines(old(blocks), blocks)
      ensures merged ==> |blocks| == |old(blocks)| - 1
      ensures merged ==> MergesTwo(old(blocks), blocks)
      ensures !merged ==> blocks == old(blocks)
      ensures !merged ==> NothingMerges(blocks)
    {
      RefinesSelf(blocks);
      NoneBelowFirst(blocks);
      hide Refines, EntriesOf, Mergeable, Merged, NoneBelow, NothingMerges, MergesTwo, DistinctIds;
      var preds := Predecessors();
      for i := 1 to |blocks|
        invariant blocks == old(blocks)
        invariant NoneBelow(blocks, i)
      {
        OneMore(blocks, i);
        assert Listed(preds, blocks[i].id) == EntriesOf(blocks, |blocks|, blocks[i].id);
        var b := blocks[i];
        if b.instrs == [] || b.id !in preds || |preds[b.id]| != 1 { continue; }
        var p := FindBlock(preds[b.id][0]);
        if p == |blocks| { continue; }
        var pred := blocks[p];
        if pred.succs != [b.id] || pred.instrs == [] || Last(pred.instrs) != Jump { continue; }
        SoleEntry(blocks, p, i);
        MergeTwo(blocks, p, i);
        var instrs := pred.instrs[..|pred.instrs| - 1] + b.instrs;
        blocks := blocks[p := Block(pred.id, instrs, b.succs)];
        blocks := blocks[..i] + blocks[i + 1..];
        return true;
      }
      AllBelow(blocks);
      return false;
    }

    /** Unless all rounds merged a block, no two blocks are left that could be merged. */
    method MergeLinear()
      requires Valid()
      modifies this
      ensures Valid() && Refines(old(blocks), blocks)
      ensures |blocks| == |old(blocks)| - PASSES || NothingMerges(blocks)
    {
      hide Refines, DistinctIds, NothingMerges, Mergeable, Merged;
      RefinesSelf(blocks);
      for pass := 0 to PASSES
        invariant Valid() && Refines(old(blocks), blocks)
        invariant |blocks| == |old(blocks)| - pass
      {
        ghost var before := blocks;
        var merged := MergeOnce();
        RefinesTrans(old(blocks), before, blocks);
        if !merged { return; }
      }
    }

    // ---------- trimming ----------

    method ComputeReachable() returns (reach: set<BlockId>)
      requires Valid()
      ensures forall id :: id in reach <==> Reachable(blocks, id)
      ensures Closed(blocks, reach) && blocks[0].id in reach
    {
      ghost var all := Mentioned(blocks);
      reach := {};
      var work := [blocks[0].id];
      EntryReachable(blocks);
      hide Reachable;
      while work != []
        invariant reach <= all && forall id :: id in work ==> id in all
        invariant forall id :: id in reach || id in work ==> Reachable(blocks, id)
        invariant forall a, b :: a in reach && Edge(blocks, a, b) ==> b in reach || b in work
        invariant blocks[0].id in reach || blocks[0].id in work
        decreases all - reach, |work|
      {
        var id := work[|work| - 1];
        assert id in work;
        ghost var was, before := reach, work;
        work := work[..|work| - 1];
        OffTheTop(before);
        if id in reach { continue; }
        reach := reach + {id};
        var b := Lookup(blocks, id);
        if b.Some? {
          forall s | s in b.value.succs ensures s in all && Reachable(blocks, s) {
            assert Edge(blocks, id, s);
            ReachableNext(blocks, id, s);
            EdgeMentioned(blocks, id, s);
          }
          work := work + b.value.succs;
        }
        assert all - reach < all - was by { assert id in all - was; }
      }
      Everything(blocks, reach);
    }

    method TrimUnreachable()
      requires Valid()
      modifies this
      ensures Valid() && Refines(old(blocks), blocks)
      ensures exists reach: set<BlockId> ::
                (forall id :: id in reach <==> Reachable(old(blocks), id)) && blocks == Trim(old(blocks), reach)
      ensures forall b :: b in blocks ==> Reachable(blocks, b.id)
    {
      hide Refines, Reachable;
      var reach := ComputeReachable();
      var kept: Cfg := [];
      assert blocks[0..] == blocks;
      for i := 0 to |blocks|
        invariant blocks == old(blocks)
        invariant kept + Trim(blocks[i..], reach) == Trim(blocks, reach)
      {
        hide Trim;
        var b := blocks[i];
        TrimNext(blocks, i, reach, kept);
        if b.id !in reach { continue; }
        kept := kept + [Block(b.id, b.instrs, Keep(b.succs, reach))];
      }
      TrimRefines(blocks, reach);
      assert blocks[|blocks|..] == [] && kept + [] == kept;
      TrimAllReachable(blocks, reach);
      blocks := kept;
    }

    /** The control-flow phases in their order: every run does the same work, and ends the same way or not at all. */
    method OptimizeControlFlow()
      requires Valid()
      modifies this
      ensures Valid() && Refines(old(blocks), blocks)
      ensures forall choose: Choose, c :: Ends(old(blocks), choose, c) <==> Ends(blocks, choose, c)
      ensures forall choose: Choose, work :: Performs(old(blocks), choose, work) <==> Performs(blocks, choose, work)
      ensures forall b :: b in blocks ==> Reachable(blocks, b.id)
    {
      hide Refines, DistinctIds, Reachable;
      CollapseBranches();
      ghost var b1 := blocks;
      ThreadJumps();
      ghost var b2 := blocks;
      RefinesTrans(old(blocks), b1, b2);
      MergeLinear();
      ghost var b3 := blocks;
      RefinesTrans(old(blocks), b2, b3);
      TrimUnreachable();
      RefinesTrans(old(blocks), b3, blocks);
      hide Ends, Performs;
      forall choose: Choose, c ensures Ends(old(blocks), choose, c) <==> Ends(blocks, choose, c) {
        SameBehaviour(old(blocks), blocks, choose);
      }
      forall choose: Choose, work ensures Performs(old(blocks), choose, work) <==> Performs(blocks, choose, work) {
        SameBehaviour(old(blocks), blocks, choose);
      }
    }
  }

  lemma {:induction false} FirstHop(f: Cfg, b: Block)
    requires DistinctIds(f) && b in f && OnlyJumps(b)
    ensures LeadsTo(f, b.id, b.succs[0]) && ExitsBeyond(f, b.id, b.succs[0])
  {
    var i :| 0 <= i < |f| && f[i] == b;
    LookupAt(f, i);
    ExitOn(f, b.id);
  }

  // ---------- where jumps lead ----------

  /** Jumps alone lead from `a` to `t`, a block with work of its own. */
  ghost predicate Exits(f: Cfg, a: BlockId, t: BlockId) {
    LeadsTo(f, a, t) && Lookup(f, t).Some? && !OnlyJumps(Lookup(f, t).value)
  }

  /** No successor other than the entry stands for a detour through blocks that only jump. */
  ghost predicate NothingForwards(f: Cfg) {
    forall b, s, t :: b in f && s in b.succs && s != f[0].id ==> !Exits(f, s, t)
  }

  ghost predicate CompleteForwarding(f: Cfg, forward: map<BlockId, BlockId>) {
    forall a, t :: Exits(f, a, t) && a != f[0].id ==> a in forward && forward[a] == t
  }

  ghost predicate CompleteUpTo(f: Cfg, forward: map<BlockId, BlockId>, i: nat)
    requires i <= |f|
  {
    forall j, t :: 0 <= j < i && f[j].id != f[0].id && Exits(f, f[j].id, t) ==> f[j].id in forward && forward[f[j].id] == t
  }

  ghost predicate AllLeadTo(f: Cfg, seen: set<BlockId>, target: BlockId) {
    forall x :: x in seen ==> LeadsTo(f, x, target)
  }

  /** Where the jumps from `a` end, those from `target` end too. */
  ghost predicate ExitsBeyond(f: Cfg, a: BlockId, target: BlockId) {
    forall t :: Exits(f, a, t) ==> target == t || Exits(f, target, t)
  }

  lemma {:induction false} HopsAlong(f: Cfg, a: BlockId, b: BlockId, m: nat, c: BlockId, n: nat)
    requires Hops(f, a, b, m) && Hops(f, a, c, n) && m <= n
    ensures if m == n then b == c else Hops(f, b, c, n - m)
    decreases m
  {
    if m > 1 { HopsAlong(f, Lookup(f, a).value.succs[0], b, m - 1, c, n - 1); }
  }

  lemma {:induction false} ExitOn(f: Cfg, a: BlockId)
    requires Lookup(f, a).Some? && OnlyJumps(Lookup(f, a).value)
    ensures ExitsBeyond(f, a, Lookup(f, a).value.succs[0])
    ensures LeadsTo(f, a, Lookup(f, a).value.succs[0])
  {
    var next := Lookup(f, a).value.succs[0];
    assert Hops(f, a, next, 1);
    forall t | Exits(f, a, t) ensures next == t || Exits(f, next, t) {
      var k: nat :| Hops(f, a, t, k);
      if k > 1 { assert Hops(f, next, t, k - 1); }
    }
  }

  lemma {:induction false} BeyondOn(f: Cfg, a: BlockId, target: BlockId)
    requires ExitsBeyond(f, a, target) && Lookup(f, target).Some? && OnlyJumps(Lookup(f, target).value)
    ensures ExitsBeyond(f, a, Lookup(f, target).value.succs[0])
  {
    ExitOn(f, target);
    forall t | Exits(f, a, t)
      ensures var next := Lookup(f, target).value.succs[0]; next == t || Exits(f, next, t)
    {
      assert target != t;
    }
  }

  lemma {:induction false} NoHopsFrom(f: Cfg, a: BlockId)
    requires Lookup(f, a).None? || !OnlyJumps(Lookup(f, a).value)
    ensures forall t :: !Exits(f, a, t)
    ensures Lookup(f, a).None? ==> forall b :: !Exits(f, b, a)
  {
  }

  lemma {:induction false} AllLeadOn(f: Cfg, seen: set<BlockId>, a: BlockId)
    requires AllLeadTo(f, seen, a) && Lookup(f, a).Some? && OnlyJumps(Lookup(f, a).value)
    ensures AllLeadTo(f, seen + {a}, Lookup(f, a).value.succs[0])
  {
    var next := Lookup(f, a).value.succs[0];
    forall x | x in seen + {a} ensures LeadsTo(f, x, next) {
      if x in seen { LeadsOn(f, x, a); } else { ExitOn(f, a); }
    }
  }

  lemma {:induction false} LeadsThrough(f: Cfg, a: BlockId, b: BlockId, m: nat, t: BlockId)
    requires Hops(f, a, b, m) && LeadsTo(f, b, t)
    ensures LeadsTo(f, a, t)
    decreases m
  {
    var next := Lookup(f, a).value.succs[0];
    if m > 1 { LeadsThrough(f, next, b, m - 1, t); }
    var k: nat :| Hops(f, next, t, k);
    assert Hops(f, a, t, k + 1);
  }

  /** Jumps that go round in a circle end nowhere. */
  lemma {:induction false} NoExitOnCycle(f: Cfg, a: BlockId)
    requires LeadsTo(f, a, a)
    ensures forall t :: !Exits(f, a, t)
    ensures forall b :: !Exits(f, b, a)
  {
    var m: nat :| Hops(f, a, a, m);
    forall t ensures !Exits(f, a, t) {
      if Exits(f, a, t) {
        var k: nat :| Hops(f, a, t, k);
        NotPast(f, a, m, t, k);
      }
    }
  }

  lemma {:induction false} NotPast(f: Cfg, a: BlockId, m: nat, t: BlockId, k: nat)
    requires Hops(f, a, a, m) && Hops(f, a, t, k)
    ensures exists n: nat :: Hops(f, t, a, n)
    decreases k
  {
    if k < m {
      HopsAlong(f, a, t, k, a, m);
      assert Hops(f, t, a, m - k);
    } else if k == m {
      HopsAlong(f, a, a, m, t, k);
    } else {
      HopsAlong(f, a, a, m, t, k);
      NotPast(f, a, m, t, k - m);
    }
  }

  lemma {:induction false} ExitFrom(f: Cfg, i: nat)
    requires DistinctIds(f) && i < |f|
    ensures Lookup(f, f[i].id) == Some(f[i])
    ensures forall t :: Exits(f, f[i].id, t) ==> OnlyJumps(f[i]) && t != f[i].id && Lookup(f, t).Some?
  {
    LookupAt(f, i);
  }

  lemma {:induction false} CompleteNext(f: Cfg, before: map<BlockId, BlockId>, forward: map<BlockId, BlockId>, i: nat)
    requires DistinctIds(f) && i < |f| && CompleteUpTo(f, before, i)
    requires forall a :: a in before && a != f[i].id ==> a in forward && forward[a] == before[a]
    requires forall t :: Exits(f, f[i].id, t) && f[i].id != f[0].id ==> f[i].id in forward && forward[f[i].id] == t
    ensures CompleteUpTo(f, forward, i + 1)
  {
    hide Exits;
    forall j, t | 0 <= j < i + 1 && f[j].id != f[0].id && Exits(f, f[j].id, t)
      ensures f[j].id in forward && forward[f[j].id] == t
    {
      if j < i { assert f[j].id != f[i].id; }
    }
  }

  lemma {:induction false} CompleteAll(f: Cfg, forward: map<BlockId, BlockId>)
    requires f != [] && CompleteUpTo(f, forward, |f|)
    ensures CompleteForwarding(f, forward)
  {
    forall a, t | Exits(f, a, t) && a != f[0].id ensures a in forward && forward[a] == t {
      var j := LookupIndex(f, a);
    }
  }

  lemma {:induction false} NothingToForward(f: Cfg)
    requires f != [] && CompleteForwarding(f, map[])
    ensures NothingForwards(f)
  {
    hide Exits;
  }

  /** A jump of the redirected program follows one or more jumps of the program before. */
  lemma {:induction false} HopsBefore(f: Cfg, g: Cfg, forward: map<BlockId, BlockId>, a: BlockId, t: BlockId, k: nat)
    requires DistinctIds(f) && SoundForwarding(f, forward)
    requires |g| == |f| && forall i :: 0 <= i < |f| ==> g[i] == Redirected(f[i], forward)
    requires Hops(g, a, t, k)
    ensures LeadsTo(f, a, t)
    decreases k
  {
    hide LeadsTo;
    Corresponding(f, g, a);
    ExitOn(f, a);
    var mid, next := Lookup(f, a).value.succs[0], Lookup(g, a).value.succs[0];
    assert next == Redirect(forward, mid);
    if mid != next { Through(f, a, mid, next); }
    if k > 1 {
      HopsBefore(f, g, forward, next, t, k - 1);
      Through(f, a, next, t);
    }
  }

  lemma {:induction false} Through(f: Cfg, a: BlockId, b: BlockId, t: BlockId)
    requires LeadsTo(f, a, b) && LeadsTo(f, b, t)
    ensures LeadsTo(f, a, t)
  {
    var m: nat :| Hops(f, a, b, m);
    LeadsThrough(f, a, b, m, t);
  }

  lemma {:induction false} ExitsBefore(f: Cfg, g: Cfg, forward: map<BlockId, BlockId>, a: BlockId, t: BlockId)
    requires DistinctIds(f) && SoundForwarding(f, forward)
    requires |g| == |f| && forall i :: 0 <= i < |f| ==> g[i] == Redirected(f[i], forward)
    requires Exits(g, a, t)
    ensures Exits(f, a, t)
  {
    var k: nat :| Hops(g, a, t, k);
    HopsBefore(f, g, forward, a, t, k);
    Corresponding(f, g, t);
  }

  /** One round of threading leaves nothing to forward. */
  lemma {:induction false} NothingLeft(f: Cfg, g: Cfg, forward: map<BlockId, BlockId>)
    requires f != [] && DistinctIds(f) && SoundForwarding(f, forward) && CompleteForwarding(f, forward)
    requires f[0].id !in forward
    requires |g| == |f| && forall i :: 0 <= i < |f| ==> g[i] == Redirected(f[i], forward)
    ensures NothingForwards(g)
  {
    hide Exits, LeadsTo;
    forall b, s, t | b in g && s in b.succs && s != g[0].id ensures !Exits(g, s, t) {
      if Exits(g, s, t) {
        ExitsBefore(f, g, forward, s, t);
        var i :| 0 <= i < |g| && g[i] == b;
        var k :| 0 <= k < |b.succs| && b.succs[k] == s;
        var s0 := f[i].succs[k];
        assert s == Redirect(forward, s0);
        if s0 in forward { ThroughExit(f, s0, s, t); }
      }
    }
  }

  lemma {:induction false} ThroughExit(f: Cfg, a: BlockId, b: BlockId, t: BlockId)
    requires LeadsTo(f, a, b) && Exits(f, b, t)
    ensures Exits(f, a, t) && b != t
  {
    Through(f, a, b, t);
  }

  // ---------- who enters a block ----------

  function Listed(preds: map<BlockId, seq<BlockId>>, s: BlockId): seq<BlockId> {
    if s in preds then preds[s] else []
  }

  /** The id of `b`, once for each of its first `k` successors that is `s`. */
  ghost function Mentions(b: Block, k: nat, s: BlockId): seq<BlockId>
    requires k <= |b.succs|
  {
    if k == 0 then [] else Mentions(b, k - 1, s) + (if b.succs[k - 1] == s then [b.id] else [])
  }

  /** The blocks among the first `n` that name `s`, in order and once for each mention. */
  ghost function EntriesOf(f: Cfg, n: nat, s: BlockId): seq<BlockId>
    requires n <= |f|
  {
    if n == 0 then [] else EntriesOf(f, n - 1, s) + Mentions(f[n - 1], |f[n - 1].succs|, s)
  }

  ghost predicate Records(preds: map<BlockId, seq<BlockId>>, f: Cfg, n: nat)
    requires n <= |f|
  {
    forall s :: Listed(preds, s) == EntriesOf(f, n, s)
  }

  ghost predicate RecordsPart(preds: map<BlockId, seq<BlockId>>, f: Cfg, i: nat, k: nat)
    requires i < |f| && k <= |f[i].succs|
  {
    forall s :: Listed(preds, s) == EntriesOf(f, i, s) + Mentions(f[i], k, s)
  }

  lemma {:induction false} NoRecords(f: Cfg)
    ensures Records(map[], f, 0)
  {
  }

  lemma {:induction false} StartRecord(preds: map<BlockId, seq<BlockId>>, f: Cfg, i: nat)
    requires i < |f| && Records(preds, f, i)
    ensures RecordsPart(preds, f, i, 0)
  {
    hide EntriesOf;
  }

  lemma {:induction false} RecordOne(before: map<BlockId, seq<BlockId>>, preds: map<BlockId, seq<BlockId>>, b: Block, k: nat, s: BlockId)
    requires k < |b.succs| && preds == before[b.succs[k] := Listed(before, b.succs[k]) + [b.id]]
    ensures Listed(preds, s) == if b.succs[k] == s then Listed(before, s) + [b.id] else Listed(before, s)
    ensures Mentions(b, k + 1, s) == if b.succs[k] == s then Mentions(b, k, s) + [b.id] else Mentions(b, k, s)
  {
  }

  lemma {:induction false} RecordNext(before: map<BlockId, seq<BlockId>>, preds: map<BlockId, seq<BlockId>>, f: Cfg, i: nat, k: nat)
    requires i < |f| && k < |f[i].succs| && RecordsPart(before, f, i, k)
    requires preds == before[f[i].succs[k] := Listed(before, f[i].succs[k]) + [f[i].id]]
    ensures RecordsPart(preds, f, i, k + 1)
  {
    hide EntriesOf, Mentions, Listed;
    var b := f[i];
    forall s ensures Listed(preds, s) == EntriesOf(f, i, s) + Mentions(b, k + 1, s) {
      assert Listed(before, s) == EntriesOf(f, i, s) + Mentions(b, k, s);
      Associative(EntriesOf(f, i, s), Mentions(b, k, s), [b.id]);
      RecordOne(before, preds, b, k, s);
    }
  }

  lemma {:induction false} EndRecord(preds: map<BlockId, seq<BlockId>>, f: Cfg, i: nat)
    requires i < |f| && RecordsPart(preds, f, i, |f[i].succs|)
    ensures Records(preds, f, i + 1)
  {
    hide Mentions, Listed;
    forall s ensures Listed(preds, s) == EntriesOf(f, i + 1, s) {
      assert Listed(preds, s) == EntriesOf(f, i, s) + Mentions(f[i], |f[i].succs|, s);
    }
  }

  lemma {:induction false} MentionsAll(b: Block, k: nat, s: BlockId)
    requires k <= |b.succs| && s in b.succs[..k]
    ensures b.id in Mentions(b, k, s)
  {
    if b.succs[k - 1] != s {
      assert s in b.succs[..k - 1] by { assert b.succs[..k] == b.succs[..k - 1] + [b.succs[k - 1]]; }
      MentionsAll(b, k - 1, s);
    }
  }

  lemma {:induction false} EntryListed(f: Cfg, n: nat, j: nat, s: BlockId)
    requires j < n <= |f| && s in f[j].succs
    ensures f[j].id in EntriesOf(f, n, s)
  {
    if j == n - 1 {
      assert f[j].succs[..|f[j].succs|] == f[j].succs;
      MentionsAll(f[j], |f[j].succs|, s);
    } else {
      EntryListed(f, n - 1, j, s);
    }
  }

  ghost predicate NothingMerges(f: Cfg) {
    forall p: nat, i: nat :: !Mergeable(f, p, i)
  }

  ghost predicate NoneBelow(f: Cfg, n: nat) {
    forall p: nat, i: nat :: i < n ==> !Mergeable(f, p, i)
  }

  /** `g` is `f` after one block has been merged into the only block that enters it. */
  ghost predicate MergesTwo(f: Cfg, g: Cfg) {
    exists p: nat, i: nat :: Mergeable(f, p, i) && g == Merged(f, p, i)
  }

  lemma {:induction false} NoneBelowFirst(f: Cfg)
    ensures NoneBelow(f, 1)
  {
  }

  lemma {:induction false} AllBelow(f: Cfg)
    requires NoneBelow(f, |f|)
    ensures NothingMerges(f)
  {
  }

  /** What tells a block that can be merged, and where it is merged into. */
  lemma {:induction false} OneMore(f: Cfg, i: nat)
    requires i < |f| && NoneBelow(f, i) && DistinctIds(f)
    ensures
      NoneBelow(f, i + 1) || (f[i].instrs != [] && exists p: nat :: EntersAlone(f, p, i))
  {
    hide Mergeable, EntriesOf, DistinctIds;
    if p: nat :| Mergeable(f, p, i) { OneEntry(f, p, i); }
  }

  lemma {:induction false} MergeTwo(f: Cfg, p: nat, i: nat)
    requires Mergeable(f, p, i) && DistinctIds(f)
    ensures p < |f| && i < |f| && f[p].instrs != []
    ensures
      var g := f[p := Block(f[p].id, f[p].instrs[..|f[p].instrs| - 1] + f[i].instrs, f[i].succs)];
      MergesTwo(f, g[..i] + g[i + 1..]) && Refines(f, g[..i] + g[i + 1..])
      && DistinctIds(g[..i] + g[i + 1..]) && g[..i] + g[i + 1..] != []
  {
    hide Refines;
    MergeRefines(f, p, i);
    MergedIds(f, p, i);
    assert MergesTwo(f, Merged(f, p, i));
  }

  lemma {:induction false} NoMention(b: Block, k: nat, s: BlockId)
    requires k <= |b.succs| && s !in b.succs
    ensures Mentions(b, k, s) == []
  {
    if k > 0 { NoMention(b, k - 1, s); }
  }

  lemma {:induction false} MentionedOnce(f: Cfg, j: nat, p: nat, i: nat)
    requires Mergeable(f, p, i) && j < |f|
    ensures Mentions(f[j], |f[j].succs|, f[i].id) == if j == p then [f[p].id] else []
  {
    if j == p {
      assert Mentions(f[p], 0, f[i].id) == [];
    } else {
      NoMention(f[j], |f[j].succs|, f[i].id);
    }
  }

  lemma {:induction false} EntriesOfOne(f: Cfg, n: nat, p: nat, i: nat)
    requires Mergeable(f, p, i) && n <= |f|
    ensures EntriesOf(f, n, f[i].id) == if p < n then [f[p].id] else []
  {
    if n > 0 {
      hide Mentions;
      EntriesOfOne(f, n - 1, p, i);
      MentionedOnce(f, n - 1, p, i);
    }
  }

  ghost predicate EntersAlone(f: Cfg, p: nat, i: nat) {
    && p < |f| && i < |f| && EntriesOf(f, |f|, f[i].id) == [f[p].id]
    && f[p].succs == [f[i].id] && f[p].instrs != [] && Last(f[p].instrs) == Jump
    && forall q :: 0 <= q < |f| && f[q].id == f[p].id ==> q == p
  }

  lemma {:induction false} OneEntry(f: Cfg, p: nat, i: nat)
    requires Mergeable(f, p, i) && DistinctIds(f)
    ensures 1 <= i < |f| && f[i].instrs != [] && EntersAlone(f, p, i)
  {
    EntriesOfOne(f, |f|, p, i);
  }

  lemma {:induction false} SoleEntry(f: Cfg, p: nat, i: nat)
    requires DistinctIds(f) && p < |f| && 1 <= i < |f| && f[i].instrs != [] && f[p].instrs != []
    requires f[p].succs == [f[i].id] && Last(f[p].instrs) == Jump
    requires EntriesOf(f, |f|, f[i].id) == [f[p].id]
    ensures Mergeable(f, p, i)
  {
    forall j | 0 <= j < |f| && f[i].id in f[j].succs ensures j == p {
      EntryListed(f, |f|, j, f[i].id);
      assert f[j].id == f[p].id;
    }
  }

  lemma {:induction false} TrimNext(f: Cfg, i: nat, reach: set<BlockId>, kept: Cfg)
    requires i < |f|
    ensures var b := f[i];
            kept + Trim(f[i..], reach)
            == (if b.id in reach then kept + [Block(b.id, b.instrs, Keep(b.succs, reach))] else kept) + Trim(f[i + 1..], reach)
  {
    hide Keep;
    assert f[i..][0] == f[i] && f[i..][1..] == f[i + 1..];
    var rest := Trim(f[i + 1..], reach);
    if f[i].id in reach {
      var x := [Block(f[i].id, f[i].instrs, Keep(f[i].succs, reach))];
      assert kept + (x + rest) == kept + x + rest;
    } else {
      assert [] + rest == rest;
    }
  }

  /** What trimming keeps is still reachable afterwards. */
  lemma {:induction false} TrimAllReachable(f: Cfg, reach: set<BlockId>)
    requires f != [] && DistinctIds(f) && Closed(f, reach) && f[0].id in reach
    requires forall id :: id in reach <==> Reachable(f, id)
    ensures forall b :: b in Trim(f, reach) ==> Reachable(Trim(f, reach), b.id)
  {
    var g := Trim(f, reach);
    forall b | b in g ensures Reachable(g, b.id) {
      assert Reachable(f, b.id);
      var p :| IsPath(f, p) && p[|p| - 1] == b.id;
      TrimFirst(f, reach);
      forall k | 0 <= k < |p| - 1 ensures Edge(g, p[k], p[k + 1]) {
        ClosedHolds(f, reach, p, k);
        TrimLookup(f, reach, p[k]);
        assert Edge(f, p[k], p[k + 1]);
      }
      assert IsPath(g, p);
    }
  }

  /** Every id a program mentions. */
  ghost function Mentioned(f: Cfg): set<BlockId> {
    (set b | b in f :: b.id) + (set b, s | b in f && s in b.succs :: s)
  }

  lemma {:induction false} EdgeMentioned(f: Cfg, a: BlockId, s: BlockId)
    requires Edge(f, a, s)
    ensures s in Mentioned(f)
  {
    var b := Lookup(f, a).value;
    assert b in f && s in b.succs;
  }

  lemma {:induction false} OffTheTop(work: seq<BlockId>)
    requires work != []
    ensures forall x :: x in work <==> x in work[..|work| - 1] || x == work[|work| - 1]
  {
    assert work == work[..|work| - 1] + [work[|work| - 1]];
  }

  lemma {:induction false} Everything(f: Cfg, reach: set<BlockId>)
    requires f != [] && DistinctIds(f) && f[0].id in reach
    requires forall a, b :: a in reach && Edge(f, a, b) ==> b in reach
    ensures Closed(f, reach) && forall id :: Reachable(f, id) ==> id in reach
  {
    forall j, s | 0 <= j < |f| && f[j].id in reach && s in f[j].succs ensures s in reach {
      LookupAt(f, j);
      assert Edge(f, f[j].id, s);
    }
    forall id | Reachable(f, id) ensures id in reach {
      var p :| IsPath(f, p) && p[|p| - 1] == id;
      ClosedHolds(f, reach, p, |p| - 1);
    }
  }
}

/** The control-flow phases of the legacy optimizer (src/compiler/ir_optimizer.cpp): same-target branch collapse,
    threading of empty jumps, merging of linear blocks, trimming of unreachable blocks. Each leaves the behaviour of
    every run as it was. */
module LegacyPhases {
  import opened Wrappers
  import opened Sequences
  import opened LegacyCfg

  // ---------- rewriting every block in place ----------

  ghost predicate SameIds(f: Cfg, g: Cfg) {
    |g| == |f| && forall i :: 0 <= i < |f| ==> g[i].id == f[i].id
  }

  lemma {:induction false} SameIdsDistinct(f: Cfg, g: Cfg)
    requires SameIds(f, g) && DistinctIds(f)
    ensures DistinctIds(g)
  {
    forall i, j | 0 <= i < j < |g| ensures g[i].id != g[j].id { assert f[i].id != f[j].id; }
  }

  /** A step of `g` is a step of `f` wherever the two blocks with that id agree on it. */
  lemma {:induction false} Corresponding(f: Cfg, g: Cfg, id: BlockId)
    requires SameIds(f, g) && DistinctIds(f)
    ensures Lookup(f, id).None? <==> Lookup(g, id).None?
    ensures Lookup(f, id).Some? ==> exists i :: 0 <= i < |f| && Lookup(f, id) == Some(f[i]) && Lookup(g, id) == Some(g[i])
  {
    SameIdsDistinct(f, g);
    if Lookup(f, id).Some? {
      var i := LookupIndex(f, id);
      LookupAt(g, i);
      assert g[i].id == f[i].id;
    } else if Lookup(g, id).Some? {
      var i := LookupIndex(g, id);
      assert g[i].id == f[i].id;
      LookupAt(f, i);
    }
  }

  // ---------- same-target branches ----------

  predicate Collapsible(b: Block) {
    b.instrs != [] && Last(b.instrs).Branch? && |b.succs| == 2 && b.succs[0] == b.succs[1]
  }

  function Collapse(b: Block): Block {
    if Collapsible(b) then Block(b.id, b.instrs[..|b.instrs| - 1] + [Jump], [b.succs[0]]) else b
  }

  lemma {:induction false} DoneDropsLast(instrs: seq<Instr>)
    requires instrs != [] && !Last(instrs).Work?
    ensures Done(instrs) == Done(instrs[..|instrs| - 1])
    ensures Done(instrs[..|instrs| - 1] + [Jump]) == Done(instrs)
  {
    var init := instrs[..|instrs| - 1];
    assert instrs == init + [Last(instrs)];
    DoneConcat(init, [Last(instrs)]);
    DoneConcat(init, [Jump]);
    assert Done([Last(instrs)]) == [] && Done([Jump]) == [];
  }

  lemma {:induction false} CollapseLeaves(b: Block, choose: Choose, done: seq<Instr>)
    ensures Done(Collapse(b).instrs) == Done(b.instrs)
    ensures Leave(Collapse(b), choose, done) == Leave(b, choose, done)
  {
    if Collapsible(b) {
      DoneDropsLast(b.instrs);
      var k := choose(done, Last(b.instrs), 2) % 2;
      assert k == 0 || k == 1;
    }
  }

  lemma {:induction false} CollapseRefines(f: Cfg, g: Cfg)
    requires f != [] && DistinctIds(f) && |g| == |f| && forall i :: 0 <= i < |f| ==> g[i] == Collapse(f[i])
    ensures Refines(f, g) && SameIds(f, g)
  {
    hide Done;
    var within := Anywhere;
    forall choose: Choose, id, done | Inside(within, id) ensures StepMatched(f, g, within, choose, id, done) {
      Corresponding(f, g, id);
      if Lookup(f, id).Some? {
        CollapseLeaves(Lookup(f, id).value, choose, done + Done(Lookup(f, id).value.instrs));
      }
      SameStep(f, g, within, choose, id, done);
    }
    RefinesBySteps(f, g, within);
  }

  // ---------- threading empty jumps ----------

  /** A block that only jumps on. */
  predicate OnlyJumps(b: Block) {
    b.instrs == [Jump] && |b.succs| == 1
  }

  /** From `a`, `k` blocks that only jump lead to `c`. */
  ghost predicate Hops(f: Cfg, a: BlockId, c: BlockId, k: nat)
    decreases k
  {
    k >= 1 && Lookup(f, a).Some? && OnlyJumps(Lookup(f, a).value) &&
    var next := Lookup(f, a).value.succs[0];
    if k == 1 then next == c else Hops(f, next, c, k - 1)
  }

  ghost predicate LeadsTo(f: Cfg, a: BlockId, c: BlockId) {
    exists k: nat :: Hops(f, a, c, k)
  }

  lemma {:induction false} HopsSnoc(f: Cfg, a: BlockId, c: BlockId, k: nat)
    requires Hops(f, a, c, k) && Lookup(f, c).Some? && OnlyJumps(Lookup(f, c).value)
    ensures Hops(f, a, Lookup(f, c).value.succs[0], k + 1)
    decreases k
  {
    if k > 1 { HopsSnoc(f, Lookup(f, a).value.succs[0], c, k - 1); }
  }

  lemma {:induction false} LeadsOn(f: Cfg, a: BlockId, c: BlockId)
    requires LeadsTo(f, a, c) && Lookup(f, c).Some? && OnlyJumps(Lookup(f, c).value)
    ensures LeadsTo(f, a, Lookup(f, c).value.succs[0])
  {
    var k: nat :| Hops(f, a, c, k);
    HopsSnoc(f, a, c, k);
  }

  lemma {:induction false} HopStep(f: Cfg, choose: Choose, a: BlockId, done: seq<Instr>)
    requires Lookup(f, a).Some? && OnlyJumps(Lookup(f, a).value)
    ensures Step(f, choose, At(a, done)) == At(Lookup(f, a).value.succs[0], done)
  {
    assert Done([Jump]) == [];
    assert done + [] == done;
  }

  /** Hopping does no work. */
  lemma {:induction false} HopsRun(f: Cfg, choose: Choose, a: BlockId, c: BlockId, k: nat, done: seq<Instr>)
    requires Hops(f, a, c, k)
    ensures Run(f, choose, At(a, done), k) == At(c, done)
    decreases k
  {
    hide Step;
    HopStep(f, choose, a, done);
    var next := Lookup(f, a).value.succs[0];
    if k == 1 {
      OneStep(f, choose, At(a, done));
    } else {
      HopsRun(f, choose, next, c, k - 1, done);
    }
  }

  function Redirect(forward: map<BlockId, BlockId>, s: BlockId): BlockId {
    if s in forward then forward[s] else s
  }

  function Redirected(b: Block, forward: map<BlockId, BlockId>): Block {
    Block(b.id, b.instrs, seq(|b.succs|, k requires 0 <= k < |b.succs| => Redirect(forward, b.succs[k])))
  }

  ghost predicate SoundForwarding(f: Cfg, forward: map<BlockId, BlockId>) {
    forall a :: a in forward ==> LeadsTo(f, a, forward[a])
  }

  lemma {:induction false} ThreadedStep(f: Cfg, g: Cfg, forward: map<BlockId, BlockId>, choose: Choose, id: BlockId, done: seq<Instr>)
    requires DistinctIds(f) && SoundForwarding(f, forward)
    requires |g| == |f| && forall i :: 0 <= i < |f| ==> g[i] == Redirected(f[i], forward)
    ensures StepMatched(f, g, Anywhere, choose, id, done)
  {
    hide Done;
    Corresponding(f, g, id);
    var c := At(id, done);
    var mid, next := Step(f, choose, c), Step(g, choose, c);
    if Lookup(f, id).None? || mid == next {
      SameStep(f, g, Anywhere, choose, id, done);
    } else {
      assert mid.At? && next == At(Redirect(forward, mid.block), mid.done);
      assert LeadsTo(f, mid.block, next.block);
      var k: nat :| Hops(f, mid.block, next.block, k);
      HopsRun(f, choose, mid.block, next.block, k, mid.done);
      OneStep(f, choose, c);
      RunAdd(f, choose, c, 1, k);
      assert 1 + k >= 1 && Run(f, choose, c, 1 + k) == next;
    }
  }

  lemma {:induction false} ThreadRefines(f: Cfg, g: Cfg, forward: map<BlockId, BlockId>)
    requires f != [] && DistinctIds(f) && SoundForwarding(f, forward)
    requires |g| == |f| && forall i :: 0 <= i < |f| ==> g[i] == Redirected(f[i], forward)
    ensures Refines(f, g) && SameIds(f, g)
  {
    hide StepMatched, DistinctIds, SoundForwarding;
    var within := Anywhere;
    forall choose: Choose, id, done | Inside(within, id) ensures StepMatched(f, g, within, choose, id, done) {
      ThreadedStep(f, g, forward, choose, id, done);
    }
    RefinesBySteps(f, g, within);
  }

  // ---------- merging linear blocks ----------

  /** Block `i` is entered only from block `p`, which does nothing but jump to it at its end. */
  ghost predicate Mergeable(f: Cfg, p: nat, i: nat) {
    && 1 <= i < |f| && p < |f| && f[i].instrs != []
    && f[p].succs == [f[i].id] && f[p].instrs != [] && Last(f[p].instrs) == Jump
    && forall j :: 0 <= j < |f| && f[i].id in f[j].succs ==> j == p
  }

  function MergedBlock(pred: Block, b: Block): Block
    requires pred.instrs != []
  {
    Block(pred.id, pred.instrs[..|pred.instrs| - 1] + b.instrs, b.succs)
  }

  function Merged(f: Cfg, p: nat, i: nat): Cfg
    requires p < |f| && i < |f| && f[p].instrs != []
  {
    var g := f[p := MergedBlock(f[p], f[i])];
    g[..i] + g[i + 1..]
  }

  lemma {:induction false} MergedIds(f: Cfg, p: nat, i: nat)
    requires Mergeable(f, p, i) && DistinctIds(f)
    ensures DistinctIds(Merged(f, p, i)) && Merged(f, p, i) != [] && Merged(f, p, i)[0].id == f[0].id
  {
    var g := Merged(f, p, i);
    forall a, b | 0 <= a < b < |g| ensures g[a].id != g[b].id {
      var x, y := if a < i then a else a + 1, if b < i then b else b + 1;
      assert g[a].id == f[x].id && g[b].id == f[y].id && x < y;
    }
  }

  /** The block of `Merged(f, p, i)` that stands for block `j` of `f`. */
  lemma {:induction false} MergedLookup(f: Cfg, p: nat, i: nat, j: nat)
    requires Mergeable(f, p, i) && DistinctIds(f) && j < |f| && j != i
    ensures Lookup(Merged(f, p, i), f[j].id) == Some(if j == p then MergedBlock(f[p], f[i]) else f[j])
  {
    hide Lookup;
    MergedIds(f, p, i);
    var g := Merged(f, p, i);
    var a := if j < i then j else j - 1;
    assert g[a] == if j == p then MergedBlock(f[p], f[i]) else f[j];
    LookupAt(g, a);
  }

  lemma {:induction false} MergedMissing(f: Cfg, p: nat, i: nat, id: BlockId)
    requires Mergeable(f, p, i) && DistinctIds(f) && Lookup(f, id).None?
    ensures Lookup(Merged(f, p, i), id).None?
  {
    var g := Merged(f, p, i);
    if Lookup(g, id).Some? {
      var a := LookupIndex(g, id);
      var j := if a < i then a else a + 1;
      assert f[j].id == id;
      LookupAt(f, j);
    }
  }

  /** The merged block does in one step what the two did in two. */
  lemma {:induction false} MergedTwoSteps(f: Cfg, p: nat, i: nat, choose: Choose, done: seq<Instr>)
    requires Mergeable(f, p, i) && DistinctIds(f) && p != i
    ensures Run(f, choose, At(f[p].id, done), 2) == Step(Merged(f, p, i), choose, At(f[p].id, done))
  {
    hide Lookup;
    var b, pred := f[i], f[p];
    LookupAt(f, p);
    LookupAt(f, i);
    MergedLookup(f, p, i, p);
    var c := At(pred.id, done);
    var mid := Step(f, choose, c);
    DoneDropsLast(pred.instrs);
    assert mid == At(b.id, done + Done(pred.instrs));
    RunAdd(f, choose, c, 1, 1);
    OneStep(f, choose, c);
    OneStep(f, choose, mid);
    var init := pred.instrs[..|pred.instrs| - 1];
    DoneConcat(init, b.instrs);
    Associative(done, Done(init), Done(b.instrs));
    assert Last(init + b.instrs) == Last(b.instrs);
  }

  lemma {:induction false} MergedStep(f: Cfg, p: nat, i: nat, choose: Choose, id: BlockId, done: seq<Instr>)
    requires Mergeable(f, p, i) && DistinctIds(f) && id != f[i].id
    ensures StepMatched(f, Merged(f, p, i), Except(f[i].id), choose, id, done)
  {
    hide Lookup, Done, Merged;
    var g := Merged(f, p, i);
    var within := Except(f[i].id);
    if Lookup(f, id).None? {
      MergedMissing(f, p, i, id);
      SameStep(f, g, within, choose, id, done);
    } else {
      var j := LookupIndex(f, id);
      MergedLookup(f, p, i, j);
      if j == p {
        MergedTwoSteps(f, p, i, choose, done);
        assert f[i].id !in f[i].succs;
        var k := 2;
        assert k >= 1 && Run(f, choose, At(id, done), k) == Step(g, choose, At(id, done));
      } else {
        assert f[i].id !in f[j].succs;
        SameStep(f, g, within, choose, id, done);
      }
    }
  }

  lemma {:induction false} MergeRefines(f: Cfg, p: nat, i: nat)
    requires Mergeable(f, p, i) && DistinctIds(f)
    ensures Refines(f, Merged(f, p, i)) && DistinctIds(Merged(f, p, i))
  {
    hide StepMatched, Merged;
    var g := Merged(f, p, i);
    MergedIds(f, p, i);
    var within := Except(f[i].id);
    assert f[0].id != f[i].id;
    forall choose: Choose, id, done | Inside(within, id) ensures StepMatched(f, g, within, choose, id, done) {
      MergedStep(f, p, i, choose, id, done);
    }
    RefinesBySteps(f, g, within);
  }

  // ---------- trimming ----------

  function Keep(succs: seq<BlockId>, reach: set<BlockId>): seq<BlockId> {
    if succs == [] then [] else (if succs[0] in reach then [succs[0]] else []) + Keep(succs[1..], reach)
  }

  lemma {:induction false} KeepAll(succs: seq<BlockId>, reach: set<BlockId>)
    requires forall s :: s in succs ==> s in reach
    ensures Keep(succs, reach) == succs
  {
    if succs != [] {
      assert succs[0] in succs;
      KeepAll(succs[1..], reach);
    }
  }

  function Trim(f: Cfg, reach: set<BlockId>): (g: Cfg)
    ensures forall b :: b in g ==> b.id in reach
  {
    if f == [] then []
    else (if f[0].id in reach then [Block(f[0].id, f[0].instrs, Keep(f[0].succs, reach))] else []) + Trim(f[1..], reach)
  }

  ghost predicate Closed(f: Cfg, reach: set<BlockId>) {
    forall j, s :: 0 <= j < |f| && f[j].id in reach && s in f[j].succs ==> s in reach
  }

  /** Where the reachable set is closed, trimming takes whole blocks away and changes none. */
  lemma {:induction false} TrimLookup(f: Cfg, reach: set<BlockId>, id: BlockId)
    requires Closed(f, reach) && id in reach
    ensures Lookup(Trim(f, reach), id) == Lookup(f, id)
  {
    if f != [] {
      forall j, s | 0 <= j < |f[1..]| && f[1..][j].id in reach && s in f[1..][j].succs ensures s in reach {
        assert f[1..][j] == f[j + 1];
      }
      TrimLookup(f[1..], reach, id);
      var t := Trim(f[1..], reach);
      if f[0].id in reach {
        KeepAll(f[0].succs, reach);
        assert Trim(f, reach) == [f[0]] + t && ([f[0]] + t)[1..] == t;
      } else {
        assert [] + t == t;
      }
    }
  }

  lemma {:induction false} TrimDistinct(f: Cfg, reach: set<BlockId>)
    requires DistinctIds(f)
    ensures DistinctIds(Trim(f, reach))
    ensures forall b :: b in Trim(f, reach) ==> exists j :: 0 <= j < |f| && f[j].id == b.id
  {
    if f != [] {
      var t := Trim(f[1..], reach);
      TrimDistinct(f[1..], reach);
      forall b | b in t ensures b.id != f[0].id && exists j :: 0 <= j < |f| && f[j].id == b.id {
        var j :| 0 <= j < |f[1..]| && f[1..][j].id == b.id;
        assert f[j + 1].id == b.id;
      }
      if f[0].id in reach {
        var g := Trim(f, reach);
        assert g[1..] == t;
        forall a, b | 0 <= a < b < |g| ensures g[a].id != g[b].id {
          assert g[b] == t[b - 1] && t[b - 1] in t;
          if a > 0 { assert g[a] == t[a - 1]; }
        }
      } else {
        assert [] + t == t;
      }
    }
  }

  lemma {:induction false} TrimRefines(f: Cfg, reach: set<BlockId>)
    requires f != [] && DistinctIds(f) && Closed(f, reach) && f[0].id in reach
    ensures Refines(f, Trim(f, reach)) && DistinctIds(Trim(f, reach))
  {
    hide Trim, StepMatched;
    var g := Trim(f, reach);
    TrimDistinct(f, reach);
    TrimFirst(f, reach);
    var within := Among(reach);
    forall choose: Choose, id, done | Inside(within, id) ensures StepMatched(f, g, within, choose, id, done) {
      TrimLookup(f, reach, id);
      if Lookup(f, id).Some? { var j := LookupIndex(f, id); }
      SameStep(f, g, within, choose, id, done);
    }
    RefinesBySteps(f, g, within);
  }

  lemma {:induction false} TrimFirst(f: Cfg, reach: set<BlockId>)
    requires f != [] && f[0].id in reach
    ensures Trim(f, reach) != [] && Trim(f, reach)[0].id == f[0].id
  {
  }

  // ---------- reachability ----------

  /** `p` follows successor lists from the entry. */
  ghost predicate IsPath(f: Cfg, p: seq<BlockId>) {
    && f != [] && p != [] && p[0] == f[0].id
    && forall k :: 0 <= k < |p| - 1 ==> Edge(f, p[k], p[k + 1])
  }

  predicate Edge(f: Cfg, a: BlockId, b: BlockId) {
    Lookup(f, a).Some? && b in Lookup(f, a).value.succs
  }

  ghost predicate Reachable(f: Cfg, id: BlockId) {
    exists p :: IsPath(f, p) && p[|p| - 1] == id
  }

  lemma {:induction false} ReachableNext(f: Cfg, a: BlockId, b: BlockId)
    requires Reachable(f, a) && Edge(f, a, b)
    ensures Reachable(f, b)
  {
    var p :| IsPath(f, p) && p[|p| - 1] == a;
    var q := p + [b];
    forall k | 0 <= k < |q| - 1 ensures Edge(f, q[k], q[k + 1]) {
      if k < |p| - 1 { assert q[k] == p[k] && q[k + 1] == p[k + 1]; }
    }
    assert IsPath(f, q) && q[|q| - 1] == b;
  }

  lemma {:induction false} EntryReachable(f: Cfg)
    requires f != []
    ensures Reachable(f, f[0].id)
  {
    assert IsPath(f, [f[0].id]);
    assert [f[0].id][0] == f[0].id;
  }

  /** A closed set that holds the entry holds everything reachable. */
  lemma {:induction false} ClosedHolds(f: Cfg, reach: set<BlockId>, p: seq<BlockId>, k: nat)
    requires Closed(f, reach) && f != [] && f[0].id in reach && IsPath(f, p) && k < |p|
    ensures p[k] in reach
  {
    if k > 0 {
      ClosedHolds(f, reach, p, k - 1);
      assert Edge(f, p[k - 1], p[k - 1 + 1]);
      var j := LookupIndex(f, p[k - 1]);
    }
  }
}

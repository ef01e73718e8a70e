/** `pruneUnreachableBlocks` of src/mir/analysis.cpp. */
module MirPrune {
  import opened MirGraph
  import opened MirFunction
  import opened MirReachability
  import opened MirControlFlow

  // ---------- the graph of a function ----------

  /** `v` is an existing block that `b` names as a successor or a handler. */
  predicate Leads(ids: set<BlockId>, b: BasicBlock, v: BlockId) {
    v in ids && (v in b.terminator.Successors() || v in b.handlers)
  }

  /** `g` is the graph of `f` along edges of both kinds. */
  ghost predicate GraphOf(f: Function, g: Graph) {
    && g.entry == f.entryBlock
    && g.succ.Keys == Ids(f.blocks)
    && forall i, v :: 0 <= i < |f.blocks| ==> (g.Edge(f.blocks[i].id, v) <==> Leads(Ids(f.blocks), f.blocks[i], v))
  }

  /** Every id a block mentions, used by its terminator kind or not. */
  function References(b: BasicBlock): seq<BlockId> {
    [b.terminator.target, b.terminator.elseBlock] + b.terminator.cases + b.handlers
  }

  /** The MIR invariants pruning relies on: distinct ids, an existing entry, and no block mentions an id
      that is not the target of one of its edges. */
  ghost predicate WellFormed(f: Function) {
    && DistinctIds(f.blocks) && f.entryBlock in Ids(f.blocks)
    && forall i, r :: 0 <= i < |f.blocks| && r in References(f.blocks[i]) ==>
         r == NO_BLOCK || Leads(Ids(f.blocks), f.blocks[i], r)
  }

  // ---------- what pruning yields ----------

  function Survivors(blocks: seq<BasicBlock>, keep: set<BlockId>): (r: seq<BasicBlock>)
    ensures forall b :: b in r <==> b in blocks && b.id in keep
  {
    if blocks == [] then []
    else (if blocks[0].id in keep then [blocks[0]] else []) + Survivors(blocks[1..], keep)
  }

  /** Survivors are numbered from 1 in their order. */
  ghost predicate Renumbers(survivors: seq<BasicBlock>, ren: map<BlockId, BlockId>) {
    && ren.Keys == Ids(survivors)
    && forall k :: 0 <= k < |survivors| ==> ren[survivors[k].id] == k + 1
  }

  function Rewrite(ren: map<BlockId, BlockId>, target: BlockId): BlockId {
    if target != NO_BLOCK && target in ren then ren[target] else target
  }

  function RewriteAll(ren: map<BlockId, BlockId>, targets: seq<BlockId>): (r: seq<BlockId>)
    ensures |r| == |targets| && forall i :: 0 <= i < |r| ==> r[i] == Rewrite(ren, targets[i])
  {
    if targets == [] then [] else [Rewrite(ren, targets[0])] + RewriteAll(ren, targets[1..])
  }

  function RewriteBlock(ren: map<BlockId, BlockId>, b: BasicBlock): BasicBlock {
    var t := b.terminator;
    BasicBlock(Rewrite(ren, b.id), b.body,
               Terminator(t.kind, Rewrite(ren, t.target), Rewrite(ren, t.elseBlock), RewriteAll(ren, t.cases)),
               RewriteAll(ren, b.handlers))
  }

  /** `f'` is `f` reduced to `survivors` and renamed by `ren`. */
  ghost predicate Renamed(f: Function, survivors: seq<BasicBlock>, ren: map<BlockId, BlockId>, f': Function) {
    && Renumbers(survivors, ren)
    && |f'.blocks| == |survivors|
    && (forall k :: 0 <= k < |survivors| ==> f'.blocks[k] == RewriteBlock(ren, survivors[k]))
    && f'.entryBlock == Rewrite(ren, f.entryBlock)
  }

  /** The pruned form of a function: untouched when every block is reachable, otherwise the reachable
      blocks in order, densely renumbered. */
  ghost predicate Pruned(f: Function, keep: set<BlockId>, f': Function) {
    if forall b :: b in f.blocks ==> b.id in keep then f' == f
    else exists ren :: Renamed(f, Survivors(f.blocks, keep), ren, f')
  }

  /** `keep` is what `reachableWithUnwind` returns for `f`. */
  ghost predicate ReachableIds(f: Function, keep: set<BlockId>) {
    exists g :: GraphOf(f, g) && forall b :: b in keep <==> f.entryBlock != NO_BLOCK && g.Reachable(b)
  }

  // ---------- facts about survivors and names ----------

  lemma {:induction false} SurvivorsSnoc(blocks: seq<BasicBlock>, keep: set<BlockId>, b: BasicBlock)
    ensures Survivors(blocks + [b], keep) == Survivors(blocks, keep) + if b.id in keep then [b] else []
  {
    if blocks != [] {
      SurvivorsSnoc(blocks[1..], keep, b);
      assert (blocks + [b])[1..] == blocks[1..] + [b];
    }
  }

  lemma {:induction false} SurvivorsDistinct(blocks: seq<BasicBlock>, keep: set<BlockId>)
    requires DistinctIds(blocks)
    ensures DistinctIds(Survivors(blocks, keep))
  {
    if blocks != [] {
      var rest := blocks[1..];
      forall i | 0 <= i < |rest|
        ensures rest[i] == blocks[i + 1] && rest[i].id in Ids(blocks)
      {
        assert blocks[i + 1].id in Ids(blocks);
      }
      SurvivorsDistinct(rest, keep);
      var s := Survivors(rest, keep);
      forall k | 0 <= k < |s|
        ensures s[k].id != blocks[0].id
      {
        assert s[k] in rest;
      }
      assert blocks[0].id in Ids(blocks);
    }
  }

  lemma {:induction false} NonZeroRewritten(ren: map<BlockId, BlockId>, s: seq<BlockId>)
    requires NO_BLOCK !in ren.Values
    ensures NonZero(RewriteAll(ren, s)) == RewriteAll(ren, NonZero(s))
  {
    if s != [] {
      NonZeroRewritten(ren, s[1..]);
      RewriteAppend(ren, if s[0] != NO_BLOCK then [s[0]] else [], NonZero(s[1..]));
      assert RewriteAll(ren, s)[1..] == RewriteAll(ren, s[1..]);
    }
  }

  lemma {:induction false} RewriteAppend(ren: map<BlockId, BlockId>, a: seq<BlockId>, b: seq<BlockId>)
    ensures RewriteAll(ren, a + b) == RewriteAll(ren, a) + RewriteAll(ren, b)
  {
  }

  /** Renaming a terminator renames its successors, in order and with duplicates. */
  lemma {:induction false} SuccessorsRenamed(ren: map<BlockId, BlockId>, b: BasicBlock)
    requires NO_BLOCK !in ren.Values
    ensures RewriteBlock(ren, b).terminator.Successors() == RewriteAll(ren, b.terminator.Successors())
  {
    var t := b.terminator;
    match t.kind
    case Jump => NonZeroRewritten(ren, [t.target]);
      assert RewriteAll(ren, [t.target]) == [Rewrite(ren, t.target)];
    case Branch => NonZeroRewritten(ren, [t.target, t.elseBlock]);
      assert RewriteAll(ren, [t.target, t.elseBlock]) == [Rewrite(ren, t.target), Rewrite(ren, t.elseBlock)];
    case Switch => NonZeroRewritten(ren, t.cases + [t.target]);
      RewriteAppend(ren, t.cases, [t.target]);
      assert RewriteAll(ren, [t.target]) == [Rewrite(ren, t.target)];
    case _ =>
  }

  // ---------- pruning keeps the runs ----------

  ghost predicate KeepsReachable(g: Graph, keep: set<BlockId>) {
    forall b :: b in keep <==> g.Reachable(b)
  }

  /** The survivor with a given name, and the renamed block that stands for it. */
  lemma {:induction false} SurvivorNamed(f: Function, keep: set<BlockId>, ren: map<BlockId, BlockId>, f': Function, u: BlockId)
    returns (i: nat, k: nat)
    requires Renamed(f, Survivors(f.blocks, keep), ren, f')
    requires u in keep && u in Ids(f.blocks) && u != NO_BLOCK
    ensures u in ren && i < |f.blocks| && f.blocks[i].id == u
    ensures k < |f'.blocks| && f'.blocks[k] == RewriteBlock(ren, f.blocks[i]) && f'.blocks[k].id == ren[u] == k + 1
  {
    var s := Survivors(f.blocks, keep);
    i :| 0 <= i < |f.blocks| && f.blocks[i].id == u;
    assert f.blocks[i] in s;
    k :| 0 <= k < |s| && s[k] == f.blocks[i];
  }

  lemma {:induction false} NamesArePositive(f: Function, keep: set<BlockId>, ren: map<BlockId, BlockId>, f': Function)
    requires Renamed(f, Survivors(f.blocks, keep), ren, f')
    ensures NO_BLOCK !in ren.Values
    ensures forall u :: u in ren ==> u in keep && u in Ids(f.blocks)
  {
    var s := Survivors(f.blocks, keep);
    forall u | u in ren
      ensures ren[u] != NO_BLOCK && u in keep && u in Ids(f.blocks)
    {
      var k :| 0 <= k < |s| && s[k].id == u;
      assert s[k] in s;
    }
  }

  /** The new graph has the edges of `u` under the new names, and no others. */
  ghost predicate SameEdges(g: Graph, ren: map<BlockId, BlockId>, g': Graph, u: BlockId)
    requires u in ren
  {
    && (forall v :: g.Edge(u, v) ==> v in ren && g'.Edge(ren[u], ren[v]))
    && (forall w :: g'.Edge(ren[u], w) ==> exists v :: g.Edge(u, v) && v in ren && w == ren[v])
  }

  /** `ren` carries the blocks it names, the entry among them, onto `g'` with all their edges. */
  ghost predicate Carries(g: Graph, ren: map<BlockId, BlockId>, g': Graph) {
    && g.entry in ren && g'.entry == ren[g.entry]
    && (forall u {:trigger SameEdges(g, ren, g', u)} :: u in ren ==> SameEdges(g, ren, g', u))
  }

  /** A kept block names only kept blocks. */
  lemma {:induction false} EdgeStaysKept(f: Function, g: Graph, keep: set<BlockId>, i: nat, v: BlockId)
    requires GraphOf(f, g) && KeepsReachable(g, keep) && i < |f.blocks| && f.blocks[i].id in keep
    requires Leads(Ids(f.blocks), f.blocks[i], v)
    ensures g.Edge(f.blocks[i].id, v) && v in keep
  {
    g.ReachableStep(f.blocks[i].id, v);
  }

  lemma {:induction false} EdgesForward(f: Function, g: Graph, keep: set<BlockId>, ren: map<BlockId, BlockId>, f': Function, g': Graph, u: BlockId, v: BlockId)
    requires DistinctIds(f.blocks) && GraphOf(f, g) && KeepsReachable(g, keep) && GraphOf(f', g')
    requires Renamed(f, Survivors(f.blocks, keep), ren, f') && u in ren && g.Edge(u, v)
    ensures v in ren && g'.Edge(ren[u], ren[v])
  {
    hide KeepsReachable;
    NamesArePositive(f, keep, ren, f');
    var i, k := SurvivorNamed(f, keep, ren, f', u);
    var b := f.blocks[i];
    assert Leads(Ids(f.blocks), b, v);
    EdgeStaysKept(f, g, keep, i, v);
    var _, m := SurvivorNamed(f, keep, ren, f', v);
    SuccessorsRenamed(ren, b);
    RenamedMember(ren, b.terminator.Successors(), v);
    RenamedMember(ren, b.handlers, v);
    assert Leads(Ids(f'.blocks), f'.blocks[k], ren[v]);
  }

  lemma {:induction false} ReferenceLeads(f: Function, i: nat, r: BlockId)
    requires WellFormed(f) && i < |f.blocks| && r in References(f.blocks[i]) && r != NO_BLOCK
    ensures Leads(Ids(f.blocks), f.blocks[i], r)
  {
  }

  lemma {:induction false} NewNamesPositive(f: Function, keep: set<BlockId>, ren: map<BlockId, BlockId>, f': Function)
    requires Renamed(f, Survivors(f.blocks, keep), ren, f') && DistinctIds(f.blocks)
    ensures NO_BLOCK !in Ids(f'.blocks)
    ensures forall k :: 0 <= k < |f'.blocks| ==> f'.blocks[k].id == k + 1
  {
    var s := Survivors(f.blocks, keep);
    forall k | 0 <= k < |f'.blocks|
      ensures f'.blocks[k].id == k + 1
    {
      assert s[k] in s;
      var i :| 0 <= i < |f.blocks| && f.blocks[i] == s[k];
      assert f.blocks[i].id in Ids(f.blocks);
      assert s[k].id in ren;
    }
  }

  lemma {:induction false} EdgesBack(f: Function, g: Graph, keep: set<BlockId>, ren: map<BlockId, BlockId>, f': Function, g': Graph, u: BlockId, w: BlockId)
    requires WellFormed(f) && GraphOf(f, g) && KeepsReachable(g, keep) && GraphOf(f', g')
    requires DistinctIds(f.blocks) && Renamed(f, Survivors(f.blocks, keep), ren, f') && u in ren && g'.Edge(ren[u], w)
    ensures exists v :: g.Edge(u, v) && v in ren && w == ren[v]
  {
    hide KeepsReachable, WellFormed, Renamed, References;
    NamesArePositive(f, keep, ren, f');
    NewNamesPositive(f, keep, ren, f');
    var i, k := SurvivorNamed(f, keep, ren, f', u);
    SuccessorsRenamed(ren, f.blocks[i]);
    assert Leads(Ids(f'.blocks), f'.blocks[k], w);
    var v := OriginOf(ren, f.blocks[i], w);
    ReferenceLeads(f, i, v);
    EdgeStaysKept(f, g, keep, i, v);
    var _, m := SurvivorNamed(f, keep, ren, f', v);
  }

  /** A prune that removed something carries the runs of the old function onto the new one. */
  lemma {:induction false} PruneCarries(f: Function, g: Graph, keep: set<BlockId>, ren: map<BlockId, BlockId>, f': Function, g': Graph)
    requires WellFormed(f) && GraphOf(f, g) && KeepsReachable(g, keep) && GraphOf(f', g')
    requires Renamed(f, Survivors(f.blocks, keep), ren, f')
    ensures Carries(g, ren, g') && forall u :: u in ren <==> g.Reachable(u)
  {
    NamesArePositive(f, keep, ren, f');
    forall u
      ensures u in ren <==> g.Reachable(u)
    {
      if g.Reachable(u) {
        var p :| g.IsPath(p, u);
        g.ClosedSetHoldsPath(Ids(f.blocks), p, u);
        var _, _ := SurvivorNamed(f, keep, ren, f', u);
      }
    }
    g.EntryReachable();
    forall u | u in ren
      ensures SameEdges(g, ren, g', u)
    {
      forall v | g.Edge(u, v) ensures v in ren && g'.Edge(ren[u], ren[v]) {
        EdgesForward(f, g, keep, ren, f', g', u, v);
      }
      forall w | g'.Edge(ren[u], w) ensures exists v :: g.Edge(u, v) && v in ren && w == ren[v] {
        EdgesBack(f, g, keep, ren, f', g', u, w);
      }
    }
  }

  lemma {:induction false} RenamedMember(ren: map<BlockId, BlockId>, s: seq<BlockId>, v: BlockId)
    ensures v in s ==> Rewrite(ren, v) in RewriteAll(ren, s)
  {
    if v in s {
      var i :| 0 <= i < |s| && s[i] == v;
      assert RewriteAll(ren, s)[i] == Rewrite(ren, v);
    }
  }

  /** An edge of the renamed block comes from an edge of the original one. */
  lemma {:induction false} OriginOf(ren: map<BlockId, BlockId>, b: BasicBlock, w: BlockId) returns (v: BlockId)
    requires NO_BLOCK !in ren.Values && w != NO_BLOCK
    requires w in RewriteAll(ren, b.terminator.Successors()) || w in RewriteAll(ren, b.handlers)
    ensures v != NO_BLOCK && v in References(b) && w == Rewrite(ren, v)
  {
    var s := if w in RewriteAll(ren, b.handlers) then b.handlers else b.terminator.Successors();
    var i :| 0 <= i < |s| && RewriteAll(ren, s)[i] == w;
    v := s[i];
    assert v in b.handlers || v in b.terminator.Successors();
  }

  function MapIds(ren: map<BlockId, BlockId>, p: seq<BlockId>): seq<BlockId>
    requires forall b :: b in p ==> b in ren
  {
    seq(|p|, i requires 0 <= i < |p| => ren[p[i]])
  }

  /** Every run of the old function is, renamed, a run of the new one ... */
  lemma {:induction false} PathForward(g: Graph, ren: map<BlockId, BlockId>, g': Graph, p: seq<BlockId>, b: BlockId)
    requires Carries(g, ren, g') && g.IsPath(p, b)
    ensures (forall x :: x in p ==> x in ren) && b in ren
    ensures g'.IsPath(MapIds(ren, p), ren[b])
    decreases |p|
  {
    if |p| == 1 {
      assert p == [b];
      assert MapIds(ren, p) == [ren[b]];
    } else {
      var front, u := p[..|p| - 1], p[|p| - 2];
      PathForward(g, ren, g', front, u);
      assert SameEdges(g, ren, g', u);
      g'.WalkSnoc(MapIds(ren, front), g'.entry, ren[u], ren[b]);
      assert p == front + [b];
      assert MapIds(ren, p) == MapIds(ren, front) + [ren[b]];
    }
  }

  /** ... and every run of the new function arises that way. */
  lemma {:induction false} PathBack(g: Graph, ren: map<BlockId, BlockId>, g': Graph, q: seq<BlockId>, c: BlockId)
    returns (p: seq<BlockId>, b: BlockId)
    requires Carries(g, ren, g') && g'.IsPath(q, c)
    ensures g.IsPath(p, b) && (forall x :: x in p ==> x in ren) && b in ren && q == MapIds(ren, p) && ren[b] == c
    decreases |q|
  {
    if |q| == 1 {
      p, b := [g.entry], g.entry;
      assert q == [c];
    } else {
      var p', u := PathBack(g, ren, g', q[..|q| - 1], q[|q| - 2]);
      assert SameEdges(g, ren, g', u);
      b :| g.Edge(u, b) && b in ren && c == ren[b];
      p := p' + [b];
      g.WalkSnoc(p', g.entry, u, b);
      assert q == q[..|q| - 1] + [c];
    }
  }

  /** The dangling case of the source cannot happen: a kept block mentions kept blocks only. */
  lemma {:induction false} NothingDangles(f: Function, g: Graph, keep: set<BlockId>, ren: map<BlockId, BlockId>, b: BasicBlock, r: BlockId)
    requires WellFormed(f) && DistinctIds(f.blocks) && GraphOf(f, g) && KeepsReachable(g, keep)
    requires ren.Keys == Ids(Survivors(f.blocks, keep))
    requires b in Survivors(f.blocks, keep) && r in References(b) && r != NO_BLOCK
    ensures r in ren
  {
    hide WellFormed, References, KeepsReachable;
    var i :| 0 <= i < |f.blocks| && f.blocks[i] == b;
    ReferenceLeads(f, i, r);
    EdgeStaysKept(f, g, keep, i, r);
    var j :| 0 <= j < |f.blocks| && f.blocks[j].id == r;
    var s := Survivors(f.blocks, keep);
    assert f.blocks[j] in s;
    var k :| 0 <= k < |s| && s[k] == f.blocks[j];
  }

  lemma {:induction false} SameGraphSameReach(f: Function, g: Graph, h: Graph, b: BlockId)
    requires GraphOf(f, g) && GraphOf(f, h) && g.Reachable(b)
    ensures h.Reachable(b)
  {
    forall u, v | g.Edge(u, v)
      ensures h.Edge(u, v)
    {
      var i :| 0 <= i < |f.blocks| && f.blocks[i].id == u;
    }
    MoreEdges(g, h, b);
  }

  lemma {:induction false} RenamedReachable(f: Function, g: Graph, keep: set<BlockId>, ren: map<BlockId, BlockId>, f': Function, g': Graph, k: nat)
    requires WellFormed(f) && DistinctIds(f.blocks) && GraphOf(f, g) && KeepsReachable(g, keep)
    requires Renamed(f, Survivors(f.blocks, keep), ren, f') && GraphOf(f', g') && k < |f'.blocks|
    ensures g'.Reachable(f'.blocks[k].id)
  {
    hide WellFormed, GraphOf, KeepsReachable;
    PruneCarries(f, g, keep, ren, f', g');
    NewNamesPositive(f, keep, ren, f');
    var u := Survivors(f.blocks, keep)[k].id;
    assert u in ren && g.Reachable(u);
    CarriedReachable(g, ren, g', u);
  }

  lemma {:induction false} CarriedReachable(g: Graph, ren: map<BlockId, BlockId>, g': Graph, u: BlockId)
    requires Carries(g, ren, g') && g.Reachable(u)
    ensures u in ren && g'.Reachable(ren[u])
  {
    var p :| g.IsPath(p, u);
    PathForward(g, ren, g', p, u);
    assert g'.IsPath(MapIds(ren, p), ren[u]);
  }

  /** After a prune every block is reachable ... */
  lemma {:induction false} AllReachableAfter(f: Function, g: Graph, keep: set<BlockId>, f': Function, g': Graph, b: BasicBlock)
    requires WellFormed(f) && GraphOf(f, g) && KeepsReachable(g, keep) && Pruned(f, keep, f')
    requires GraphOf(f', g') && b in f'.blocks
    ensures g'.Reachable(b.id)
  {
    if forall b :: b in f.blocks ==> b.id in keep {
      SameGraphSameReach(f, g, g', b.id);
    } else {
      var ren :| Renamed(f, Survivors(f.blocks, keep), ren, f');
      var k :| 0 <= k < |f'.blocks| && f'.blocks[k] == b;
      RenamedReachable(f, g, keep, ren, f', g', k);
    }
  }

  /** ... so pruning again changes nothing. */
  lemma {:induction false} PruneTwice(f: Function, g: Graph, keep: set<BlockId>, f': Function, g': Graph, keep': set<BlockId>, f'': Function)
    requires WellFormed(f) && GraphOf(f, g) && KeepsReachable(g, keep) && Pruned(f, keep, f')
    requires GraphOf(f', g') && KeepsReachable(g', keep') && Pruned(f', keep', f'')
    ensures f'' == f'
  {
    forall b | b in f'.blocks
      ensures b.id in keep'
    {
      AllReachableAfter(f, g, keep, f', g', b);
    }
  }

  // ---------- pruning keeps the code ----------

  /** The references `s`, each under its new name; an absent reference stays absent. */
  ghost predicate SamePlaces(ren: map<BlockId, BlockId>, s: seq<BlockId>, t: seq<BlockId>) {
    |t| == |s| && forall i :: 0 <= i < |s| ==> if s[i] == NO_BLOCK then t[i] == NO_BLOCK else s[i] in ren && t[i] == ren[s[i]]
  }

  /** `c` is `b` under its new name: the same instructions, the same kind of terminator, and its successors and handlers
      renamed, each in its place. */
  ghost predicate Copy(ren: map<BlockId, BlockId>, b: BasicBlock, c: BasicBlock) {
    && b.id in ren && c.id == ren[b.id] && c.body == b.body && c.terminator.kind == b.terminator.kind
    && SamePlaces(ren, b.terminator.Successors(), c.terminator.Successors()) && SamePlaces(ren, b.handlers, c.handlers)
  }

  ghost function BlockAt(blocks: seq<BasicBlock>, id: BlockId): (b: BasicBlock)
    requires id in Ids(blocks)
    ensures b in blocks && b.id == id
  {
    var i :| 0 <= i < |blocks| && blocks[i].id == id;
    blocks[i]
  }

  ghost predicate NamesReachable(f: Function, ren: map<BlockId, BlockId>) {
    forall g, id {:trigger GraphOf(f, g), g.Reachable(id)} :: GraphOf(f, g) && g.Reachable(id) ==> id in ren
  }

  ghost predicate NamesMatch(f: Function, ren: map<BlockId, BlockId>, f': Function) {
    && ren.Keys <= Ids(f.blocks) && ren.Values == Ids(f'.blocks)
    && f.entryBlock in ren && f'.entryBlock == ren[f.entryBlock]
  }

  ghost predicate AllCopied(f: Function, ren: map<BlockId, BlockId>, f': Function)
    requires NamesMatch(f, ren, f')
  {
    forall id :: id in ren ==> Copy(ren, BlockAt(f.blocks, id), BlockAt(f'.blocks, ren[id]))
  }

  /** Every reachable block of `f` has its copy in `f'`, the entry that of the entry, and `f'` has no other blocks. */
  ghost predicate KeepsCode(f: Function, ren: map<BlockId, BlockId>, f': Function) {
    NamesReachable(f, ren) && NamesMatch(f, ren, f') && AllCopied(f, ren, f')
  }

  /** The instructions along a path, in order. */
  ghost function CodeAlong(blocks: seq<BasicBlock>, p: seq<BlockId>): seq<Instr>
    requires forall x :: x in p ==> x in Ids(blocks)
    decreases |p|
  {
    if p == [] then [] else CodeAlong(blocks, p[..|p| - 1]) + BlockAt(blocks, p[|p| - 1]).body
  }

  /** Along every path of the function the pruned one has the same instructions under the new names. */
  lemma {:induction false} CodeCarries(f: Function, ren: map<BlockId, BlockId>, f': Function, p: seq<BlockId>)
    requires KeepsCode(f, ren, f') && forall x :: x in p ==> x in ren
    ensures forall x :: x in MapIds(ren, p) ==> x in Ids(f'.blocks)
    ensures CodeAlong(f.blocks, p) == CodeAlong(f'.blocks, MapIds(ren, p))
    decreases |p|
  {
    forall x | x in MapIds(ren, p) ensures x in Ids(f'.blocks) {}
    if p != [] {
      var n := |p| - 1;
      CodeCarries(f, ren, f', p[..n]);
      assert MapIds(ren, p)[..n] == MapIds(ren, p[..n]);
      assert Copy(ren, BlockAt(f.blocks, p[n]), BlockAt(f'.blocks, ren[p[n]]));
    }
  }

  lemma {:induction false} OnlyBlock(blocks: seq<BasicBlock>, b: BasicBlock)
    requires DistinctIds(blocks) && b in blocks
    ensures b.id in Ids(blocks) && BlockAt(blocks, b.id) == b
  {
    var i :| 0 <= i < |blocks| && blocks[i] == b;
    var c := BlockAt(blocks, b.id);
    var j :| 0 <= j < |blocks| && blocks[j] == c;
  }

  lemma {:induction false} PlacesRenamed(ren: map<BlockId, BlockId>, s: seq<BlockId>)
    requires forall r :: r in s && r != NO_BLOCK ==> r in ren
    ensures SamePlaces(ren, s, RewriteAll(ren, s))
  {
    forall i | 0 <= i < |s| ensures if s[i] == NO_BLOCK then RewriteAll(ren, s)[i] == NO_BLOCK else s[i] in ren && RewriteAll(ren, s)[i] == ren[s[i]] {
      assert s[i] in s;
    }
  }

  lemma {:induction false} RenamedIsCopy(ren: map<BlockId, BlockId>, b: BasicBlock)
    requires NO_BLOCK !in ren.Values && b.id in ren && b.id != NO_BLOCK && !Dangles(ren, b)
    ensures Copy(ren, b, RewriteBlock(ren, b))
  {
    SuccessorsRenamed(ren, b);
    forall r | r in b.terminator.Successors() && r != NO_BLOCK ensures r in ren { assert r in References(b); }
    forall r | r in b.handlers && r != NO_BLOCK ensures r in ren { assert r in References(b); }
    PlacesRenamed(ren, b.terminator.Successors());
    PlacesRenamed(ren, b.handlers);
  }

  lemma {:induction false} ReachableIsBlock(f: Function, g: Graph, id: BlockId)
    requires WellFormed(f) && GraphOf(f, g) && g.Reachable(id)
    ensures id in Ids(f.blocks) && id != NO_BLOCK
  {
    var p :| g.IsPath(p, id);
    g.ClosedSetHoldsPath(Ids(f.blocks), p, id);
  }

  predicate Dangles(ren: map<BlockId, BlockId>, b: BasicBlock) {
    exists r :: r in References(b) && r != NO_BLOCK && r !in ren
  }

  lemma {:induction false} KeptAreReachable(f: Function, keep: set<BlockId>, g: Graph, id: BlockId)
    requires WellFormed(f) && ReachableIds(f, keep) && GraphOf(f, g) && g.Reachable(id)
    ensures id in keep && id in Ids(f.blocks) && id != NO_BLOCK
  {
    hide WellFormed;
    var h :| GraphOf(f, h) && forall b :: b in keep <==> f.entryBlock != NO_BLOCK && h.Reachable(b);
    SameGraphSameReach(f, g, h, id);
    ReachableIsBlock(f, g, id);
    EntryIsBlock(f);
  }

  lemma {:induction false} EntryIsBlock(f: Function)
    requires WellFormed(f)
    ensures f.entryBlock != NO_BLOCK && f.entryBlock in Ids(f.blocks) && DistinctIds(f.blocks)
  {
  }

  ghost function SameNames(ids: set<BlockId>): map<BlockId, BlockId> {
    map id | id in ids :: id
  }

  lemma {:induction false} NoneDropped(f: Function)
    requires WellFormed(f)
    ensures KeepsCode(f, SameNames(Ids(f.blocks)), f)
  {
    var ren := SameNames(Ids(f.blocks));
    EntryIsBlock(f);
    forall g, id | GraphOf(f, g) && g.Reachable(id) ensures id in ren { ReachableIsBlock(f, g, id); }
    forall id | id in ren ensures Copy(ren, BlockAt(f.blocks, id), BlockAt(f.blocks, ren[id])) {
      var b := BlockAt(f.blocks, id);
      var i :| 0 <= i < |f.blocks| && f.blocks[i] == b;
      forall r | r in References(b) && r != NO_BLOCK ensures r in ren { ReferenceLeads(f, i, r); }
      SelfCopy(ren, b);
    }
    assert ren.Values == Ids(f.blocks) by { forall id | id in Ids(f.blocks) ensures id in ren.Values { assert ren[id] == id; } }
  }

  lemma {:induction false} SelfCopy(ren: map<BlockId, BlockId>, b: BasicBlock)
    requires (forall id :: id in ren ==> ren[id] == id) && b.id in ren && forall r :: r in References(b) && r != NO_BLOCK ==> r in ren
    ensures Copy(ren, b, b)
  {
    var s := b.terminator.Successors();
    forall i | 0 <= i < |s| ensures s[i] in ren || s[i] == NO_BLOCK { assert s[i] in s && s[i] in References(b); }
    forall i | 0 <= i < |b.handlers| ensures b.handlers[i] in ren || b.handlers[i] == NO_BLOCK { assert b.handlers[i] in References(b); }
  }

  lemma {:induction false} AllCopies(f: Function, keep: set<BlockId>, ren: map<BlockId, BlockId>, f': Function)
    requires WellFormed(f) && ReachableIds(f, keep) && Renamed(f, Survivors(f.blocks, keep), ren, f')
    ensures forall id :: id in ren ==> id in Ids(f.blocks) && ren[id] in Ids(f'.blocks) && Copy(ren, BlockAt(f.blocks, id), BlockAt(f'.blocks, ren[id]))
  {
    EntryIsBlock(f);
    NamesArePositive(f, keep, ren, f');
    RenumbersOf(f, keep, ren, f');
    NeverDangling(f, keep, ren);
    hide WellFormed, ReachableIds, DistinctIds, Renamed, Copy, Dangles;
    forall id | id in ren ensures id in Ids(f.blocks) && ren[id] in Ids(f'.blocks) && Copy(ren, BlockAt(f.blocks, id), BlockAt(f'.blocks, ren[id])) {
      CopyOf(f, keep, ren, f', id);
    }
  }

  lemma {:induction false} RenumbersOf(f: Function, keep: set<BlockId>, ren: map<BlockId, BlockId>, f': Function)
    requires Renamed(f, Survivors(f.blocks, keep), ren, f')
    ensures Renumbers(Survivors(f.blocks, keep), ren)
  {
  }

  lemma {:induction false} ValuesThere(f: Function, keep: set<BlockId>, ren: map<BlockId, BlockId>, f': Function)
    requires WellFormed(f) && Renamed(f, Survivors(f.blocks, keep), ren, f')
    ensures ren.Keys <= Ids(f.blocks) && ren.Values <= Ids(f'.blocks)
  {
    EntryIsBlock(f);
    NamesArePositive(f, keep, ren, f');
    hide WellFormed, Renamed, Ids, DistinctIds;
    forall v | v in ren.Values ensures v in Ids(f'.blocks) {
      var id :| id in ren && ren[id] == v;
      NewNameThere(f, keep, ren, f', id);
    }
  }

  lemma {:induction false} ValuesUsed(f: Function, keep: set<BlockId>, ren: map<BlockId, BlockId>, f': Function)
    requires WellFormed(f) && Renamed(f, Survivors(f.blocks, keep), ren, f')
    ensures Ids(f'.blocks) <= ren.Values
  {
    EntryIsBlock(f);
    NewNamesPositive(f, keep, ren, f');
    hide WellFormed, Renamed, Ids, DistinctIds;
    forall id | id in Ids(f'.blocks) ensures id in ren.Values { NewNameUsed(f, keep, ren, f', id); }
  }

  lemma {:induction false} NewNames(f: Function, keep: set<BlockId>, ren: map<BlockId, BlockId>, f': Function)
    requires WellFormed(f) && ReachableIds(f, keep) && Renamed(f, Survivors(f.blocks, keep), ren, f')
    ensures NamesMatch(f, ren, f')
  {
    hide WellFormed, ReachableIds, Renamed, Ids;
    EntryNamed(f, keep, ren, f');
    ValuesThere(f, keep, ren, f');
    ValuesUsed(f, keep, ren, f');
  }

  lemma {:induction false} NewNameThere(f: Function, keep: set<BlockId>, ren: map<BlockId, BlockId>, f': Function, id: BlockId)
    requires DistinctIds(f.blocks) && Renamed(f, Survivors(f.blocks, keep), ren, f') && id in ren && id in keep && id in Ids(f.blocks)
    ensures ren[id] in Ids(f'.blocks)
  {
    var _, k := SurvivorNamed(f, keep, ren, f', id);
  }

  lemma {:induction false} NewReachable(f: Function, keep: set<BlockId>, ren: map<BlockId, BlockId>, f': Function)
    requires WellFormed(f) && ReachableIds(f, keep) && Renamed(f, Survivors(f.blocks, keep), ren, f')
    ensures NamesReachable(f, ren)
  {
    hide WellFormed, ReachableIds, Renamed, GraphOf;
    forall g, id | GraphOf(f, g) && g.Reachable(id) ensures id in ren { ReachableNamed(f, keep, ren, f', g, id); }
  }

  lemma {:induction false} RenamedKeepsCode(f: Function, keep: set<BlockId>, ren: map<BlockId, BlockId>, f': Function)
    requires WellFormed(f) && ReachableIds(f, keep) && Renamed(f, Survivors(f.blocks, keep), ren, f')
    ensures KeepsCode(f, ren, f')
  {
    hide WellFormed, ReachableIds, Renamed, Copy, NamesReachable;
    AllCopies(f, keep, ren, f');
    NewNames(f, keep, ren, f');
    NewReachable(f, keep, ren, f');
  }

  lemma {:induction false} EntryNamed(f: Function, keep: set<BlockId>, ren: map<BlockId, BlockId>, f': Function)
    requires WellFormed(f) && ReachableIds(f, keep) && Renamed(f, Survivors(f.blocks, keep), ren, f')
    ensures f.entryBlock in ren && f'.entryBlock == ren[f.entryBlock]
  {
    hide WellFormed;
    EntryIsBlock(f);
    var g :| GraphOf(f, g) && forall b :: b in keep <==> f.entryBlock != NO_BLOCK && g.Reachable(b);
    g.EntryReachable();
    var _, _ := SurvivorNamed(f, keep, ren, f', f.entryBlock);
  }

  lemma {:induction false} ReachableNamed(f: Function, keep: set<BlockId>, ren: map<BlockId, BlockId>, f': Function, g: Graph, id: BlockId)
    requires WellFormed(f) && ReachableIds(f, keep) && Renamed(f, Survivors(f.blocks, keep), ren, f') && GraphOf(f, g) && g.Reachable(id)
    ensures id in ren
  {
    hide WellFormed, ReachableIds;
    KeptAreReachable(f, keep, g, id);
    var _, _ := SurvivorNamed(f, keep, ren, f', id);
  }

  lemma {:induction false} CopyOf(f: Function, keep: set<BlockId>, ren: map<BlockId, BlockId>, f': Function, id: BlockId)
    requires DistinctIds(f.blocks) && Renamed(f, Survivors(f.blocks, keep), ren, f') && id in ren
    requires NO_BLOCK !in ren.Values && id in keep && id in Ids(f.blocks)
    requires forall b :: b in Survivors(f.blocks, keep) ==> !Dangles(ren, b)
    ensures ren[id] in Ids(f'.blocks) && Copy(ren, BlockAt(f.blocks, id), BlockAt(f'.blocks, ren[id]))
  {
    NewNamesPositive(f, keep, ren, f');
    hide Dangles, Copy, RewriteBlock;
    var i, k := SurvivorNamed(f, keep, ren, f', id);
    OnlyBlock(f.blocks, f.blocks[i]);
    RenamedIsCopy(ren, f.blocks[i]);
    OnlyBlock(f'.blocks, f'.blocks[k]);
  }

  lemma {:induction false} NewNameUsed(f: Function, keep: set<BlockId>, ren: map<BlockId, BlockId>, f': Function, id: BlockId)
    requires Renamed(f, Survivors(f.blocks, keep), ren, f') && id in Ids(f'.blocks)
    requires forall k :: 0 <= k < |f'.blocks| ==> f'.blocks[k].id == k + 1
    ensures id in ren.Values
  {
    hide RewriteBlock;
    var s := Survivors(f.blocks, keep);
    var k :| 0 <= k < |f'.blocks| && f'.blocks[k].id == id;
    assert s[k].id in ren && ren[s[k].id] == k + 1;
  }

  /** The blocks of a pruned function are copies of the reachable ones, and nothing else. */
  lemma {:induction false} PrunedKeepsCode(f: Function, keep: set<BlockId>, f': Function) returns (ren: map<BlockId, BlockId>)
    requires WellFormed(f) && ReachableIds(f, keep) && Pruned(f, keep, f')
    ensures KeepsCode(f, ren, f')
  {
    hide WellFormed, ReachableIds, Renamed, KeepsCode;
    if forall b :: b in f.blocks ==> b.id in keep {
      NoneDropped(f);
      ren := SameNames(Ids(f.blocks));
    } else {
      ren :| Renamed(f, Survivors(f.blocks, keep), ren, f');
      RenamedKeepsCode(f, keep, ren, f');
    }
  }

  // ---------- the operation ----------

  /** The keep pass: how many blocks stay, and whether that is all of them. */
  method CountKept(blocks: seq<BasicBlock>, keep: set<BlockId>) returns (kept: nat)
    ensures kept == |Survivors(blocks, keep)| <= |blocks|
    ensures kept == |blocks| <==> forall b :: b in blocks ==> b.id in keep
  {
    kept := 0;
    assert blocks[..0] == [];
    for i := 0 to |blocks|
      invariant kept == |Survivors(blocks[..i], keep)| <= i
      invariant kept == i <==> forall b :: b in blocks[..i] ==> b.id in keep
    {
      assert blocks[..i + 1] == blocks[..i] + [blocks[i]];
      SurvivorsSnoc(blocks[..i], keep, blocks[i]);
      if blocks[i].id in keep { kept := kept + 1; }
    }
    assert blocks[..|blocks|] == blocks;
  }

  /** The renumbering pass. */
  method Renumber(blocks: seq<BasicBlock>, keep: set<BlockId>) returns (survivors: seq<BasicBlock>, ren: map<BlockId, BlockId>)
    requires DistinctIds(blocks)
    ensures survivors == Survivors(blocks, keep) && Renumbers(survivors, ren)
  {
    hide Survivors;
    survivors, ren := [], map[];
    SurvivorsDistinct(blocks, keep);
    SurvivorsOfNone(keep);
    assert blocks[..0] == [];
    for i := 0 to |blocks|
      invariant survivors == Survivors(blocks[..i], keep) && Renumbers(survivors, ren)
      invariant survivors <= Survivors(blocks, keep)
    {
      assert blocks[..i + 1] == blocks[..i] + [blocks[i]];
      SurvivorsSnoc(blocks[..i], keep, blocks[i]);
      SurvivorsPrefix(blocks, keep, i + 1);
      if blocks[i].id in keep {
        RenumberNext(survivors, ren, blocks[i]);
        survivors := survivors + [blocks[i]];
        ren := ren[blocks[i].id := |survivors|];
      }
    }
    assert blocks[..|blocks|] == blocks;
  }

  lemma {:induction false} SurvivorsOfNone(keep: set<BlockId>)
    ensures Survivors([], keep) == []
  {
  }

  lemma {:induction false} SurvivorsPrefix(blocks: seq<BasicBlock>, keep: set<BlockId>, n: nat)
    requires n <= |blocks|
    ensures Survivors(blocks[..n], keep) <= Survivors(blocks, keep)
    decreases |blocks| - n
  {
    if n < |blocks| {
      SurvivorsPrefix(blocks, keep, n + 1);
      assert blocks[..n + 1] == blocks[..n] + [blocks[n]];
      SurvivorsSnoc(blocks[..n], keep, blocks[n]);
    } else {
      assert blocks[..n] == blocks;
    }
  }

  lemma {:induction false} RenumberNext(survivors: seq<BasicBlock>, ren: map<BlockId, BlockId>, b: BasicBlock)
    requires Renumbers(survivors, ren) && DistinctIds(survivors + [b])
    ensures Renumbers(survivors + [b], ren[b.id := |survivors| + 1])
  {
    var grown := survivors + [b];
    assert forall k :: 0 <= k < |survivors| ==> grown[k] == survivors[k];
    assert grown[|survivors|] == b;
  }

  /** The rewriting pass, noting whether some reference has no new name. */
  method RewriteSurvivors(survivors: seq<BasicBlock>, ren: map<BlockId, BlockId>) returns (renamed: seq<BasicBlock>, dangling: bool)
    ensures |renamed| == |survivors| && forall m :: 0 <= m < |survivors| ==> renamed[m] == RewriteBlock(ren, survivors[m])
    ensures dangling <==> exists b :: b in survivors && Dangles(ren, b)
  {
    hide RewriteBlock, Dangles;
    renamed, dangling := [], false;
    for k := 0 to |survivors|
      invariant |renamed| == k && forall m :: 0 <= m < k ==> renamed[m] == RewriteBlock(ren, survivors[m])
      invariant dangling <==> exists b :: b in survivors[..k] && Dangles(ren, b)
    {
      assert survivors[..k + 1] == survivors[..k] + [survivors[k]];
      renamed := renamed + [RewriteBlock(ren, survivors[k])];
      dangling := dangling || Dangles(ren, survivors[k]);
    }
    assert survivors[..|survivors|] == survivors;
  }

  class MutableFunction {
    var blocks: seq<BasicBlock>
    var entryBlock: BlockId

    constructor (f: Function)
      ensures View() == f
    {
      blocks, entryBlock := f.blocks, f.entryBlock;
    }

    function View(): Function
      reads this
    {
      Function(blocks, entryBlock)
    }

    /** `pruneUnreachableBlocks`: on a well-formed function the result is its pruned form; on any other it
        is that or the function left untouched. */
    method PruneUnreachableBlocks() returns (removed: nat)
      requires DistinctIds(blocks)
      modifies this
      ensures exists keep :: ReachableIds(old(View()), keep) &&
                (Pruned(old(View()), keep, View()) || View() == old(View())) &&
                (WellFormed(old(View())) ==> Pruned(old(View()), keep, View()))
      ensures WellFormed(old(View())) ==> exists ren :: KeepsCode(old(View()), ren, View())
      ensures removed == |old(blocks)| - |blocks|
    {
      hide KeepsCode, Survivors, WellFormed, ReachableIds, Dangles, ControlFlowGraph.Valid, DistinctIds;
      ghost var f := View();
      var cfg := new ControlFlowGraph(Function(blocks, entryBlock));
      var keep := cfg.reachableWithUnwind;
      KeepIsReachable(cfg);
      var kept := CountKept(blocks, keep);
      if kept == |blocks| {
        assert Pruned(f, keep, View());
        if WellFormed(f) { var _ := PrunedKeepsCode(f, keep, View()); }
        return 0;
      }
      var survivors, ren := Renumber(blocks, keep);
      var renamed, dangling := RewriteSurvivors(survivors, ren);
      if dangling {
        if WellFormed(f) { NeverDangling(f, keep, ren); }
        return 0;
      }
      removed := |blocks| - kept;
      blocks := renamed;
      entryBlock := Rewrite(ren, entryBlock);
      assert Renamed(f, Survivors(f.blocks, keep), ren, View());
      assert Pruned(f, keep, View());
      if WellFormed(f) { var _ := PrunedKeepsCode(f, keep, View()); }
    }
  }

  lemma {:induction false} NeverDangling(f: Function, keep: set<BlockId>, ren: map<BlockId, BlockId>)
    requires WellFormed(f) && ReachableIds(f, keep) && Renumbers(Survivors(f.blocks, keep), ren)
    ensures forall b :: b in Survivors(f.blocks, keep) ==> !Dangles(ren, b)
  {
    var g :| GraphOf(f, g) && forall b :: b in keep <==> f.entryBlock != NO_BLOCK && g.Reachable(b);
    assert f.entryBlock != NO_BLOCK;
    forall b | b in Survivors(f.blocks, keep)
      ensures !Dangles(ren, b)
    {
      forall r | r in References(b) && r != NO_BLOCK
        ensures r in ren
      {
        NothingDangles(f, g, keep, ren, b, r);
      }
    }
  }

  /** The analysis hands pruning exactly the blocks reachable along edges of both kinds. */
  lemma {:induction false} KeepIsReachable(cfg: ControlFlowGraph)
    requires cfg.Valid()
    ensures ReachableIds(cfg.fn, cfg.reachableWithUnwind)
  {
    hide DominanceRecorded, Mirrors;
    var f, g := cfg.fn, cfg.Full();
    forall i, v | 0 <= i < |f.blocks|
      ensures g.Edge(f.blocks[i].id, v) <==> Leads(Ids(f.blocks), f.blocks[i], v)
    {
      BothEdges(f.blocks, cfg.successors, cfg.unwindSuccessors, i, v);
    }
    assert GraphOf(f, g);
  }

  lemma {:induction false} BothEdges(blocks: seq<BasicBlock>, succ: map<BlockId, seq<BlockId>>, unwind: map<BlockId, seq<BlockId>>, i: nat, v: BlockId)
    requires RecordsEdges(blocks, succ, NormalTargets) && RecordsEdges(blocks, unwind, UnwindTargets) && i < |blocks|
    ensures blocks[i].id in Both(succ, unwind)
    ensures v in Both(succ, unwind)[blocks[i].id] <==> Leads(Ids(blocks), blocks[i], v)
  {
    assert blocks[i].id in Ids(blocks);
  }
}

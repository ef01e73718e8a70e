/** Dominance frontiers of src/mir/analysis.cpp, against their textbook definition. */
module MirFrontiers {
  import opened MirGraph
  import opened MirPostOrder
  import opened MirDomTree
  import opened MirDominators

  ghost predicate StrictlyDominates(g: Graph, a: BlockId, b: BlockId) {
    a != b && g.Dominates(a, b)
  }

  /** The documented frontier: `x` dominates a predecessor of `b` without strictly dominating `b`. */
  ghost predicate TextbookFrontier(g: Graph, x: BlockId, b: BlockId) {
    g.Reachable(b) && exists p :: g.Reachable(p) && g.Edge(p, b) && g.Dominates(x, p) && !StrictlyDominates(g, x, b)
  }

  /** What the walk from a predecessor `p` of `b` covers: the chain of `p` strictly below `idom(b)`. */
  ghost predicate OnWalk(t: DomTree, b: BlockId, p: BlockId, x: BlockId)
    requires b in t.idom
  {
    t.Anc(x, p) && !t.Anc(x, t.idom[b])
  }

  lemma {:induction false} WalkIsFrontier(g: Graph, t: DomTree, b: BlockId, p: BlockId, x: BlockId)
    requires ChainsAreDominators(g, t) && g.Reachable(b) && b != g.entry && g.Reachable(p) && g.Edge(p, b)
    ensures t.Anc(t.idom[b], p)
    ensures OnWalk(t, b, p, x) <==> g.Dominates(x, p) && !StrictlyDominates(g, x, b)
  {
    ImmediateDominatorIsClosest(g, t, b, x);
    g.DominatesPredecessor(t.idom[b], p, b);
    assert t.Linked(b);
    if StrictlyDominates(g, x, b) {
      assert t.Anc(x, t.idom[b]);
    }
    if t.Anc(x, t.idom[b]) {
      t.AncUp(x, t.idom[b]);
      assert t.Anc(x, b);
    }
  }

  /** A block entered from one place only is in no frontier, which is why the loop may skip it. */
  lemma {:induction false} SinglePredecessorJoinsNothing(g: Graph, t: DomTree, b: BlockId, p: BlockId, x: BlockId)
    requires ChainsAreDominators(g, t) && g.Reachable(b) && b != g.entry
    requires forall u :: g.Edge(u, b) ==> u == p
    ensures !TextbookFrontier(g, x, b)
  {
    var u := g.ReachablePredecessor(b);
    forall q | g.IsPath(q, b)
      ensures p in q
    {
      assert q[|q| - 2] == p;
    }
    WalkIsFrontier(g, t, b, p, x);
    assert g.Dominates(p, b) && t.Anc(p, b) && t.Linked(b);
    if p == b {
      t.AncUp(t.idom[b], p);
      OnlySelfEntered(g, b);
    } else {
      assert t.Anc(p, t.idom[b]);
      t.AncAntisymmetric(p, t.idom[b]);
    }
  }

  lemma {:induction false} OnlySelfEntered(g: Graph, b: BlockId)
    requires b != g.entry && forall u :: g.Edge(u, b) ==> u == b
    ensures !g.Reachable(b)
  {
    forall q
      ensures !g.IsPath(q, b)
    {
      SelfEnteredPath(g, b, q);
    }
  }

  lemma {:induction false} SelfEnteredPath(g: Graph, b: BlockId, q: seq<BlockId>)
    requires b != g.entry && forall u :: g.Edge(u, b) ==> u == b
    ensures !g.IsPath(q, b)
    decreases |q|
  {
    if |q| > 0 {
      SelfEnteredPath(g, b, q[..|q| - 1]);
    }
  }

  type Frontiers = map<BlockId, set<BlockId>>

  /** `immediateDominator`: the entry and unplaced blocks have none. */
  function ImmediateDominator(t: DomTree, b: BlockId): (d: BlockId)
    ensures t.Valid() && b in t.idom && b != t.entry ==> d == t.idom[b]
    ensures b == t.entry && t.Valid() ==> d == NO_BLOCK
  {
    if b !in t.idom then NO_BLOCK
    else
      var d := t.idom[b];
      assert t.Valid() && b != t.entry ==> t.Linked(b);
      if d == b then NO_BLOCK else d
  }

  /** `r` is `df` with `block` added to the frontier of every block of `joined`. */
  ghost predicate Adds(df: Frontiers, r: Frontiers, block: BlockId, joined: set<BlockId>) {
    && r.Keys == df.Keys
    && forall x :: x in df ==> r[x] == if x in joined then df[x] + {block} else df[x]
  }

  lemma {:induction false} AddsMore(df: Frontiers, r: Frontiers, r': Frontiers, block: BlockId, a: set<BlockId>, b: set<BlockId>)
    requires Adds(df, r, block, a) && Adds(r, r', block, b)
    ensures Adds(df, r', block, a + b)
  {
  }

  /** The chain of `pred` strictly below `stop`. */
  ghost function Below(t: DomTree, pred: BlockId, stop: BlockId): set<BlockId> {
    set x | x in t.idom && t.Anc(x, pred) && !t.Anc(x, stop)
  }

  /** The runner loop: `block` joins the frontier of everything between `pred` and `stop`. The guard of
      the source never ends it early. */
  method WalkUp(t: DomTree, df: Frontiers, block: BlockId, pred: BlockId, stop: BlockId, count: nat) returns (r: Frontiers)
    requires t.Valid() && NO_BLOCK !in t.idom && t.idom.Keys <= df.Keys
    requires t.Anc(stop, pred) && pred in t.num && t.num[pred] < count
    ensures r.Keys == df.Keys && Adds(df, r, block, Below(t, pred, stop))
  {
    r := df;
    var runner := pred;
    var guard := 0;
    assert Below(t, pred, pred) == {};
    while runner != NO_BLOCK && runner != stop && guard <= count + 1
      invariant runner in t.idom && t.Anc(stop, runner) && t.Anc(runner, pred)
      invariant guard + t.num[runner] <= t.num[pred]
      invariant Adds(df, r, block, Below(t, pred, runner))
      decreases t.num[runner]
    {
      guard := guard + 1;
      t.AncUp(stop, runner);
      OneBelow(t, pred, runner);
      ghost var before := r;
      r := r[runner := r[runner] + {block}];
      AddsMore(df, before, r, block, Below(t, pred, runner), {runner});
      var next := ImmediateDominator(t, runner);
      if next == runner { break; }
      runner := next;
    }
    t.AncUp(runner, pred);
  }

  /** Going up one link adds exactly one block to what is strictly below. */
  lemma {:induction false} OneBelow(t: DomTree, pred: BlockId, runner: BlockId)
    requires t.Valid() && t.Anc(runner, pred) && runner != t.entry
    ensures t.Linked(runner) && t.Anc(t.idom[runner], pred)
    ensures Below(t, pred, t.idom[runner]) == Below(t, pred, runner) + {runner}
  {
    t.AncUp(runner, pred);
    assert t.Linked(runner);
    var d := t.idom[runner];
    assert t.Anc(d, d);
    assert t.Anc(d, runner);
    t.AncTrans(d, runner, pred);
    if t.Anc(runner, d) { t.AncUp(runner, d); }
    forall x
      ensures t.Anc(x, runner) <==> x == runner || t.Anc(x, d)
    {
    }
  }

  /** The blocks past which some reachable predecessor in the list walks. */
  ghost function Walked(t: DomTree, b: BlockId, preds: seq<BlockId>): set<BlockId>
    requires b in t.idom
  {
    set x, p | p in preds && p in t.idom && x in t.idom && OnWalk(t, b, p, x) :: x
  }

  lemma {:induction false} WalkedSnoc(t: DomTree, b: BlockId, preds: seq<BlockId>, p: BlockId)
    requires b in t.idom
    ensures p in t.idom ==> Walked(t, b, preds + [p]) == Walked(t, b, preds) + Below(t, p, t.idom[b])
    ensures p !in t.idom ==> Walked(t, b, preds + [p]) == Walked(t, b, preds)
  {
    var more := if p in t.idom then Below(t, p, t.idom[b]) else {};
    forall x
      ensures x in Walked(t, b, preds + [p]) <==> x in Walked(t, b, preds) || x in more
    {
      if x in more { assert p in preds + [p] && OnWalk(t, b, p, x); }
      if x in Walked(t, b, preds) {
        var q :| q in preds && q in t.idom && x in t.idom && OnWalk(t, b, q, x);
        assert q in preds + [p];
      }
    }
  }

  lemma {:induction false} NothingWalked(t: DomTree, df: Frontiers, b: BlockId)
    requires b in t.idom
    ensures Walked(t, b, []) == {} && Adds(df, df, b, {})
  {
  }

  lemma {:induction false} StopOnChain(g: Graph, t: DomTree, b: BlockId, p: BlockId)
    requires ChainsAreDominators(g, t) && b in t.idom && b != g.entry && p in t.idom && g.Edge(p, b)
    ensures t.Anc(t.idom[b], p)
  {
    WalkIsFrontier(g, t, b, p, b);
  }

  /** All walks of one join; the entry has no immediate dominator to stop at and contributes nothing. */
  method JoinFrontier(g: Graph, t: DomTree, df: Frontiers, block: BlockId, preds: seq<BlockId>, reachable: set<BlockId>, count: nat)
    returns (r: Frontiers)
    requires ChainsAreDominators(g, t) && NO_BLOCK !in t.idom && t.idom.Keys <= df.Keys
    requires block in t.idom && reachable == t.idom.Keys && (forall b :: b in t.idom ==> t.num[b] < count)
    requires forall p :: p in preds ==> g.Edge(p, block)
    ensures Adds(df, r, block, if block == g.entry then {} else Walked(t, block, preds))
  {
    hide ChainsAreDominators, Walked, Below, Adds;
    FrontierFacts(g, t);
    r := df;
    var stop := ImmediateDominator(t, block);
    assert block != g.entry ==> t.Linked(block);
    NothingWalked(t, df, block);
    assert preds[..0] == [];
    for k := 0 to |preds|
      invariant t.idom.Keys <= r.Keys
      invariant Adds(df, r, block, if block == g.entry then {} else Walked(t, block, preds[..k]))
    {
      var runner := preds[k];
      assert preds[..k + 1] == preds[..k] + [runner];
      WalkedSnoc(t, block, preds[..k], runner);
      if stop != NO_BLOCK && runner in reachable {
        assert block != g.entry && stop == t.idom[block];
        StopOnChain(g, t, block, runner);
        ghost var before := r;
        r := WalkUp(t, r, block, runner, stop, count);
        AddsMore(df, before, r, block, Walked(t, block, preds[..k]), Below(t, runner, stop));
      }
    }
    assert preds[..|preds|] == preds;
  }

  ghost predicate FrontierAmong(g: Graph, frontier: set<BlockId>, blocks: seq<BlockId>, x: BlockId) {
    forall b :: b in frontier <==> b in blocks && b != g.entry && TextbookFrontier(g, x, b)
  }

  ghost predicate FrontiersCorrect(g: Graph, df: Frontiers, blocks: seq<BlockId>) {
    forall x :: x in df ==> FrontierAmong(g, df[x], blocks, x)
  }

  lemma {:induction false} JoinCorrect(g: Graph, df: Frontiers, r: Frontiers, blocks: seq<BlockId>, block: BlockId, joined: set<BlockId>)
    requires FrontiersCorrect(g, df, blocks) && Adds(df, r, block, joined)
    requires forall x :: x in df ==> (x in joined <==> block != g.entry && TextbookFrontier(g, x, block))
    ensures FrontiersCorrect(g, r, blocks + [block])
  {
    forall x | x in r
      ensures FrontierAmong(g, r[x], blocks + [block], x)
    {
      assert FrontierAmong(g, df[x], blocks, x);
      forall b
        ensures b in blocks + [block] <==> b in blocks || b == block
      {
      }
    }
  }

  lemma {:induction false} WalkedIsFrontier(g: Graph, t: DomTree, preds: seq<BlockId>, x: BlockId, b: BlockId)
    requires ChainsAreDominators(g, t) && b in t.idom && b != g.entry
    requires forall u :: u in preds <==> g.Edge(u, b)
    ensures x in Walked(t, b, preds) <==> TextbookFrontier(g, x, b)
  {
    if x in Walked(t, b, preds) {
      var p :| p in preds && p in t.idom && OnWalk(t, b, p, x);
      WalkIsFrontier(g, t, b, p, x);
    }
    if TextbookFrontier(g, x, b) {
      var p :| g.Reachable(p) && g.Edge(p, b) && g.Dominates(x, p) && !StrictlyDominates(g, x, b);
      WalkIsFrontier(g, t, b, p, x);
      t.AncUp(x, p);
      assert p in preds;
    }
  }

  /** A block that is skipped - unreachable, the entry, or with fewer than two distinct predecessors -
      joins no frontier. */
  lemma {:induction false} SkippedJoinsNothing(g: Graph, t: DomTree, preds: seq<BlockId>, x: BlockId, b: BlockId)
    requires ChainsAreDominators(g, t)
    requires forall u :: u in preds <==> g.Edge(u, b)
    requires |Elements(preds)| < 2 || b !in t.idom
    ensures b == g.entry || !TextbookFrontier(g, x, b)
  {
    if b in t.idom && b != g.entry {
      var u := g.ReachablePredecessor(b);
      forall v | g.Edge(v, b)
        ensures v == u
      {
        AtMostOne(Elements(preds), u, v);
      }
      SinglePredecessorJoinsNothing(g, t, b, u, x);
    }
  }

  lemma {:induction false} AtMostOne(s: set<BlockId>, u: BlockId, v: BlockId)
    requires |s| < 2 && u in s && v in s
    ensures u == v
  {
    assert |s - {u}| == |s| - 1;
    assert v !in s - {u};
  }

  /** src/mir/analysis.cpp, `computeDominanceFrontiers`. The entry is the one reachable block for which
      the result departs from the textbook: it is never put into a frontier. */
  method ComputeDominanceFrontiers(g: Graph, order: seq<BlockId>, t: DomTree, preds: map<BlockId, seq<BlockId>>, reachable: set<BlockId>)
    returns (df: Frontiers)
    requires g.Closed() && NO_BLOCK !in g.succ && ChainsAreDominators(g, t) && ListsPredecessors(g, preds)
    requires Elements(order) == g.succ.Keys
    requires reachable == t.idom.Keys && reachable <= g.succ.Keys
    requires forall b :: b in t.idom ==> t.num[b] < |order|
    ensures df.Keys == g.succ.Keys
    ensures forall x, b :: x in df ==> (b in df[x] <==> b != g.entry && TextbookFrontier(g, x, b))
  {
    hide ChainsAreDominators, TextbookFrontier, FrontiersCorrect, Walked;
    FrontierFacts(g, t);
    df := map b | b in g.succ :: {};
    NoBlocksYet(g, df);
    assert order[..0] == [];
    for i := 0 to |order|
      invariant df.Keys == g.succ.Keys
      invariant FrontiersCorrect(g, df, order[..i])
    {
      var block := order[i];
      assert order[..i + 1] == order[..i] + [block];
      ghost var before, joined := df, {};
      if block in reachable && |Elements(preds[block])| >= 2 {
        FrontierFacts(g, t);
        df := JoinFrontier(g, t, df, block, preds[block], reachable, |order|);
        if block != g.entry { joined := Walked(t, block, preds[block]); }
      }
      forall x | x in before
        ensures x in joined <==> block != g.entry && TextbookFrontier(g, x, block)
      {
        if block !in reachable || |Elements(preds[block])| < 2 {
          SkippedJoinsNothing(g, t, preds[block], x, block);
        } else if block != g.entry {
          WalkedIsFrontier(g, t, preds[block], x, block);
        }
      }
      JoinCorrect(g, before, df, order[..i], block, joined);
    }
    assert order[..|order|] == order;
    AllBlocksJoined(g, df, order);
  }

  lemma {:induction false} AllBlocksJoined(g: Graph, df: Frontiers, order: seq<BlockId>)
    requires g.Closed() && FrontiersCorrect(g, df, order) && Elements(order) == g.succ.Keys
    ensures forall x, b :: x in df ==> (b in df[x] <==> b != g.entry && TextbookFrontier(g, x, b))
  {
    forall x, b | x in df
      ensures b in df[x] <==> b != g.entry && TextbookFrontier(g, x, b)
    {
      assert FrontierAmong(g, df[x], order, x);
      if TextbookFrontier(g, x, b) { FrontierBlockKnown(g, x, b); }
      assert b in order <==> b in Elements(order);
    }
  }

  lemma {:induction false} NoBlocksYet(g: Graph, df: Frontiers)
    requires forall x :: x in df ==> df[x] == {}
    ensures FrontiersCorrect(g, df, [])
  {
  }

  lemma {:induction false} FrontierFacts(g: Graph, t: DomTree)
    requires ChainsAreDominators(g, t)
    ensures t.Valid() && t.entry == g.entry
  {
  }

  lemma {:induction false} FrontierBlockKnown(g: Graph, x: BlockId, b: BlockId)
    requires g.Closed() && TextbookFrontier(g, x, b)
    ensures b in g.succ
  {
    var p :| g.IsPath(p, b);
    g.ClosedSetHoldsPath(g.succ.Keys, p, b);
  }

  /** Leaving the entry out loses something exactly when the entry can be jumped back to. */
  lemma {:induction false} EntryExceptionMatters(g: Graph)
    ensures (forall x, b :: b != g.entry && TextbookFrontier(g, x, b) <==> TextbookFrontier(g, x, b))
       <==> !exists p :: g.Reachable(p) && g.Edge(p, g.entry)
  {
    g.EntryReachable();
    if p :| g.Reachable(p) && g.Edge(p, g.entry) {
      g.EntryDominatesAll(p);
      assert TextbookFrontier(g, g.entry, g.entry);
    }
  }
}

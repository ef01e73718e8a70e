/** The iterative dominator computation of src/mir/analysis.cpp: its sweep invariant, its termination
    and the dominators it leaves behind. */
module MirDominators {
  import opened MirGraph
  import opened MirPostOrder
  import opened MirDomTree

  /** `t` numbers exactly the blocks of `rpo`, by position. */
  ghost predicate Numbered(g: Graph, rpo: seq<BlockId>, t: DomTree) {
    && IsReversePostOrder(g, rpo)
    && t.entry == g.entry
    && (forall b :: b in t.num <==> b in rpo)
    && (forall i :: 0 <= i < |rpo| ==> t.num[rpo[i]] == i)
  }

  /** The predecessors of `b` that have an immediate dominator by now. */
  ghost function Placed(g: Graph, t: DomTree, b: BlockId): set<BlockId> {
    set p | p in t.idom && g.Edge(p, b)
  }

  // ---------- the sweep invariant ----------

  /** No dominator is lost: every dominator of a placed block is on its chain. */
  ghost predicate KeepsDominators(g: Graph, t: DomTree) {
    forall a, b {:trigger t.Anc(a, b)} {:trigger g.Dominates(a, b)} ::
      b in t.idom && g.Dominates(a, b) ==> t.Anc(a, b)
  }

  /** A block earlier than `idom(b)` that can be avoided on the way to `idom(b)` can be avoided on the
      way to `b`. */
  ghost predicate Skirts(g: Graph, t: DomTree, b: BlockId)
    requires t.Linked(b)
  {
    forall a :: a in t.num && t.num[a] < t.num[t.idom[b]] && g.Avoidable(a, t.idom[b]) ==> g.Avoidable(a, b)
  }

  /** `idom(b)` is at or below the meet of the predecessors: recomputing it can only move `b` up. */
  ghost predicate AtOrBelowMeet(g: Graph, t: DomTree, b: BlockId)
    requires b in t.idom
  {
    forall z {:trigger AboveAll(t, Placed(g, t, b), z)} :: AboveAll(t, Placed(g, t, b), z) ==> t.Anc(z, t.idom[b])
  }

  /** With the sweep at position `i`: `idom(b)` is on the chain of every forward predecessor, unless `b`
      is still to be visited and `idom(b)` was visited before the sweep came to `i`. */
  ghost predicate OnForwardChains(g: Graph, t: DomTree, b: BlockId, i: nat)
    requires t.Linked(b)
  {
    t.num[b] < i || t.num[t.idom[b]] >= i ==>
      forall p {:trigger g.Edge(p, b)} :: p in t.idom && g.Edge(p, b) && p in t.num && t.num[p] < t.num[b] ==> t.Anc(t.idom[b], p)
  }

  ghost predicate BlockInv(g: Graph, t: DomTree, b: BlockId, i: nat) {
    t.Linked(b) && Skirts(g, t, b) && AtOrBelowMeet(g, t, b) && OnForwardChains(g, t, b, i)
  }

  ghost predicate SweepInv(g: Graph, rpo: seq<BlockId>, t: DomTree, i: nat) {
    && Numbered(g, rpo, t)
    && t.Valid()
    && 1 <= i <= |rpo|
    && (forall b, d :: b in t.idom && d in t.num && t.num[d] < t.num[b] ==> d in t.idom)
    && (forall j :: 0 <= j < i ==> rpo[j] in t.idom)
    && KeepsDominators(g, t)
    && (forall b {:trigger BlockInv(g, t, b, i)} :: b in t.idom && b != t.entry ==> BlockInv(g, t, b, i))
  }

  lemma {:induction false} SkirtChain(g: Graph, rpo: seq<BlockId>, t: DomTree, i: nat, a: BlockId, y: BlockId, b: BlockId)
    requires SweepInv(g, rpo, t, i) && t.Anc(y, b)
    requires y in t.num && a in t.num && t.num[a] < t.num[y] && g.Avoidable(a, y)
    ensures g.Avoidable(a, b)
    decreases if b in t.num then t.num[b] else 0
  {
    if y != b {
      t.AncUp(y, b);
      t.AncUp(y, t.idom[b]);
      SkirtChain(g, rpo, t, i, a, y, t.idom[b]);
      assert BlockInv(g, t, b, i);
    }
  }

  /** Every placed block has a placed predecessor that comes before it. */
  lemma {:induction false} ForwardPredecessor(g: Graph, rpo: seq<BlockId>, t: DomTree, b: BlockId) returns (p: BlockId)
    requires Numbered(g, rpo, t) && b in t.num && b != t.entry
    requires forall d :: d in t.num && t.num[d] < t.num[b] ==> d in t.idom
    ensures p in t.idom && p in t.num && g.Edge(p, b) && t.num[p] < t.num[b]
  {
    var j :| 0 <= j < |rpo| && rpo[j] == b;
    assert j != 0 && EnteredFromEarlier(g, rpo, j);
    var k :| 0 <= k < j && g.Edge(rpo[k], rpo[j]);
    p := rpo[k];
  }

  /** The sweep is at `y`, and `c` is the meet the inner loop computed for it. */
  ghost predicate Updating(g: Graph, rpo: seq<BlockId>, t: DomTree, i: nat, y: BlockId, c: BlockId) {
    && SweepInv(g, rpo, t, i) && i < |rpo| && y == rpo[i]
    && IsMeet(t, Placed(g, t, y), c)
  }

  lemma {:induction false} UpdateMovesUp(g: Graph, rpo: seq<BlockId>, t: DomTree, i: nat, y: BlockId, c: BlockId)
    requires Updating(g, rpo, t, i, y, c)
    ensures t.CanMove(y, c)
    ensures y in t.idom ==> t.Anc(c, t.idom[y])
  {
    var p := ForwardPredecessor(g, rpo, t, y);
    assert t.Anc(c, c);
    assert AboveAll(t, Placed(g, t, y), c);
    t.AncUp(c, p);
    if y in t.idom {
      assert BlockInv(g, t, y, i);
    }
  }

  /** Moving up only shortens chains. */
  lemma {:induction false} UpdateShrinks(g: Graph, rpo: seq<BlockId>, t: DomTree, i: nat, y: BlockId, c: BlockId, z: BlockId, x: BlockId)
    requires Updating(g, rpo, t, i, y, c) && x in t.idom
    requires t.Moved(y, c).Anc(z, x)
    ensures t.Anc(z, x)
  {
    UpdateMovesUp(g, rpo, t, i, y, c);
    if t.Anc(y, x) {
      t.MovedInside(y, c, z, x);
      t.AncUp(y, x);
      if t.Anc(z, c) {
        t.AncTrans(z, c, t.idom[y]);
        assert t.Linked(y) && t.Anc(z, y);
        t.AncTrans(z, y, x);
      }
    } else {
      t.MovedOutside(y, c, z, x);
    }
  }

  /** The dominators of `y` are exactly kept by the new link. */
  lemma {:induction false} DominatorsAboveMeet(g: Graph, rpo: seq<BlockId>, t: DomTree, i: nat, y: BlockId, c: BlockId, a: BlockId)
    requires Updating(g, rpo, t, i, y, c) && g.Dominates(a, y) && a != y
    ensures t.Anc(a, c)
  {
    forall p | p in Placed(g, t, y)
      ensures t.Anc(a, p)
    {
      g.DominatesPredecessor(a, p, y);
    }
    assert AboveAll(t, Placed(g, t, y), a);
  }

  lemma {:induction false} UpdateKeepsDominator(g: Graph, rpo: seq<BlockId>, t: DomTree, i: nat, y: BlockId, c: BlockId, a: BlockId, b: BlockId)
    requires Updating(g, rpo, t, i, y, c) && b in t.Moved(y, c).idom && g.Dominates(a, b)
    ensures t.Moved(y, c).Anc(a, b)
  {
    UpdateMovesUp(g, rpo, t, i, y, c);
    t.MovedTarget(y, c, a);
    if b == y {
      if a != y { DominatorsAboveMeet(g, rpo, t, i, y, c, a); }
    } else if !t.Anc(y, b) {
      assert t.Anc(a, b);
      t.MovedOutside(y, c, a, b);
    } else {
      assert t.Anc(a, b);
      t.MovedInside(y, c, a, b);
      t.AncUp(a, b);
      t.AncUp(y, b);
      if !t.Anc(y, a) {
        if t.num[y] <= t.num[a] { t.AncLinear(y, a, b); }
        if !g.Dominates(a, y) {
          assert g.Avoidable(a, y);
          SkirtChain(g, rpo, t, i, a, y, b);
        }
        DominatorsAboveMeet(g, rpo, t, i, y, c, a);
      }
    }
  }

  lemma {:induction false} UpdateSkirts(g: Graph, rpo: seq<BlockId>, t: DomTree, i: nat, y: BlockId, c: BlockId, a: BlockId)
    requires Updating(g, rpo, t, i, y, c)
    requires a in t.num && c in t.num && t.num[a] < t.num[c] && g.Avoidable(a, c)
    ensures g.Avoidable(a, y)
  {
    UpdateMovesUp(g, rpo, t, i, y, c);
    var p := ForwardPredecessor(g, rpo, t, y);
    assert t.Anc(c, c);
    assert AboveAll(t, Placed(g, t, y), c);
    SkirtChain(g, rpo, t, i, a, c, p);
    g.AvoidableStep(a, p, y);
  }

  /** A common ancestor of all predecessors after the update was one before. */
  lemma {:induction false} AboveAllShrinks(g: Graph, rpo: seq<BlockId>, t: DomTree, i: nat, y: BlockId, c: BlockId, b: BlockId, z: BlockId)
    requires Updating(g, rpo, t, i, y, c) && AboveAll(t.Moved(y, c), Placed(g, t.Moved(y, c), b), z)
    ensures AboveAll(t, Placed(g, t, b), z)
  {
    forall p | p in Placed(g, t, b)
      ensures t.Anc(z, p)
    {
      assert p in Placed(g, t.Moved(y, c), b);
      UpdateShrinks(g, rpo, t, i, y, c, z, p);
    }
  }

  lemma {:induction false} UpdateAtOrBelowMeet(g: Graph, rpo: seq<BlockId>, t: DomTree, i: nat, y: BlockId, c: BlockId, b: BlockId, z: BlockId)
    requires Updating(g, rpo, t, i, y, c) && b in t.Moved(y, c).idom && b != t.entry
    requires AboveAll(t.Moved(y, c), Placed(g, t.Moved(y, c), b), z)
    ensures t.Moved(y, c).Anc(z, t.Moved(y, c).idom[b])
  {
    UpdateMovesUp(g, rpo, t, i, y, c);
    AboveAllShrinks(g, rpo, t, i, y, c, b, z);
    if b == y {
      t.MovedTarget(y, c, z);
    } else {
      var d := t.idom[b];
      assert BlockInv(g, t, b, i);
      assert t.Anc(z, d);
      if !t.Anc(y, d) {
        t.MovedOutside(y, c, z, d);
      } else {
        t.AncUp(y, d);
        var p := ForwardPredecessor(g, rpo, t, b);
        assert t.Anc(d, p);
        t.AncTrans(y, d, p);
        assert p in Placed(g, t.Moved(y, c), b);
        t.MovedInside(y, c, z, p);
        t.MovedInside(y, c, z, d);
      }
    }
  }

  lemma {:induction false} UpdateOnForwardChains(g: Graph, rpo: seq<BlockId>, t: DomTree, i: nat, y: BlockId, c: BlockId, b: BlockId, p: BlockId)
    requires Updating(g, rpo, t, i, y, c) && b in t.Moved(y, c).idom && b != t.entry
    requires p in t.Moved(y, c).idom && p in t.num && g.Edge(p, b) && b in t.num && t.num[p] < t.num[b]
    requires var d := t.Moved(y, c).idom[b]; d in t.num && (t.num[b] < i + 1 || t.num[d] >= i + 1)
    ensures t.Moved(y, c).Anc(t.Moved(y, c).idom[b], p)
  {
    UpdateMovesUp(g, rpo, t, i, y, c);
    assert p in t.idom;
    if b == y {
      assert t.Anc(c, c);
      assert AboveAll(t, Placed(g, t, y), c);
      assert t.Anc(c, p);
      if t.Anc(y, p) { t.AncUp(y, p); }
      t.MovedOutside(y, c, c, p);
    } else {
      var d := t.idom[b];
      assert BlockInv(g, t, b, i);
      assert t.num[b] != i;
      assert t.Anc(d, p);
      if t.Anc(y, p) {
        t.AncUp(y, p);
        t.AncLinear(y, d, p);
        t.MovedInside(y, c, d, p);
      } else {
        t.MovedOutside(y, c, d, p);
      }
    }
  }

  lemma {:induction false} UpdateKeepsBlock(g: Graph, rpo: seq<BlockId>, t: DomTree, i: nat, y: BlockId, c: BlockId, b: BlockId)
    requires Updating(g, rpo, t, i, y, c) && b in t.Moved(y, c).idom && b != t.entry
    ensures BlockInv(g, t.Moved(y, c), b, i + 1)
  {
    var t' := t.Moved(y, c);
    UpdateMovesUp(g, rpo, t, i, y, c);
    t.MovedValid(y, c);
    assert t'.Linked(b);
    forall a | a in t'.num && t'.num[a] < t'.num[t'.idom[b]] && g.Avoidable(a, t'.idom[b])
      ensures g.Avoidable(a, b)
    {
      if b == y { UpdateSkirts(g, rpo, t, i, y, c, a); } else { assert BlockInv(g, t, b, i); }
    }
    forall z | AboveAll(t', Placed(g, t', b), z)
      ensures t'.Anc(z, t'.idom[b])
    {
      UpdateAtOrBelowMeet(g, rpo, t, i, y, c, b, z);
    }
    if t'.num[b] < i + 1 || t'.num[t'.idom[b]] >= i + 1 {
      forall p | p in t'.idom && g.Edge(p, b) && p in t'.num && t'.num[p] < t'.num[b]
        ensures t'.Anc(t'.idom[b], p)
      {
        UpdateOnForwardChains(g, rpo, t, i, y, c, b, p);
      }
    }
  }

  lemma {:induction false} UpdateKeepsPrefix(g: Graph, rpo: seq<BlockId>, t: DomTree, i: nat, y: BlockId, c: BlockId)
    requires Updating(g, rpo, t, i, y, c)
    ensures forall b, d :: b in t.Moved(y, c).idom && d in t.num && b in t.num && t.num[d] < t.num[b] ==> d in t.Moved(y, c).idom
    ensures forall j :: 0 <= j < i + 1 ==> rpo[j] in t.Moved(y, c).idom
  {
    hide BlockInv, IsMeet, KeepsDominators;
    forall d | d in t.num && t.num[d] < t.num[y]
      ensures d in t.idom
    {
      var j :| 0 <= j < |rpo| && rpo[j] == d;
    }
  }

  /** One visit of the sweep keeps the invariant, whether or not it changes anything. */
  lemma {:induction false} UpdateKeeps(g: Graph, rpo: seq<BlockId>, t: DomTree, i: nat, y: BlockId, c: BlockId)
    requires Updating(g, rpo, t, i, y, c)
    ensures SweepInv(g, rpo, t.Moved(y, c), i + 1)
  {
    hide BlockInv, IsMeet, IsReversePostOrder;
    var t' := t.Moved(y, c);
    UpdateMovesUp(g, rpo, t, i, y, c);
    t.MovedValid(y, c);
    UpdateKeepsPrefix(g, rpo, t, i, y, c);
    forall a, b | b in t'.idom && g.Dominates(a, b)
      ensures t'.Anc(a, b)
    {
      UpdateKeepsDominator(g, rpo, t, i, y, c, a, b);
    }
    forall b | b in t'.idom && b != t'.entry
      ensures BlockInv(g, t', b, i + 1)
    {
      UpdateKeepsBlock(g, rpo, t, i, y, c, b);
    }
  }

  lemma {:induction false} SweepRestarts(g: Graph, rpo: seq<BlockId>, t: DomTree)
    requires SweepInv(g, rpo, t, |rpo|)
    ensures SweepInv(g, rpo, t, 1)
  {
    forall b | b in t.idom && b != t.entry
      ensures BlockInv(g, t, b, 1)
    {
      assert BlockInv(g, t, b, |rpo|);
    }
  }

  lemma {:induction false} SweepStarts(g: Graph, rpo: seq<BlockId>, t: DomTree)
    requires Numbered(g, rpo, t) && t.idom == map[t.entry := t.entry]
    ensures SweepInv(g, rpo, t, 1) && |rpo| > 0
  {
    assert rpo[0] in t.num;
    forall b, c | b in t.num && c in t.num && t.num[b] == t.num[c]
      ensures b == c
    {
      var j :| 0 <= j < |rpo| && rpo[j] == b;
      var k :| 0 <= k < |rpo| && rpo[k] == c;
    }
    forall a, b | b in t.idom && g.Dominates(a, b)
      ensures t.Anc(a, b)
    {
      g.OnlyEntryDominatesEntry(a);
    }
  }

  // ---------- termination ----------

  /** Sum of the positions of the immediate dominators of `rpo[..k]`; an unplaced block counts as `|rpo|`. */
  ghost function Height(rpo: seq<BlockId>, t: DomTree, k: nat): nat
    requires k <= |rpo|
  {
    if k == 0 then 0
    else
      var b := rpo[k - 1];
      Height(rpo, t, k - 1) + if b in t.idom && t.idom[b] in t.num then t.num[t.idom[b]] else |rpo|
  }

  lemma {:induction false} HeightFalls(rpo: seq<BlockId>, t: DomTree, y: BlockId, c: BlockId, i: nat, k: nat)
    requires Distinct(rpo) && k <= |rpo| && i < |rpo| && rpo[i] == y
    requires c in t.num && t.num[c] < |rpo|
    requires y in t.idom ==> t.idom[y] in t.num && t.num[c] < t.num[t.idom[y]]
    ensures if i < k then Height(rpo, t.Moved(y, c), k) < Height(rpo, t, k) else Height(rpo, t.Moved(y, c), k) == Height(rpo, t, k)
    decreases k
  {
    if k > 0 {
      HeightFalls(rpo, t, y, c, i, k - 1);
      assert rpo[k - 1] == y <==> k - 1 == i;
    }
  }

  /** A visit that changes `idom(y)` strictly lowers the height: it moves `y` to a proper ancestor. */
  lemma {:induction false} UpdateFalls(g: Graph, rpo: seq<BlockId>, t: DomTree, i: nat, y: BlockId, c: BlockId)
    requires Updating(g, rpo, t, i, y, c)
    requires y in t.idom ==> t.idom[y] != c
    ensures Height(rpo, t.Moved(y, c), |rpo|) < Height(rpo, t, |rpo|)
  {
    UpdateMovesUp(g, rpo, t, i, y, c);
    assert rpo[t.num[c]] == c by {
      var j :| 0 <= j < |rpo| && rpo[j] == c;
    }
    if y in t.idom {
      t.AncUp(c, t.idom[y]);
    }
    HeightFalls(rpo, t, y, c, i, |rpo|);
  }

  // ---------- what the fixpoint means ----------

  /** `idom(b)` is the meet of the predecessors: the visit of `b` changes nothing. */
  ghost predicate Stable(g: Graph, t: DomTree, b: BlockId) {
    b in t.idom && IsMeet(t, Placed(g, t, b), t.idom[b])
  }

  /** The chain of every reachable block holds exactly its dominators. */
  ghost predicate ChainsAreDominators(g: Graph, t: DomTree) {
    && t.Valid() && t.entry == g.entry
    && (forall b :: b in t.idom <==> g.Reachable(b))
    && (forall a, b {:trigger t.Anc(a, b)} {:trigger g.Dominates(a, b)} ::
          g.Reachable(b) ==> (t.Anc(a, b) <==> g.Dominates(a, b)))
  }

  lemma {:induction false} AncestorOnPath(g: Graph, rpo: seq<BlockId>, t: DomTree, a: BlockId, b: BlockId, p: seq<BlockId>)
    requires Numbered(g, rpo, t) && t.Valid() && t.Anc(a, b) && g.IsPath(p, b)
    requires forall x :: g.Reachable(x) ==> x in t.idom
    requires forall x {:trigger Stable(g, t, x)} :: x in t.idom && x != t.entry ==> Stable(g, t, x)
    ensures a in p
    decreases |p|
  {
    t.AncUp(a, b);
    if a != b {
      var u, front := p[|p| - 2], p[..|p| - 1];
      assert g.IsPath(front, u) && g.Reachable(u);
      assert Stable(g, t, b) && u in Placed(g, t, b);
      AncestorOnPath(g, rpo, t, a, u, front);
    }
  }

  lemma {:induction false} FixpointIsDominance(g: Graph, rpo: seq<BlockId>, t: DomTree)
    requires SweepInv(g, rpo, t, |rpo|)
    requires forall j :: 1 <= j < |rpo| ==> Stable(g, t, rpo[j])
    ensures Numbered(g, rpo, t) && ChainsAreDominators(g, t)
  {
    hide BlockInv;
    forall b
      ensures b in t.idom <==> g.Reachable(b)
    {
      if g.Reachable(b) { var j :| 0 <= j < |rpo| && rpo[j] == b; }
    }
    forall x | x in t.idom && x != t.entry
      ensures Stable(g, t, x)
    {
      var j :| 0 <= j < |rpo| && rpo[j] == x;
    }
    forall a, b, p | t.Anc(a, b) && g.IsPath(p, b)
      ensures a in p
    {
      AncestorOnPath(g, rpo, t, a, b, p);
    }
  }

  /** The stored immediate dominator is a strict dominator, and the closest one. */
  lemma {:induction false} ImmediateDominatorIsClosest(g: Graph, t: DomTree, b: BlockId, a: BlockId)
    requires ChainsAreDominators(g, t) && g.Reachable(b) && b != g.entry
    ensures t.Linked(b) && t.idom[b] != b && g.Dominates(t.idom[b], b) && g.Reachable(t.idom[b])
    ensures g.Dominates(a, b) && a != b ==> g.Dominates(a, t.idom[b])
  {
    assert t.Linked(b) && t.Anc(t.idom[b], t.idom[b]);
    assert t.Anc(t.idom[b], b);
    if g.Dominates(a, b) && a != b {
      assert t.Anc(a, b);
      t.AncUp(a, b);
    }
  }

  // ---------- the algorithm ----------

  /** `preds` lists, for every block of the graph, the sources of its incoming edges. */
  ghost predicate ListsPredecessors(g: Graph, preds: map<BlockId, seq<BlockId>>) {
    forall b :: b in g.succ ==> b in preds && forall u :: u in preds[b] <==> g.Edge(u, b)
  }

  /** The inner loop over predecessors: the meet of those placed so far. */
  method MeetOfPredecessors(g: Graph, t: DomTree, preds: seq<BlockId>) returns (newIdom: BlockId)
    requires t.Valid() && NO_BLOCK !in t.idom
    ensures newIdom == NO_BLOCK ==> forall p :: p in preds ==> p !in t.idom
    ensures newIdom != NO_BLOCK ==> IsMeet(t, (set p | p in preds && p in t.idom), newIdom)
  {
    newIdom := NO_BLOCK;
    ghost var seen: set<BlockId> := {};
    for k := 0 to |preds|
      invariant seen == set p | p in preds[..k] && p in t.idom
      invariant newIdom == NO_BLOCK ==> seen == {}
      invariant newIdom != NO_BLOCK ==> IsMeet(t, seen, newIdom)
    {
      var pred := preds[k];
      assert preds[..k + 1] == preds[..k] + [pred];
      if pred in t.idom {
        if newIdom == NO_BLOCK {
          newIdom := pred;
          assert IsMeet(t, {pred}, pred);
        } else {
          var r := Intersect(t, pred, newIdom);
          MeetGrows(t, seen, newIdom, pred, r);
          newIdom := r;
        }
        seen := seen + {pred};
      }
    }
    assert preds[..|preds|] == preds;
    assert forall p :: p in preds && p in t.idom ==> p in seen;
  }

  lemma {:induction false} MeetGrows(t: DomTree, seen: set<BlockId>, c: BlockId, pred: BlockId, r: BlockId)
    requires IsMeet(t, seen, c) && IsMeet(t, {pred, c}, r)
    ensures IsMeet(t, seen + {pred}, r)
  {
    forall z
      ensures t.Anc(z, r) <==> AboveAll(t, seen + {pred}, z)
    {
      assert AboveAll(t, {pred, c}, z) <==> t.Anc(z, pred) && t.Anc(z, c);
      assert AboveAll(t, seen + {pred}, z) <==> AboveAll(t, seen, z) && t.Anc(z, pred);
    }
  }

  /** src/mir/analysis.cpp, `computeDominators`. */
  method ComputeDominators(g: Graph, rpo: seq<BlockId>, preds: map<BlockId, seq<BlockId>>) returns (t: DomTree)
    requires g.Closed() && NO_BLOCK !in g.succ
    requires IsReversePostOrder(g, rpo) && ListsPredecessors(g, preds)
    ensures Numbered(g, rpo, t) && ChainsAreDominators(g, t)
  {
    hide SweepInv, IsMeet, Numbered, IsReversePostOrder, ChainsAreDominators;
    var num := NumberBlocks(g, rpo);
    t := DomTree(g.entry, num, map[g.entry := g.entry]);
    SweepStarts(g, rpo, t);
    var changed := true;
    while changed
      invariant SweepInv(g, rpo, t, 1)
      invariant !changed ==> SweepInv(g, rpo, t, |rpo|) && forall j :: 1 <= j < |rpo| ==> Stable(g, t, rpo[j])
      decreases Height(rpo, t, |rpo|), changed
    {
      changed := false;
      ghost var height := Height(rpo, t, |rpo|);
      for i := 1 to |rpo|
        invariant SweepInv(g, rpo, t, i)
        invariant if changed then Height(rpo, t, |rpo|) < height else Height(rpo, t, |rpo|) == height
        invariant !changed ==> forall j :: 1 <= j < i ==> Stable(g, t, rpo[j])
      {
        var block := rpo[i];
        InGraph(g, rpo, t, i);
        var newIdom := MeetOfPredecessors(g, t, preds[block]);
        VisitMeets(g, rpo, t, i, preds[block], newIdom);
        UpdateKeeps(g, rpo, t, i, block, newIdom);
        if newIdom != NO_BLOCK && (block !in t.idom || t.idom[block] != newIdom) {
          UpdateFalls(g, rpo, t, i, block, newIdom);
          t := t.Moved(block, newIdom);
          changed := true;
        } else {
          assert t.Moved(block, newIdom) == t;
        }
      }
      SweepRestarts(g, rpo, t);
    }
    FixpointIsDominance(g, rpo, t);
  }

  method NumberBlocks(g: Graph, rpo: seq<BlockId>) returns (num: map<BlockId, nat>)
    requires IsReversePostOrder(g, rpo)
    ensures Numbered(g, rpo, DomTree(g.entry, num, map[g.entry := g.entry]))
  {
    num := map[];
    for i := 0 to |rpo|
      invariant forall b :: b in num <==> b in rpo[..i]
      invariant forall j :: 0 <= j < i ==> num[rpo[j]] == j
    {
      num := num[rpo[i] := i];
      assert rpo[..i + 1] == rpo[..i] + [rpo[i]];
    }
    assert rpo[..|rpo|] == rpo;
  }

  lemma {:induction false} InGraph(g: Graph, rpo: seq<BlockId>, t: DomTree, i: nat)
    requires g.Closed() && NO_BLOCK !in g.succ && SweepInv(g, rpo, t, i) && i < |rpo|
    ensures rpo[i] in g.succ && NO_BLOCK !in t.idom && t.Valid()
  {
    forall b | b in t.num
      ensures b in g.succ
    {
      var p :| g.IsPath(p, b);
      g.ClosedSetHoldsPath(g.succ.Keys, p, b);
    }
    assert rpo[i] in t.num;
  }

  lemma {:induction false} VisitMeets(g: Graph, rpo: seq<BlockId>, t: DomTree, i: nat, preds: seq<BlockId>, newIdom: BlockId)
    requires SweepInv(g, rpo, t, i) && i < |rpo|
    requires forall u :: u in preds <==> g.Edge(u, rpo[i])
    requires newIdom == NO_BLOCK ==> forall p :: p in preds ==> p !in t.idom
    requires newIdom != NO_BLOCK ==> IsMeet(t, (set p | p in preds && p in t.idom), newIdom)
    ensures newIdom != NO_BLOCK && Updating(g, rpo, t, i, rpo[i], newIdom)
    ensures rpo[i] in t.idom && t.idom[rpo[i]] == newIdom ==> Stable(g, t, rpo[i])
  {
    hide BlockInv;
    forall d | d in t.num && t.num[d] < t.num[rpo[i]]
      ensures d in t.idom
    {
      var j :| 0 <= j < |rpo| && rpo[j] == d;
    }
    var p := ForwardPredecessor(g, rpo, t, rpo[i]);
    assert Placed(g, t, rpo[i]) == set p | p in preds && p in t.idom;
  }
}

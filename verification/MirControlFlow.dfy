/** `ControlFlowGraph` of src/mir/analysis.cpp: everything computed once in the constructor, then queried. */
module MirControlFlow {
  import opened MirGraph
  import opened MirFunction
  import opened MirReachability
  import opened MirPostOrder
  import opened MirDomTree
  import opened MirDominators
  import opened MirFrontiers

  function BlockOrder(blocks: seq<BasicBlock>): (order: seq<BlockId>)
    ensures |order| == |blocks| && Elements(order) == Ids(blocks)
  {
    var order := seq(|blocks|, i requires 0 <= i < |blocks| => blocks[i].id);
    assert forall i :: 0 <= i < |blocks| ==> order[i] == blocks[i].id;
    order
  }

  lemma {:induction false} ElementsSize(s: seq<BlockId>)
    ensures |Elements(s)| <= |s|
    ensures Distinct(s) ==> |Elements(s)| == |s|
  {
    if s != [] {
      var front, last := s[..|s| - 1], s[|s| - 1];
      ElementsSize(front);
      assert s == front + [last];
      assert Elements(s) == Elements(front) + {last};
      assert Distinct(s) ==> Distinct(front) && last !in front;
    }
  }

  lemma {:induction false} SubsetSize(a: set<BlockId>, b: set<BlockId>)
    requires a <= b
    ensures |a| <= |b|
  {
    assert b == a + (b - a);
  }

  /** Positions in reverse post-order stay below the block count, so the frontier guard has room. */
  lemma {:induction false} PositionsFit(g: Graph, rpo: seq<BlockId>, order: seq<BlockId>, t: DomTree)
    requires g.Closed() && Numbered(g, rpo, t) && Elements(order) == g.succ.Keys
    ensures forall b :: b in t.num ==> t.num[b] < |order| && b in g.succ
  {
    forall b | b in rpo
      ensures b in g.succ
    {
      var p :| g.IsPath(p, b);
      g.ClosedSetHoldsPath(g.succ.Keys, p, b);
    }
    ElementsSize(rpo);
    ElementsSize(order);
    SubsetSize(Elements(rpo), g.succ.Keys);
    forall b | b in t.num
      ensures t.num[b] < |rpo| && b in g.succ
    {
      var j :| 0 <= j < |rpo| && rpo[j] == b;
    }
  }

  /** What the dominance fields hold; without a valid entry they stay empty. */
  ghost predicate DominanceRecorded(g: Graph, rpo: seq<BlockId>, t: DomTree, df: Frontiers) {
    && df.Keys == g.succ.Keys
    && (if g.entry in g.succ then
          && IsReversePostOrder(g, rpo) && Numbered(g, rpo, t) && ChainsAreDominators(g, t)
          && (forall x, b :: x in df ==> (b in df[x] <==> b != g.entry && TextbookFrontier(g, x, b)))
        else
          && rpo == [] && t == DomTree(g.entry, map[], map[])
          && (forall x :: x in df ==> df[x] == {}))
  }

  method ComputeDominance(g: Graph, order: seq<BlockId>, pred: map<BlockId, seq<BlockId>>, reach: set<BlockId>)
    returns (rpo: seq<BlockId>, t: DomTree, df: Frontiers)
    requires Mirrors(g.succ, pred) && NO_BLOCK !in g.succ && Elements(order) == g.succ.Keys
    requires g.entry in g.succ ==> forall b :: b in reach <==> g.Reachable(b)
    ensures DominanceRecorded(g, rpo, t, df)
  {
    if g.entry in g.succ {
      hide IsReversePostOrder, Numbered, ChainsAreDominators, TextbookFrontier, ListsPredecessors;
      rpo := ComputeReversePostOrder(g);
      PredecessorsListed(g, pred);
      t := ComputeDominators(g, rpo, pred);
      PositionsFit(g, rpo, order, t);
      TreeHoldsReachable(g, t, reach);
      df := ComputeDominanceFrontiers(g, order, t, pred, reach);
    } else {
      rpo, t := [], DomTree(g.entry, map[], map[]);
      df := map b | b in g.succ :: {};
    }
  }

  class ControlFlowGraph {
    const fn: Function
    const order: seq<BlockId>
    const successors: map<BlockId, seq<BlockId>>
    const predecessors: map<BlockId, seq<BlockId>>
    const unwindSuccessors: map<BlockId, seq<BlockId>>
    const unwindPredecessors: map<BlockId, seq<BlockId>>
    const reachable: set<BlockId>
    const reachableWithUnwind: set<BlockId>
    const reversePostOrder: seq<BlockId>
    const tree: DomTree
    const dominanceFrontiers: Frontiers

    /** Normal edges only: the graph dominance is about. */
    ghost function Normal(): Graph {
      Graph(fn.entryBlock, successors)
    }

    /** Normal and unwind edges. */
    ghost function Full(): Graph {
      Graph(fn.entryBlock, Both(successors, unwindSuccessors))
    }

    ghost predicate EdgesRecorded() {
      && RecordsEdges(fn.blocks, successors, NormalTargets) && Mirrors(successors, predecessors)
      && RecordsEdges(fn.blocks, unwindSuccessors, UnwindTargets) && Mirrors(unwindSuccessors, unwindPredecessors)
      && RecordsEntries(fn.blocks, predecessors, NormalTargets) && RecordsEntries(fn.blocks, unwindPredecessors, UnwindTargets)
      && ReachableSets(Normal(), Full(), reachable, reachableWithUnwind)
    }

    ghost predicate Valid() {
      && DistinctIds(fn.blocks)
      && EdgesRecorded()
      && DominanceRecorded(Normal(), reversePostOrder, tree, dominanceFrontiers)
    }

    constructor (f: Function)
      requires DistinctIds(f.blocks)
      ensures fn == f && Valid()
    {
      hide DominanceRecorded, Known, RecordsEntries;
      fn := f;
      order := BlockOrder(f.blocks);
      var succ, pred := BuildEdges(f.blocks, NormalTargets);
      var unwind, unwindPred := BuildEdges(f.blocks, UnwindTargets);
      var g := Graph(f.entryBlock, succ);
      var reach, full := ComputeReachability(g, unwind);
      successors, predecessors := succ, pred;
      unwindSuccessors, unwindPredecessors := unwind, unwindPred;
      reachable, reachableWithUnwind := reach, full;
      var rpo, t, df := ComputeDominance(g, BlockOrder(f.blocks), pred, reach);
      reversePostOrder, tree, dominanceFrontiers := rpo, t, df;
    }

    function IdomOf(id: BlockId): BlockId {
      if id in successors then ImmediateDominator(tree, id) else NO_BLOCK
    }

    /** The answer `dominates` gives: path dominance for a reachable block, and only the block itself for
        a block that normal edges do not reach. */
    method Dominates(dominator: BlockId, block: BlockId) returns (r: bool)
      requires Valid()
      ensures r <==> && dominator in successors && block in successors
                     && (if Normal().Reachable(block) then Normal().Dominates(dominator, block) else dominator == block)
    {
      if dominator !in successors || block !in successors { return false; }
      if dominator == block {
        Normal().SelfDominates(block);
        return true;
      }
      ChainsWhenPlaced();
      var current := block;
      while current != NO_BLOCK
        invariant current in successors && current != dominator
        invariant tree.Valid() && block in tree.idom ==> current in tree.idom
        invariant current != block ==> tree.Valid() && block in tree.idom
        invariant tree.Anc(dominator, block) <==> tree.Anc(dominator, current)
        decreases if current in tree.num then tree.num[current] else 0
      {
        var next := IdomOf(current);
        UpOne(tree, dominator, current);
        if next == dominator {
          return true;
        }
        if next == NO_BLOCK || next == current { return false; }
        current := next;
      }
      return false;
    }

    /** Chains and dominators agree, whether or not the function has a valid entry. */
    lemma ChainsWhenPlaced()
      requires Valid()
      ensures forall b :: b in tree.idom ==> tree.Valid() && b in successors && tree.entry == fn.entryBlock
      ensures forall b :: b in successors ==> (b in tree.idom <==> Normal().Reachable(b))
      ensures forall a, b :: b in tree.idom ==> (tree.Anc(a, b) <==> Normal().Dominates(a, b))
      ensures NO_BLOCK !in successors
    {
      if fn.entryBlock in successors {
        forall b | b in tree.idom
          ensures b in successors
        {
          var p :| Normal().IsPath(p, b);
          Normal().ClosedSetHoldsPath(successors.Keys, p, b);
        }
      } else {
        forall b, p | Normal().IsPath(p, b)
          ensures b == fn.entryBlock
        {
          Normal().ClosedSetHoldsPath({fn.entryBlock}, p, b);
        }
      }
    }
  }

  lemma {:induction false} UpOne(t: DomTree, a: BlockId, b: BlockId)
    requires b in t.idom ==> t.Valid() && NO_BLOCK !in t.idom
    requires a != b
    ensures ImmediateDominator(t, b) == NO_BLOCK ==> !t.Anc(a, b)
    ensures ImmediateDominator(t, b) != NO_BLOCK ==>
      && t.Linked(b) && ImmediateDominator(t, b) == t.idom[b]
      && (t.Anc(a, b) <==> t.Anc(a, t.idom[b]))
  {
    if b in t.idom && b != t.entry { assert t.Linked(b); }
  }

  lemma {:induction false} PredecessorsListed(g: Graph, pred: map<BlockId, seq<BlockId>>)
    requires Mirrors(g.succ, pred)
    ensures ListsPredecessors(g, pred)
  {
  }

  lemma {:induction false} TreeHoldsReachable(g: Graph, t: DomTree, reach: set<BlockId>)
    requires ChainsAreDominators(g, t) && forall b :: b in reach <==> g.Reachable(b)
    ensures reach == t.idom.Keys && t.idom.Keys <= t.num.Keys
  {
  }
}

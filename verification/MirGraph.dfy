/** Block graphs and paths: the vocabulary in which the results of the MIR control-flow analysis
    (src/mir/analysis.cpp) are stated. Nothing here looks at how the analysis computes. */
module MirGraph {

  type BlockId = nat

  const NO_BLOCK: BlockId := 0

  /** A block graph. A block without an entry in `succ` has no successors, as in
      `ControlFlowGraph::successors`. */
  datatype Graph = Graph(entry: BlockId, succ: map<BlockId, seq<BlockId>>) {

    function Succ(b: BlockId): seq<BlockId> {
      if b in succ then succ[b] else []
    }

    predicate Edge(u: BlockId, v: BlockId) {
      v in Succ(u)
    }

    /** Every edge ends at a block of the graph, and the entry is one. */
    ghost predicate Closed() {
      entry in succ && forall u, v :: u in succ && v in succ[u] ==> v in succ
    }

    /** `p` is a non-empty walk along edges from `a` to `b`. */
    ghost predicate Walk(p: seq<BlockId>, a: BlockId, b: BlockId)
      decreases |p|
    {
      && |p| > 0
      && p[|p| - 1] == b
      && (if |p| == 1 then a == b
          else Edge(p[|p| - 2], b) && Walk(p[..|p| - 1], a, p[|p| - 2]))
    }

    ghost predicate IsPath(p: seq<BlockId>, b: BlockId) {
      Walk(p, entry, b)
    }

    ghost predicate Reachable(b: BlockId) {
      exists p :: IsPath(p, b)
    }

    /** Some path from the entry reaches `b` without meeting `a`. */
    ghost predicate Avoidable(a: BlockId, b: BlockId) {
      exists p :: IsPath(p, b) && a !in p
    }

    /** Dominance as the textbook states it: every path from the entry to `b` goes through `a`. */
    ghost predicate Dominates(a: BlockId, b: BlockId) {
      forall p :: IsPath(p, b) ==> a in p
    }

    lemma EntryReachable()
      ensures Reachable(entry)
    {
      assert IsPath([entry], entry);
    }

    lemma WalkSnoc(p: seq<BlockId>, a: BlockId, u: BlockId, v: BlockId)
      requires Walk(p, a, u) && Edge(u, v)
      ensures Walk(p + [v], a, v)
    {
      var q := p + [v];
      assert q[..|q| - 1] == p;
    }

    lemma {:induction false} WalkSuffix(p: seq<BlockId>, a: BlockId, b: BlockId, k: nat)
      requires Walk(p, a, b) && k < |p|
      ensures Walk(p[k..], p[k], b)
      decreases |p|
    {
      if k < |p| - 1 {
        var front := p[..|p| - 1];
        WalkSuffix(front, a, p[|p| - 2], k);
        WalkSnoc(front[k..], p[k], p[|p| - 2], b);
        assert front[k..] + [b] == p[k..];
      }
    }

    lemma ReachableStep(u: BlockId, v: BlockId)
      requires Reachable(u) && Edge(u, v)
      ensures Reachable(v)
    {
      var p :| IsPath(p, u);
      WalkSnoc(p, entry, u, v);
      assert IsPath(p + [v], v);
    }

    lemma AvoidableStep(a: BlockId, u: BlockId, v: BlockId)
      requires Avoidable(a, u) && Edge(u, v) && a != v
      ensures Avoidable(a, v)
    {
      var p :| IsPath(p, u) && a !in p;
      WalkSnoc(p, entry, u, v);
      assert IsPath(p + [v], v) && a !in p + [v];
    }

    /** A strict dominator of `v` dominates every predecessor of `v`. */
    lemma DominatesPredecessor(a: BlockId, u: BlockId, v: BlockId)
      requires Dominates(a, v) && Edge(u, v) && a != v
      ensures Dominates(a, u)
    {
      forall p | IsPath(p, u)
        ensures a in p
      {
        WalkSnoc(p, entry, u, v);
        assert IsPath(p + [v], v);
      }
    }

    lemma OnlyEntryDominatesEntry(a: BlockId)
      requires Dominates(a, entry)
      ensures a == entry
    {
      assert IsPath([entry], entry);
    }

    lemma {:induction false} PathStartsAtEntry(p: seq<BlockId>, b: BlockId)
      requires IsPath(p, b)
      ensures entry in p
      decreases |p|
    {
      if |p| > 1 {
        PathStartsAtEntry(p[..|p| - 1], p[|p| - 2]);
      }
    }

    lemma EntryDominatesAll(b: BlockId)
      ensures Dominates(entry, b)
    {
      forall p | IsPath(p, b) { PathStartsAtEntry(p, b); }
    }

    lemma SelfDominates(b: BlockId)
      ensures Dominates(b, b)
    {
    }

    /** A set holding the entry and closed under edges holds everything reachable. */
    lemma {:induction false} ClosedSetHoldsPath(s: set<BlockId>, p: seq<BlockId>, b: BlockId)
      requires entry in s && (forall u, v :: u in s && Edge(u, v) ==> v in s)
      requires IsPath(p, b)
      ensures b in s
      decreases |p|
    {
      if |p| > 1 {
        ClosedSetHoldsPath(s, p[..|p| - 1], p[|p| - 2]);
      }
    }

    /** A reachable block other than the entry is entered from a reachable block. */
    lemma ReachablePredecessor(b: BlockId) returns (u: BlockId)
      requires Reachable(b) && b != entry
      ensures Reachable(u) && Edge(u, b)
    {
      var p :| IsPath(p, b);
      u := p[|p| - 2];
      assert IsPath(p[..|p| - 1], u);
    }
  }
}

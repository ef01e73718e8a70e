/** Block reachability of src/mir/analysis.cpp, with and without unwind edges. */
module MirReachability {
  import opened MirGraph
  import opened MirFunction

  /** The worklist state: everything seen is reachable, and what is seen but no longer queued has had
      its successors seen. */
  ghost predicate Flooding(g: Graph, seen: set<BlockId>, work: seq<BlockId>) {
    && g.entry in seen
    && (forall b :: b in seen ==> g.Reachable(b))
    && (forall b :: b in work ==> b in seen)
    && (forall u, v :: u in seen && u !in work && g.Edge(u, v) ==> v in seen)
  }

  lemma {:induction false} FloodedIsReachable(g: Graph, seen: set<BlockId>, b: BlockId)
    requires Flooding(g, seen, [])
    ensures b in seen <==> g.Reachable(b)
  {
    if p :| g.IsPath(p, b) {
      g.ClosedSetHoldsPath(seen, p, b);
    }
  }

  /** Insert the new ones among `targets` and queue them. */
  method Visit(targets: seq<BlockId>, seen: set<BlockId>, work: seq<BlockId>)
    returns (seen': set<BlockId>, work': seq<BlockId>)
    ensures seen <= seen' && (forall v :: v in seen' <==> v in seen || v in targets)
    ensures work <= work' && (forall v :: v in work' <==> v in work || v in seen' - seen)
    ensures seen' == seen ==> work' == work
  {
    seen', work' := seen, work;
    for k := 0 to |targets|
      invariant seen <= seen' && (forall v :: v in seen' <==> v in seen || v in targets[..k])
      invariant work <= work' && (forall v :: v in work' <==> v in work || v in seen' - seen)
      invariant seen' == seen ==> work' == work
    {
      assert targets[..k + 1] == targets[..k] + [targets[k]];
      if targets[k] !in seen' {
        seen' := seen' + {targets[k]};
        work' := work' + [targets[k]];
      }
    }
    assert targets[..|targets|] == targets;
  }

  lemma {:induction false} VisitKeeps(g: Graph, seen: set<BlockId>, rest: seq<BlockId>, current: BlockId, seen': set<BlockId>, work': seq<BlockId>, room: set<BlockId>)
    requires Flooding(g, seen, [current] + rest) && seen <= room
    requires forall u, v :: u in room && g.Edge(u, v) ==> v in room
    requires seen <= seen' && (forall v :: v in seen' <==> v in seen || v in g.Succ(current))
    requires forall v :: v in work' <==> v in rest || v in seen' - seen
    ensures Flooding(g, seen', work') && seen' <= room
    ensures seen' == seen || |room - seen'| < |room - seen|
  {
    assert current in [current] + rest;
    forall v | v in seen'
      ensures v in room
    {
      assert v in seen || g.Edge(current, v);
    }
    if seen' != seen { FewerUnseen(room, seen, seen'); }
    forall b | b in seen'
      ensures g.Reachable(b)
    {
      if b !in seen { g.ReachableStep(current, b); }
    }
    forall u, v | u in seen' && u !in work' && g.Edge(u, v)
      ensures v in seen'
    {
      assert u == current || u !in [current] + rest;
    }
  }

  lemma {:induction false} FewerUnseen(room: set<BlockId>, seen: set<BlockId>, seen': set<BlockId>)
    requires seen <= seen' <= room && seen != seen'
    ensures |room - seen'| < |room - seen|
  {
    var b :| b in seen' - seen;
    assert room - seen == (room - seen') + (seen' - seen);
  }

  /** Breadth-first from `start`, following `g`. */
  method Flood(g: Graph, start: set<BlockId>, queue: seq<BlockId>, ghost room: set<BlockId>) returns (seen: set<BlockId>)
    requires Flooding(g, start, queue) && start <= room
    requires forall u, v :: u in room && g.Edge(u, v) ==> v in room
    ensures forall b :: b in seen <==> g.Reachable(b)
  {
    hide Flooding;
    seen := start;
    var work := queue;
    while |work| > 0
      invariant Flooding(g, seen, work) && seen <= room
      decreases |room - seen|, |work|
    {
      var current := work[0];
      assert work == [current] + work[1..];
      var seen', work' := Visit(g.Succ(current), seen, work[1..]);
      VisitKeeps(g, seen, work[1..], current, seen', work', room);
      seen, work := seen', work';
    }
    assert work == [];
    forall b
      ensures b in seen <==> g.Reachable(b)
    {
      FloodedIsReachable(g, seen, b);
    }
  }

  ghost predicate ReachableSets(g: Graph, both: Graph, reachable: set<BlockId>, withUnwind: set<BlockId>) {
    if g.entry == NO_BLOCK then reachable == {} && withUnwind == {}
    else
      && (forall b :: b in reachable <==> g.Reachable(b))
      && (forall b :: b in withUnwind <==> both.Reachable(b))
  }

  /** A list of the members of a set, in some order. */
  method Listed(s: set<BlockId>) returns (list: seq<BlockId>)
    ensures forall b :: b in list <==> b in s
  {
    list := [];
    var left := s;
    while left != {}
      invariant left <= s && forall b :: b in list <==> b in s - left
    {
      var b :| b in left;
      list := list + [b];
      left := left - {b};
    }
  }

  /** src/mir/analysis.cpp, `computeReachability`: the second traversal starts from everything the first
      one found and follows edges of both kinds. */
  method ComputeReachability(g: Graph, unwind: map<BlockId, seq<BlockId>>) returns (reachable: set<BlockId>, withUnwind: set<BlockId>)
    requires forall u, v :: u in g.succ && v in g.succ[u] ==> v in g.succ
    requires forall u, v :: u in unwind && v in unwind[u] ==> v in g.succ
    ensures ReachableSets(g, Graph(g.entry, Both(g.succ, unwind)), reachable, withUnwind)
  {
    reachable, withUnwind := {}, {};
    if g.entry == NO_BLOCK { return; }
    ghost var room := g.succ.Keys + {g.entry};
    g.EntryReachable();
    reachable := Flood(g, {g.entry}, [g.entry], room);
    var both := Graph(g.entry, Both(g.succ, unwind));
    forall b | b in reachable
      ensures both.Reachable(b) && b in room
    {
      MoreEdges(g, both, b);
      var p :| g.IsPath(p, b);
      g.ClosedSetHoldsPath(room, p, b);
    }
    var all := Listed(reachable);
    g.EntryReachable();
    withUnwind := Flood(both, reachable, all, room);
  }

  lemma {:induction false} MoreEdges(g: Graph, both: Graph, b: BlockId)
    requires g.entry == both.entry && g.Reachable(b)
    requires forall u, v :: g.Edge(u, v) ==> both.Edge(u, v)
    ensures both.Reachable(b)
  {
    var p :| g.IsPath(p, b);
    MoreEdgesPath(g, both, p, b);
  }

  lemma {:induction false} MoreEdgesPath(g: Graph, both: Graph, p: seq<BlockId>, b: BlockId)
    requires g.entry == both.entry && g.IsPath(p, b)
    requires forall u, v :: g.Edge(u, v) ==> both.Edge(u, v)
    ensures both.IsPath(p, b)
    decreases |p|
  {
    if |p| > 1 {
      MoreEdgesPath(g, both, p[..|p| - 1], p[|p| - 2]);
    }
  }
}

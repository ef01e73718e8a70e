/** The depth-first reverse post-order of src/mir/analysis.cpp, computed with an explicit stack. */
module MirPostOrder {
  import opened MirGraph

  ghost predicate Distinct(s: seq<BlockId>) {
    forall i, j :: 0 <= i < j < |s| ==> s[i] != s[j]
  }

  lemma {:induction false} DistinctSnoc(s: seq<BlockId>, x: BlockId)
    requires Distinct(s) && x !in s
    ensures Distinct(s + [x])
  {
  }

  /** An edge back to an earlier (or the same) block closes a cycle of blocks that are not earlier. */
  ghost predicate ClosesCycle(g: Graph, u: BlockId, v: BlockId, later: seq<BlockId>) {
    exists q :: g.Walk(q, v, u) && forall x :: x in q ==> x in later
  }

  ghost predicate EnteredFromEarlier(g: Graph, rpo: seq<BlockId>, j: nat)
    requires j < |rpo|
  {
    exists i :: 0 <= i < j && g.Edge(rpo[i], rpo[j])
  }

  /** What the rest of the analysis relies on: the entry comes first, exactly the reachable blocks
      are listed, once each, every other block is entered from an earlier one, and an edge that does
      not go forward closes a cycle (so an acyclic graph is listed in topological order). */
  ghost predicate IsReversePostOrder(g: Graph, rpo: seq<BlockId>) {
    && |rpo| > 0 && rpo[0] == g.entry
    && Distinct(rpo)
    && (forall b :: b in rpo <==> g.Reachable(b))
    && (forall j {:trigger EnteredFromEarlier(g, rpo, j)} :: 0 < j < |rpo| ==> EnteredFromEarlier(g, rpo, j))
    && (forall i, j {:trigger g.Edge(rpo[j], rpo[i])} :: 0 <= i <= j < |rpo| && g.Edge(rpo[j], rpo[i]) ==> ClosesCycle(g, rpo[j], rpo[i], rpo[i..]))
  }

  datatype Frame = Frame(block: BlockId, next: nat)

  // ---------- the state of the walk ----------

  ghost function Blocks(stack: seq<Frame>): (blocks: seq<BlockId>)
    ensures |blocks| == |stack|
  {
    seq(|stack|, i requires 0 <= i < |stack| => stack[i].block)
  }

  function Elements(s: seq<BlockId>): set<BlockId> {
    set b | b in s
  }

  /** `x` finishes no later than `v`: both are finished in that order, or `v` is still on the stack
      and `x` is finished or above it. */
  ghost predicate NotAfter(post: seq<BlockId>, blocks: seq<BlockId>, x: BlockId, v: BlockId) {
    || (exists k :: 0 <= k < |post| && post[k] == v && x in post[..k + 1])
    || (exists k :: 0 <= k < |blocks| && blocks[k] == v && (x in post || x in blocks[k..]))
  }

  ghost predicate Retreats(g: Graph, post: seq<BlockId>, blocks: seq<BlockId>, u: BlockId, v: BlockId) {
    exists q :: g.Walk(q, v, u) && forall x :: x in q ==> NotAfter(post, blocks, x, v)
  }

  /** The stack is a path from the entry, disjoint from the finished blocks. */
  ghost predicate StackInv(g: Graph, post: seq<BlockId>, blocks: seq<BlockId>, visited: set<BlockId>) {
    && Distinct(blocks)
    && visited == Elements(blocks) + Elements(post)
    && (forall b :: b in blocks ==> b !in post)
    && (|blocks| > 0 ==> g.IsPath(blocks, blocks[|blocks| - 1]) && blocks[0] == g.entry)
    && (|blocks| == 0 ==> |post| > 0 && post[|post| - 1] == g.entry)
  }

  /** A finished block other than the entry has a parent that finishes later. */
  ghost predicate HasParent(g: Graph, post: seq<BlockId>, blocks: seq<BlockId>, a: nat)
    requires a < |post|
  {
    || (exists k :: 0 <= k < |blocks| && g.Edge(blocks[k], post[a]))
    || (exists c :: a < c < |post| && g.Edge(post[c], post[a]))
  }

  /** The successors of a finished block finished before it, or the edge to them closes a cycle. */
  ghost predicate Settled(g: Graph, post: seq<BlockId>, blocks: seq<BlockId>, visited: set<BlockId>, a: nat)
    requires a < |post|
  {
    forall v :: v in g.Succ(post[a]) ==>
      v in visited && (v in post[..a] || Retreats(g, post, blocks, post[a], v))
  }

  ghost predicate PostInv(g: Graph, post: seq<BlockId>, blocks: seq<BlockId>, visited: set<BlockId>) {
    && Distinct(post)
    && (forall b :: b in post ==> g.Reachable(b))
    && (forall a {:trigger Settled(g, post, blocks, visited, a)} :: 0 <= a < |post| ==> Settled(g, post, blocks, visited, a))
    && (forall a {:trigger HasParent(g, post, blocks, a)} :: 0 <= a < |post| && post[a] != g.entry ==> HasParent(g, post, blocks, a))
  }

  /** A frame has looked at the successors before its cursor. */
  ghost predicate Looked(g: Graph, frame: Frame, visited: set<BlockId>) {
    && frame.next <= |g.Succ(frame.block)|
    && forall v :: v in g.Succ(frame.block)[..frame.next] ==> v in visited
  }

  ghost predicate CursorInv(g: Graph, stack: seq<Frame>, visited: set<BlockId>) {
    forall i :: 0 <= i < |stack| ==> Looked(g, stack[i], visited)
  }

  // ---------- the three moves keep the state ----------

  lemma {:induction false} PushMovesRetreat(g: Graph, post: seq<BlockId>, blocks: seq<BlockId>, next: BlockId, u: BlockId, v: BlockId)
    requires Retreats(g, post, blocks, u, v)
    ensures Retreats(g, post, blocks + [next], u, v)
  {
    var grown := blocks + [next];
    var q :| g.Walk(q, v, u) && forall x :: x in q ==> NotAfter(post, blocks, x, v);
    forall x | x in q
      ensures NotAfter(post, grown, x, v)
    {
      assert NotAfter(post, blocks, x, v);
      if k :| 0 <= k < |blocks| && blocks[k] == v && (x in post || x in blocks[k..]) {
        assert grown[k..] == blocks[k..] + [next];
        assert grown[k] == v;
      }
    }
  }

  lemma {:induction false} PushKeeps(g: Graph, post: seq<BlockId>, blocks: seq<BlockId>, visited: set<BlockId>, next: BlockId)
    requires StackInv(g, post, blocks, visited) && PostInv(g, post, blocks, visited)
    requires |blocks| > 0 && g.Edge(blocks[|blocks| - 1], next) && next !in visited
    ensures StackInv(g, post, blocks + [next], visited + {next})
    ensures PostInv(g, post, blocks + [next], visited + {next})
  {
    var grown := blocks + [next];
    g.WalkSnoc(blocks, g.entry, blocks[|blocks| - 1], next);
    forall a | 0 <= a < |post|
      ensures Settled(g, post, grown, visited + {next}, a)
    {
      assert Settled(g, post, blocks, visited, a);
      forall v | v in g.Succ(post[a]) && v !in post[..a]
        ensures Retreats(g, post, grown, post[a], v)
      {
        PushMovesRetreat(g, post, blocks, next, post[a], v);
      }
    }
    forall a | 0 <= a < |post| && post[a] != g.entry
      ensures HasParent(g, post, grown, a)
    {
      assert HasParent(g, post, blocks, a);
      if k :| 0 <= k < |blocks| && g.Edge(blocks[k], post[a]) {
        assert grown[k] == blocks[k];
      }
    }
  }

  /** A successor still on the stack when its predecessor finishes lies below it, and the stack
      between them is the cycle. */
  lemma {:induction false} StackCloses(g: Graph, post: seq<BlockId>, blocks: seq<BlockId>, visited: set<BlockId>, v: BlockId)
    requires StackInv(g, post, blocks, visited) && |blocks| > 0 && v in blocks
    ensures Retreats(g, post, blocks, blocks[|blocks| - 1], v)
  {
    var k :| 0 <= k < |blocks| && blocks[k] == v;
    g.WalkSuffix(blocks, g.entry, blocks[|blocks| - 1], k);
    forall x | x in blocks[k..]
      ensures NotAfter(post, blocks, x, v)
    {
    }
  }

  lemma {:induction false} PopMovesRetreat(g: Graph, post: seq<BlockId>, blocks: seq<BlockId>, u: BlockId, v: BlockId)
    requires |blocks| > 0 && Retreats(g, post, blocks, u, v)
    ensures Retreats(g, post + [blocks[|blocks| - 1]], blocks[..|blocks| - 1], u, v)
  {
    var top := |blocks| - 1;
    var post', blocks' := post + [blocks[top]], blocks[..top];
    var q :| g.Walk(q, v, u) && forall x :: x in q ==> NotAfter(post, blocks, x, v);
    forall x | x in q
      ensures NotAfter(post', blocks', x, v)
    {
      if k :| 0 <= k < |post| && post[k] == v && x in post[..k + 1] {
        assert post'[k] == v && post'[..k + 1] == post[..k + 1];
      } else {
        var k :| 0 <= k < |blocks| && blocks[k] == v && (x in post || x in blocks[k..]);
        assert blocks[k..] == blocks'[if k < top then k else top..] + [blocks[top]];
        if k == top {
          assert post'[|post|] == v && post'[..|post| + 1] == post';
        } else {
          assert blocks'[k] == v;
        }
      }
    }
  }

  lemma {:induction false} PopKeeps(g: Graph, post: seq<BlockId>, blocks: seq<BlockId>, visited: set<BlockId>)
    requires StackInv(g, post, blocks, visited) && PostInv(g, post, blocks, visited) && |blocks| > 0
    requires forall v :: v in g.Succ(blocks[|blocks| - 1]) ==> v in visited
    ensures StackInv(g, post + [blocks[|blocks| - 1]], blocks[..|blocks| - 1], visited)
    ensures PostInv(g, post + [blocks[|blocks| - 1]], blocks[..|blocks| - 1], visited)
  {
    var top := |blocks| - 1;
    var u := blocks[top];
    var post', blocks' := post + [u], blocks[..top];
    assert blocks == blocks' + [u];
    forall a | 0 <= a < |post'|
      ensures Settled(g, post', blocks', visited, a)
    {
      forall v | v in g.Succ(post'[a])
        ensures v in visited && (v in post'[..a] || Retreats(g, post', blocks', post'[a], v))
      {
        PopKeepsRetreats(g, post, blocks, visited, a, v);
      }
    }
    forall a | 0 <= a < |post'| && post'[a] != g.entry
      ensures HasParent(g, post', blocks', a)
    {
      PopKeepsParent(g, post, blocks, visited, a);
    }
    assert forall b :: b in post' ==> b in post || b == u;
    assert g.IsPath(blocks, u) && u in blocks;
    DistinctSnoc(post, u);
    assert top > 0 ==> g.IsPath(blocks', blocks'[top - 1]);
  }

  lemma {:induction false} PopKeepsRetreats(g: Graph, post: seq<BlockId>, blocks: seq<BlockId>, visited: set<BlockId>, a: nat, v: BlockId)
    requires StackInv(g, post, blocks, visited) && PostInv(g, post, blocks, visited) && |blocks| > 0
    requires forall v :: v in g.Succ(blocks[|blocks| - 1]) ==> v in visited
    requires a <= |post| && v in g.Succ((post + [blocks[|blocks| - 1]])[a])
    ensures v in visited
    ensures
      var top := |blocks| - 1;
      var post' := post + [blocks[top]];
      v in post'[..a] || Retreats(g, post', blocks[..top], post'[a], v)
  {
    var u := blocks[|blocks| - 1];
    var post' := post + [u];
    if a < |post| {
      assert Settled(g, post, blocks, visited, a);
      assert v in g.Succ(post[a]) && post'[..a] == post[..a];
      if v !in post[..a] { PopMovesRetreat(g, post, blocks, post[a], v); }
    } else {
      assert post'[..a] == post;
      if v !in post {
        StackCloses(g, post, blocks, visited, v);
        PopMovesRetreat(g, post, blocks, u, v);
      }
    }
  }

  lemma {:induction false} PopKeepsParent(g: Graph, post: seq<BlockId>, blocks: seq<BlockId>, visited: set<BlockId>, a: nat)
    requires StackInv(g, post, blocks, visited) && PostInv(g, post, blocks, visited) && |blocks| > 0
    requires a <= |post| && (post + [blocks[|blocks| - 1]])[a] != g.entry
    ensures HasParent(g, post + [blocks[|blocks| - 1]], blocks[..|blocks| - 1], a)
  {
    var top := |blocks| - 1;
    var post', blocks' := post + [blocks[top]], blocks[..top];
    if a == |post| {
      assert g.Edge(blocks'[top - 1], post'[a]);
    } else {
      assert HasParent(g, post, blocks, a);
      if k :| 0 <= k < |blocks| && g.Edge(blocks[k], post[a]) {
        assert if k < top then g.Edge(blocks'[k], post'[a]) else g.Edge(post'[|post|], post'[a]);
      } else {
        var c :| a < c < |post| && g.Edge(post[c], post[a]);
        assert g.Edge(post'[c], post'[a]);
      }
    }
  }

  // ---------- when the stack is empty ----------

  function Reversed(s: seq<BlockId>): (r: seq<BlockId>)
    ensures |r| == |s| && forall i :: 0 <= i < |s| ==> r[i] == s[|s| - 1 - i]
  {
    seq(|s|, i requires 0 <= i < |s| => s[|s| - 1 - i])
  }

  lemma {:induction false} FinishedIsReachable(g: Graph, post: seq<BlockId>, visited: set<BlockId>, b: BlockId)
    requires StackInv(g, post, [], visited) && PostInv(g, post, [], visited)
    ensures b in post <==> g.Reachable(b)
  {
    if g.Reachable(b) {
      var p :| g.IsPath(p, b);
      forall u, v | u in visited && g.Edge(u, v)
        ensures v in visited
      {
        var a :| 0 <= a < |post| && post[a] == u;
        assert Settled(g, post, [], visited, a);
      }
      g.ClosedSetHoldsPath(visited, p, b);
    }
  }

  lemma {:induction false} FinishedCycle(g: Graph, post: seq<BlockId>, visited: set<BlockId>, i: nat, j: nat)
    requires StackInv(g, post, [], visited) && PostInv(g, post, [], visited)
    requires i <= j < |post| && g.Edge(Reversed(post)[j], Reversed(post)[i])
    ensures ClosesCycle(g, Reversed(post)[j], Reversed(post)[i], Reversed(post)[i..])
  {
    var rpo, n := Reversed(post), |post|;
    var a, v := n - 1 - j, rpo[i];
    assert Settled(g, post, [], visited, a);
    assert v in g.Succ(post[a]) && v !in post[..a];
    assert Retreats(g, post, [], post[a], v);
    var q :| g.Walk(q, v, post[a]) && forall x :: x in q ==> NotAfter(post, [], x, v);
    forall x | x in q
      ensures x in rpo[i..]
    {
      assert NotAfter(post, [], x, v);
      var k :| 0 <= k < n && post[k] == v && x in post[..k + 1];
      assert k == n - 1 - i;
      var m :| 0 <= m <= k && post[..k + 1][m] == x;
      assert rpo[i..][n - 1 - m - i] == x;
    }
  }

  lemma {:induction false} FinishedParent(g: Graph, post: seq<BlockId>, visited: set<BlockId>, j: nat)
    requires StackInv(g, post, [], visited) && PostInv(g, post, [], visited)
    requires 0 < j < |post|
    ensures EnteredFromEarlier(g, Reversed(post), j)
  {
    var n := |post|;
    var a := n - 1 - j;
    assert post[a] != post[n - 1] && HasParent(g, post, [], a);
    var c :| a < c < n && g.Edge(post[c], post[a]);
    assert Reversed(post)[n - 1 - c] == post[c];
  }

  lemma {:induction false} FinishedOrder(g: Graph, post: seq<BlockId>, visited: set<BlockId>)
    requires StackInv(g, post, [], visited) && PostInv(g, post, [], visited)
    ensures IsReversePostOrder(g, Reversed(post))
  {
    var rpo, n := Reversed(post), |post|;
    forall b
      ensures b in rpo <==> g.Reachable(b)
    {
      if b in post {
        var a :| 0 <= a < n && post[a] == b;
        assert rpo[n - 1 - a] == b;
      }
      FinishedIsReachable(g, post, visited, b);
    }
    forall j | 0 < j < n
      ensures EnteredFromEarlier(g, rpo, j)
    {
      FinishedParent(g, post, visited, j);
    }
    forall i, j | 0 <= i <= j < n && g.Edge(rpo[j], rpo[i])
      ensures ClosesCycle(g, rpo[j], rpo[i], rpo[i..])
    {
      FinishedCycle(g, post, visited, i, j);
    }
  }

  // ---------- the algorithm ----------

  /** Successors the frames on the stack have still to look at. */
  ghost function Remaining(g: Graph, stack: seq<Frame>): nat {
    if |stack| == 0 then 0
    else
      var top := stack[|stack| - 1];
      Remaining(g, stack[..|stack| - 1]) + if top.next <= |g.Succ(top.block)| then |g.Succ(top.block)| - top.next else 0
  }

  ghost predicate DfsInv(g: Graph, post: seq<BlockId>, stack: seq<Frame>, visited: set<BlockId>) {
    && CursorInv(g, stack, visited)
    && StackInv(g, post, Blocks(stack), visited)
    && PostInv(g, post, Blocks(stack), visited)
    && visited <= g.succ.Keys
  }

  lemma {:induction false} StartState(g: Graph)
    requires g.Closed()
    ensures DfsInv(g, [], [Frame(g.entry, 0)], {g.entry})
  {
    assert Blocks([Frame(g.entry, 0)]) == [g.entry];
    assert g.IsPath([g.entry], g.entry);
  }

  lemma {:induction false} LookedMore(g: Graph, frame: Frame, visited: set<BlockId>)
    requires Looked(g, frame, visited) && frame.next < |g.Succ(frame.block)|
    ensures Looked(g, frame.(next := frame.next + 1), visited + {g.Succ(frame.block)[frame.next]})
  {
    var succs, n := g.Succ(frame.block), frame.next;
    assert succs[..n + 1] == succs[..n] + [succs[n]];
  }

  lemma {:induction false} AdvanceState(g: Graph, post: seq<BlockId>, stack: seq<Frame>, visited: set<BlockId>, top: nat)
    requires DfsInv(g, post, stack, visited) && top + 1 == |stack| && stack[top].next < |g.Succ(stack[top].block)|
    requires g.Succ(stack[top].block)[stack[top].next] in visited
    ensures
      var advanced := stack[top := stack[top].(next := stack[top].next + 1)];
      && DfsInv(g, post, advanced, visited)
      && Remaining(g, advanced) < Remaining(g, stack)
  {
    var advanced := stack[top := stack[top].(next := stack[top].next + 1)];
    LookedMore(g, stack[top], visited);
    assert visited + {g.Succ(stack[top].block)[stack[top].next]} == visited;
    assert Blocks(advanced) == Blocks(stack);
    assert advanced[..top] == stack[..top];
  }

  lemma {:induction false} PushState(g: Graph, post: seq<BlockId>, stack: seq<Frame>, visited: set<BlockId>, top: nat)
    requires g.Closed()
    requires DfsInv(g, post, stack, visited) && top + 1 == |stack| && stack[top].next < |g.Succ(stack[top].block)|
    requires g.Succ(stack[top].block)[stack[top].next] !in visited
    ensures
      var next := g.Succ(stack[top].block)[stack[top].next];
      var advanced := stack[top := stack[top].(next := stack[top].next + 1)];
      && next in g.succ
      && DfsInv(g, post, advanced + [Frame(next, 0)], visited + {next})
  {
    var next := g.Succ(stack[top].block)[stack[top].next];
    var advanced := stack[top := stack[top].(next := stack[top].next + 1)];
    assert Blocks(advanced) == Blocks(stack);
    assert Blocks(advanced + [Frame(next, 0)]) == Blocks(stack) + [next];
    assert g.Edge(Blocks(stack)[top], next);
    assert next in g.succ;
    LookedMore(g, stack[top], visited);
    assert CursorInv(g, advanced + [Frame(next, 0)], visited + {next});
    PushKeeps(g, post, Blocks(stack), visited, next);
  }

  lemma {:induction false} PopState(g: Graph, post: seq<BlockId>, stack: seq<Frame>, visited: set<BlockId>, top: nat)
    requires DfsInv(g, post, stack, visited) && top + 1 == |stack| && stack[top].next >= |g.Succ(stack[top].block)|
    ensures DfsInv(g, post + [stack[top].block], stack[..top], visited)
    ensures Remaining(g, stack[..top]) == Remaining(g, stack)
  {
    assert Blocks(stack[..top]) == Blocks(stack)[..top];
    assert Blocks(stack)[top] == stack[top].block;
    assert Looked(g, stack[top], visited);
    assert g.Succ(stack[top].block)[..stack[top].next] == g.Succ(stack[top].block);
    PopKeeps(g, post, Blocks(stack), visited);
  }

  lemma {:induction false} FewerLeft(all: set<BlockId>, visited: set<BlockId>, next: BlockId)
    requires next in all && next !in visited
    ensures |all - (visited + {next})| < |all - visited|
  {
    assert all - visited == (all - (visited + {next})) + {next};
  }

  lemma {:induction false} EndState(g: Graph, post: seq<BlockId>, visited: set<BlockId>)
    requires DfsInv(g, post, [], visited)
    ensures IsReversePostOrder(g, Reversed(post))
  {
    assert Blocks([]) == [];
    FinishedOrder(g, post, visited);
  }

  /** src/mir/analysis.cpp, `computeReversePostOrder`. */
  method ComputeReversePostOrder(g: Graph) returns (rpo: seq<BlockId>)
    requires g.Closed()
    ensures IsReversePostOrder(g, rpo)
  {
    hide IsReversePostOrder, StackInv, PostInv, CursorInv;
    var visited := {g.entry};
    var postOrder: seq<BlockId> := [];
    var stack := [Frame(g.entry, 0)];
    StartState(g);
    while |stack| > 0
      invariant DfsInv(g, postOrder, stack, visited)
      decreases |g.succ.Keys - visited|, Remaining(g, stack), |stack|
    {
      var top := |stack| - 1;
      var frame := stack[top];
      var succs := g.Succ(frame.block);
      if frame.next < |succs| {
        var next := succs[frame.next];
        if next in visited {
          AdvanceState(g, postOrder, stack, visited, top);
          stack := stack[top := frame.(next := frame.next + 1)];
        } else {
          PushState(g, postOrder, stack, visited, top);
          FewerLeft(g.succ.Keys, visited, next);
          visited := visited + {next};
          stack := stack[top := frame.(next := frame.next + 1)] + [Frame(next, 0)];
        }
      } else {
        PopState(g, postOrder, stack, visited, top);
        postOrder := postOrder + [frame.block];
        stack := stack[..top];
      }
    }
    assert stack == [];
    EndState(g, postOrder, visited);
    rpo := Reversed(postOrder);
  }
}

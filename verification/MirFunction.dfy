/** MIR functions as the control-flow analysis sees them: block ids, terminators, handler chains. */
module MirFunction {
  import opened MirGraph

  /** A straight-line instruction; the analysis never looks inside. */
  datatype Instr = Instr(opcode: nat, result: nat, operands: seq<nat>)

  datatype TerminatorKind = NoTerminator | Jump | Branch | Switch | Return | Throw | Unreachable

  datatype Terminator = Terminator(kind: TerminatorKind, target: BlockId, elseBlock: BlockId, cases: seq<BlockId>) {
    /** src/mir/instruction.cpp, `Terminator::successors`. */
    function Successors(): seq<BlockId> {
      match kind
      case Jump => NonZero([target])
      case Branch => NonZero([target, elseBlock])
      case Switch => NonZero(cases + [target])
      case _ => []
    }
  }

  /** A jump goes to its target, a branch to its target or its else block, a switch to one of its cases, in order, or last to
      its target; other terminators, and absent references, lead nowhere. */
  lemma {:induction false} SuccessorsLaw(t: Terminator)
    ensures t.kind.Jump? ==> forall b :: b in t.Successors() <==> b == t.target != NO_BLOCK
    ensures t.kind.Branch? && t.target != NO_BLOCK && t.elseBlock != NO_BLOCK ==> t.Successors() == [t.target, t.elseBlock]
    ensures t.kind.Branch? ==> forall b :: b in t.Successors() <==> b != NO_BLOCK && (b == t.target || b == t.elseBlock)
    ensures t.kind.Switch? && t.target != NO_BLOCK && NO_BLOCK !in t.cases ==> t.Successors() == t.cases + [t.target]
    ensures t.kind.Switch? ==> forall b :: b in t.Successors() <==> b != NO_BLOCK && (b == t.target || b in t.cases)
    ensures !t.kind.Jump? && !t.kind.Branch? && !t.kind.Switch? ==> t.Successors() == []
  {
    AllPresent([t.target, t.elseBlock]);
    AllPresent(t.cases + [t.target]);
  }

  lemma {:induction false} AllPresent(s: seq<BlockId>)
    ensures NO_BLOCK !in s ==> NonZero(s) == s
  {
    if s != [] { AllPresent(s[1..]); }
  }

  datatype BasicBlock = BasicBlock(id: BlockId, body: seq<Instr>, terminator: Terminator, handlers: seq<BlockId>)

  datatype Function = Function(blocks: seq<BasicBlock>, entryBlock: BlockId)

  function NonZero(s: seq<BlockId>): (r: seq<BlockId>)
    ensures forall b :: b in r <==> b in s && b != NO_BLOCK
  {
    if s == [] then [] else (if s[0] != NO_BLOCK then [s[0]] else []) + NonZero(s[1..])
  }

  /** The members of `s` that are in `ids`, in order. */
  function Known(ids: set<BlockId>, s: seq<BlockId>): (r: seq<BlockId>)
    ensures forall b :: b in r <==> b in s && b in ids
  {
    if s == [] then [] else (if s[0] in ids then [s[0]] else []) + Known(ids, s[1..])
  }

  lemma {:induction false} KnownSnoc(ids: set<BlockId>, s: seq<BlockId>, b: BlockId)
    ensures Known(ids, s + [b]) == Known(ids, s) + if b in ids then [b] else []
  {
    if s != [] {
      KnownSnoc(ids, s[1..], b);
      assert (s + [b])[1..] == s[1..] + [b];
    }
  }

  lemma {:induction false} KnownEmpty(ids: set<BlockId>)
    ensures Known(ids, []) == []
  {
  }

  function Ids(blocks: seq<BasicBlock>): set<BlockId> {
    set i | 0 <= i < |blocks| :: blocks[i].id
  }

  /** Block ids are positional names: no two blocks share one and none is the reserved one. */
  ghost predicate DistinctIds(blocks: seq<BasicBlock>) {
    && NO_BLOCK !in Ids(blocks)
    && forall i, j :: 0 <= i < j < |blocks| ==> blocks[i].id != blocks[j].id
  }

  /** `succ` records the edges `targets` names for every block, dropping ids that do not exist. */
  ghost predicate RecordsEdges(blocks: seq<BasicBlock>, succ: map<BlockId, seq<BlockId>>, targets: BasicBlock -> seq<BlockId>) {
    && succ.Keys == Ids(blocks)
    && forall i :: 0 <= i < |blocks| ==> succ[blocks[i].id] == Known(Ids(blocks), targets(blocks[i]))
  }

  ghost predicate Mirrors(succ: map<BlockId, seq<BlockId>>, pred: map<BlockId, seq<BlockId>>) {
    && pred.Keys == succ.Keys
    && (forall u, v :: u in succ && v in succ ==> (v in succ[u] <==> u in pred[v]))
    && (forall u, v :: u in succ && v in succ[u] ==> v in succ)
    && (forall u, v :: v in pred && u in pred[v] ==> u in pred)
  }

  /** `from`, once for every mention of `v` among `targets`. */
  function Mentions(from: BlockId, targets: seq<BlockId>, v: BlockId): seq<BlockId> {
    if targets == [] then []
    else Mentions(from, targets[..|targets| - 1], v) + if targets[|targets| - 1] == v then [from] else []
  }

  lemma {:induction false} MentionsSnoc(from: BlockId, targets: seq<BlockId>, t: BlockId, v: BlockId)
    ensures Mentions(from, targets + [t], v) == Mentions(from, targets, v) + if t == v then [from] else []
  {
    assert (targets + [t])[..|targets|] == targets;
  }

  lemma {:induction false} NoMentions(from: BlockId, v: BlockId)
    ensures Mentions(from, [], v) == []
  {
  }

  /** `pred'` is `pred` with `from` entered once for every mention. */
  ghost predicate Entered(pred: map<BlockId, seq<BlockId>>, pred': map<BlockId, seq<BlockId>>, from: BlockId, targets: seq<BlockId>) {
    pred'.Keys == pred.Keys && forall v :: v in pred ==> pred'[v] == pred[v] + Mentions(from, targets, v)
  }

  lemma {:induction false} NotEntered(pred: map<BlockId, seq<BlockId>>, from: BlockId)
    ensures Entered(pred, pred, from, [])
  {
    forall v | v in pred ensures pred[v] == pred[v] + Mentions(from, [], v) { NoMentions(from, v); }
  }

  lemma {:induction false} EnteredMore(pred: map<BlockId, seq<BlockId>>, pred': map<BlockId, seq<BlockId>>, from: BlockId, targets: seq<BlockId>, t: BlockId)
    requires Entered(pred, pred', from, targets)
    ensures t in pred' ==> Entered(pred, pred'[t := pred'[t] + [from]], from, targets + [t])
    ensures t !in pred' ==> Entered(pred, pred', from, targets + [t])
  {
    hide Mentions;
    forall v | v in pred
      ensures pred[v] + Mentions(from, targets + [t], v) == if v == t then pred'[v] + [from] else pred'[v]
    {
      MentionsSnoc(from, targets, t, v);
    }
  }

  /** The predecessors of `v` in the order of the blocks, each once for every mention of `v`. */
  function Entering(blocks: seq<BasicBlock>, targets: BasicBlock -> seq<BlockId>, v: BlockId): seq<BlockId> {
    if blocks == [] then []
    else
      var last := blocks[|blocks| - 1];
      Entering(blocks[..|blocks| - 1], targets, v) + Mentions(last.id, targets(last), v)
  }

  lemma {:induction false} EnteringSnoc(blocks: seq<BasicBlock>, i: nat, targets: BasicBlock -> seq<BlockId>, v: BlockId)
    requires i < |blocks|
    ensures Entering(blocks[..i + 1], targets, v) == Entering(blocks[..i], targets, v) + Mentions(blocks[i].id, targets(blocks[i]), v)
  {
    assert blocks[..i + 1][..i] == blocks[..i] && blocks[..i + 1][i] == blocks[i];
  }

  ghost predicate RecordsEntries(blocks: seq<BasicBlock>, pred: map<BlockId, seq<BlockId>>, targets: BasicBlock -> seq<BlockId>) {
    forall v :: v in pred ==> pred[v] == Entering(blocks, targets, v)
  }

  lemma {:induction false} NoEntries(pred: map<BlockId, seq<BlockId>>, targets: BasicBlock -> seq<BlockId>)
    requires forall b :: b in pred ==> pred[b] == []
    ensures RecordsEntries([], pred, targets)
  {
  }

  lemma {:induction false} MoreEntries(blocks: seq<BasicBlock>, i: nat, pred: map<BlockId, seq<BlockId>>, pred': map<BlockId, seq<BlockId>>,
                                       targets: BasicBlock -> seq<BlockId>)
    requires i < |blocks| && pred.Keys == pred'.Keys && RecordsEntries(blocks[..i], pred, targets)
    requires Entered(pred, pred', blocks[i].id, targets(blocks[i]))
    ensures RecordsEntries(blocks[..i + 1], pred', targets)
  {
    hide Entering, Mentions;
    forall v | v in pred' ensures pred'[v] == Entering(blocks[..i + 1], targets, v) { EnteringSnoc(blocks, i, targets, v); }
  }

  /** The edges out of one block, recorded in both directions. */
  method AddEdges(from: BlockId, targets: seq<BlockId>, succ: map<BlockId, seq<BlockId>>, pred: map<BlockId, seq<BlockId>>)
    returns (succ': map<BlockId, seq<BlockId>>, pred': map<BlockId, seq<BlockId>>)
    requires from in succ && Mirrors(succ, pred) && pred.Keys == succ.Keys
    ensures succ'.Keys == pred'.Keys == succ.Keys && Mirrors(succ', pred')
    ensures succ'[from] == succ[from] + Known(succ.Keys, targets)
    ensures forall b :: b in succ && b != from ==> succ'[b] == succ[b]
    ensures Entered(pred, pred', from, targets)
  {
    hide Mirrors, Known, Entered;
    succ', pred' := succ, pred;
    KnownEmpty(succ.Keys);
    assert targets[..0] == [];
    NotEntered(pred, from);
    for k := 0 to |targets|
      invariant succ'.Keys == succ.Keys && Mirrors(succ', pred') && pred'.Keys == succ.Keys
      invariant succ'[from] == succ[from] + Known(succ.Keys, targets[..k])
      invariant forall b :: b in succ && b != from ==> succ'[b] == succ[b]
      invariant Entered(pred, pred', from, targets[..k])
    {
      var target := targets[k];
      EnteredMore(pred, pred', from, targets[..k], target);
      assert targets[..k + 1] == targets[..k] + [target];
      KnownSnoc(succ.Keys, targets[..k], target);
      if target in succ {
        MirrorsEdge(succ', pred', from, target);
        succ' := succ'[from := succ'[from] + [target]];
        pred' := pred'[target := pred'[target] + [from]];
      }
    }
    assert targets[..|targets|] == targets;
  }

  lemma {:induction false} MirrorsEdge(succ: map<BlockId, seq<BlockId>>, pred: map<BlockId, seq<BlockId>>, u: BlockId, v: BlockId)
    requires Mirrors(succ, pred) && u in succ && v in succ
    ensures Mirrors(succ[u := succ[u] + [v]], pred[v := pred[v] + [u]])
  {
  }

  lemma {:induction false} NoEdges(succ: map<BlockId, seq<BlockId>>, pred: map<BlockId, seq<BlockId>>)
    requires succ.Keys == pred.Keys && (forall b :: b in succ ==> succ[b] == [] && pred[b] == [])
    ensures Mirrors(succ, pred)
  {
  }

  /** The edges out of the first `n` blocks are recorded, and none of the others. */
  ghost predicate Listed(blocks: seq<BasicBlock>, n: nat, succ: map<BlockId, seq<BlockId>>, targets: BasicBlock -> seq<BlockId>) {
    && n <= |blocks| && succ.Keys == Ids(blocks)
    && (forall k :: 0 <= k < n ==> succ[blocks[k].id] == Known(Ids(blocks), targets(blocks[k])))
    && (forall k :: n <= k < |blocks| ==> succ[blocks[k].id] == [])
  }

  lemma {:induction false} NothingListed(blocks: seq<BasicBlock>, succ: map<BlockId, seq<BlockId>>, targets: BasicBlock -> seq<BlockId>)
    requires succ.Keys == Ids(blocks) && forall b :: b in succ ==> succ[b] == []
    ensures Listed(blocks, 0, succ, targets)
  {
  }

  lemma {:induction false} OneListed(blocks: seq<BasicBlock>, i: nat, succ: map<BlockId, seq<BlockId>>, targets: BasicBlock -> seq<BlockId>)
    requires i < |blocks| && Listed(blocks, i, succ, targets)
    ensures blocks[i].id in succ && succ[blocks[i].id] == []
  {
  }

  lemma {:induction false} MoreListed(blocks: seq<BasicBlock>, i: nat, succ: map<BlockId, seq<BlockId>>, succ': map<BlockId, seq<BlockId>>,
                                      targets: BasicBlock -> seq<BlockId>)
    requires i < |blocks| && DistinctIds(blocks) && Listed(blocks, i, succ, targets) && succ'.Keys == succ.Keys
    requires succ'[blocks[i].id] == Known(succ.Keys, targets(blocks[i]))
    requires forall b :: b in succ && b != blocks[i].id ==> succ'[b] == succ[b]
    ensures Listed(blocks, i + 1, succ', targets)
  {
    hide Known;
  }

  lemma {:induction false} AllListed(blocks: seq<BasicBlock>, succ: map<BlockId, seq<BlockId>>, targets: BasicBlock -> seq<BlockId>)
    requires Listed(blocks, |blocks|, succ, targets)
    ensures RecordsEdges(blocks, succ, targets)
  {
    hide Known;
  }

  /** The edge-building loop of the `ControlFlowGraph` constructor, for one edge kind. */
  method BuildEdges(blocks: seq<BasicBlock>, targets: BasicBlock -> seq<BlockId>)
    returns (succ: map<BlockId, seq<BlockId>>, pred: map<BlockId, seq<BlockId>>)
    requires DistinctIds(blocks)
    ensures RecordsEdges(blocks, succ, targets) && Mirrors(succ, pred)
    ensures RecordsEntries(blocks, pred, targets)
  {
    hide Mirrors, Known, RecordsEntries, Listed, DistinctIds;
    succ := map b | b in Ids(blocks) :: [];
    pred := map b | b in Ids(blocks) :: [];
    NoEdges(succ, pred);
    NoEntries(pred, targets);
    assert blocks[..0] == [];
    NothingListed(blocks, succ, targets);
    for i := 0 to |blocks|
      invariant succ.Keys == pred.Keys == Ids(blocks) && Mirrors(succ, pred)
      invariant Listed(blocks, i, succ, targets)
      invariant RecordsEntries(blocks[..i], pred, targets)
    {
      assert blocks[i].id in Ids(blocks);
      ghost var old', before := succ, pred;
      OneListed(blocks, i, succ, targets);
      succ, pred := AddEdges(blocks[i].id, targets(blocks[i]), succ, pred);
      MoreEntries(blocks, i, before, pred, targets);
      MoreListed(blocks, i, old', succ, targets);
    }
    assert blocks[..|blocks|] == blocks;
    AllListed(blocks, succ, targets);
  }

  function NormalTargets(b: BasicBlock): seq<BlockId> {
    b.terminator.Successors()
  }

  function UnwindTargets(b: BasicBlock): seq<BlockId> {
    b.handlers
  }

  /** Edges of both kinds. */
  function Both(succ: map<BlockId, seq<BlockId>>, unwind: map<BlockId, seq<BlockId>>): map<BlockId, seq<BlockId>> {
    map b | b in succ :: succ[b] + if b in unwind then unwind[b] else []
  }
}

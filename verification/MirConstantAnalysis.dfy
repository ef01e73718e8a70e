/** `ConstantAnalysis` (src/mir/dataflow.cpp): the rounds that fill the table of known constants. They end at the least
    table that is closed under implication, well before the guard on the number of rounds. */
module MirConstantAnalysis {
  import opened Wrappers
  import opened MirEffects
  import opened MirExecution
  import opened MirConstants

  // ---------- evaluating one value ----------

  method FindOwner(p: Module, x: nat) returns (found: bool, b: nat, i: nat)
    ensures found ==> HasParam(p, b, i, x)
    ensures !found ==> forall a, j :: !HasParam(p, a, j, x)
  {
    b, i := 0, 0;
    while b < |p.blocks|
      invariant b <= |p.blocks|
      invariant forall a, j :: a < b ==> !HasParam(p, a, j, x)
    {
      i := 0;
      while i < |p.blocks[b].params|
        invariant i <= |p.blocks[b].params|
        invariant forall j :: j < i ==> !HasParam(p, b, j, x)
      {
        if p.blocks[b].params[i] == x { return true, b, i; }
        i := i + 1;
      }
      b := b + 1;
    }
    return false, 0, 0;
  }

  /** Edge `i` of block `b` comes before edge `j` of block `a`. */
  predicate Before(b: int, i: int, a: int, j: int) {
    b < a || (b == a && i < j)
  }

  /** Does edge `i` of block `b` enter `owner`? */
  predicate Enters(p: Module, owner: nat, b: int, i: int) {
    HasEdge(p, b, i) && EdgeAt(p, b, i).block == owner
  }

  /** What has been found out from the edges before edge `j` of block `a`. */
  ghost predicate Agreeing(p: Module, known: Known, owner: nat, position: nat, a: nat, j: nat, agreed: Option<nat>) {
    && (agreed.None? ==> forall b, i :: Enters(p, owner, b, i) ==> !Before(b, i, a, j))
    && (agreed.Some? ==> exists b, i :: Enters(p, owner, b, i) && Before(b, i, a, j))
    && (agreed.Some? ==> forall b, i :: Enters(p, owner, b, i) && Before(b, i, a, j)
                                        ==> Passes(p, known, owner, position, agreed.value, b, i))
  }

  lemma {:induction false} AgreeingStep(p: Module, known: Known, owner: nat, position: nat, a: nat, j: nat, agreed: Option<nat>, k: nat)
    requires Agreeing(p, known, owner, position, a, j, agreed) && HasEdge(p, a, j)
    requires Passes(p, known, owner, position, k, a, j) && (agreed.Some? ==> agreed.value == k)
    ensures EdgeAt(p, a, j).block == owner ==> Agreeing(p, known, owner, position, a, j + 1, Some(k))
  {
    hide Passes, Edges, EdgeAt;
    if EdgeAt(p, a, j).block == owner {
      assert Enters(p, owner, a, j) && Before(a, j, a, j + 1);
    }
  }

  lemma {:induction false} AgreeingSkip(p: Module, known: Known, owner: nat, position: nat, a: nat, j: nat, agreed: Option<nat>)
    requires Agreeing(p, known, owner, position, a, j, agreed) && HasEdge(p, a, j) && !Enters(p, owner, a, j)
    ensures Agreeing(p, known, owner, position, a, j + 1, agreed)
  {
    hide Passes, Edges, EdgeAt;
    forall b, i | Enters(p, owner, b, i) && Before(b, i, a, j + 1) ensures Before(b, i, a, j) { assert b != a || i != j; }
    if agreed.Some? {
      var b, i :| Enters(p, owner, b, i) && Before(b, i, a, j);
      assert Before(b, i, a, j + 1);
    }
  }

  lemma {:induction false} AgreeingNextBlock(p: Module, known: Known, owner: nat, position: nat, a: nat, j: nat, agreed: Option<nat>)
    requires Agreeing(p, known, owner, position, a, j, agreed) && a < |p.blocks| && j == |Edges(p.blocks[a].term)|
    ensures Agreeing(p, known, owner, position, a + 1, 0, agreed)
  {
    hide Passes, Edges, EdgeAt;
    if agreed.Some? {
      var b, i :| Enters(p, owner, b, i) && Before(b, i, a, j);
      assert Before(b, i, a + 1, 0);
    }
  }

  /** No constant is passed by every edge. */
  ghost predicate NoneAgreed(p: Module, known: Known, owner: nat, position: nat) {
    forall k :: !(Entered(p, owner) && AllPass(p, known, owner, position, k))
  }

  lemma {:induction false} Disagree(p: Module, known: Known, owner: nat, position: nat, a: nat, j: nat, agreed: Option<nat>)
    requires Agreeing(p, known, owner, position, a, j, agreed) && Enters(p, owner, a, j)
    requires var args := EdgeAt(p, a, j).args;
             position >= |args| || OperandConst(p, known, args[position]).None?
             || (agreed.Some? && OperandConst(p, known, args[position]) != agreed)
    ensures NoneAgreed(p, known, owner, position)
  {
    hide AllPass, OperandConst;
    var args := EdgeAt(p, a, j).args;
    if position < |args| && OperandConst(p, known, args[position]).Some? {
      var b, i :| Enters(p, owner, b, i) && Before(b, i, a, j);
      forall k ensures !AllPass(p, known, owner, position, k) {
        if AllPass(p, known, owner, position, k) {
          Passed(p, known, owner, position, k, b, i);
          Passed(p, known, owner, position, k, a, j);
          assert false;
        }
      }
    } else {
      forall k ensures !AllPass(p, known, owner, position, k) {
        if AllPass(p, known, owner, position, k) {
          Passed(p, known, owner, position, k, a, j);
          assert false;
        }
      }
    }
  }

  lemma {:induction false} Passed(p: Module, known: Known, owner: nat, position: nat, k: nat, b: int, i: int)
    requires AllPass(p, known, owner, position, k) && Enters(p, owner, b, i)
    ensures var args := EdgeAt(p, b, i).args; position < |args| && OperandConst(p, known, args[position]) == Some(k)
  {
    assert Passes(p, known, owner, position, k, b, i);
  }

  lemma {:induction false} Agreed(p: Module, known: Known, owner: nat, position: nat, agreed: Option<nat>)
    requires Agreeing(p, known, owner, position, |p.blocks|, 0, agreed)
    ensures agreed.Some? ==> Entered(p, owner) && AllPass(p, known, owner, position, agreed.value)
    ensures agreed.None? ==> NoneAgreed(p, known, owner, position)
  {
    if agreed.Some? {
      var b, i :| Enters(p, owner, b, i) && Before(b, i, |p.blocks|, 0);
      forall b, i | HasEdge(p, b, i) ensures Passes(p, known, owner, position, agreed.value, b, i) {
        if Enters(p, owner, b, i) { assert Before(b, i, |p.blocks|, 0); }
      }
    } else if Entered(p, owner) {
      var b, i :| HasEdge(p, b, i) && EdgeAt(p, b, i).block == owner;
      assert Enters(p, owner, b, i) && Before(b, i, |p.blocks|, 0);
      assert false;
    }
  }

  /** The constant that every edge into `owner` passes at `position`. */
  method AgreedArgument(p: Module, known: Known, owner: nat, position: nat) returns (r: Option<nat>)
    ensures r.Some? ==> Entered(p, owner) && AllPass(p, known, owner, position, r.value)
    ensures r.None? ==> NoneAgreed(p, known, owner, position)
  {
    hide Agreeing, NoneAgreed, AllPass, Entered;
    r := None;
    var a := 0;
    NothingYet(p, known, owner, position);
    while a < |p.blocks|
      invariant a <= |p.blocks| && Agreeing(p, known, owner, position, a, 0, r)
    {
      var j := 0;
      while j < |Edges(p.blocks[a].term)|
        invariant j <= |Edges(p.blocks[a].term)| && Agreeing(p, known, owner, position, a, j, r)
      {
        var t := EdgeAt(p, a, j);
        if t.block != owner {
          AgreeingSkip(p, known, owner, position, a, j, r);
        } else {
          var argument := if position < |t.args| then OperandConst(p, known, t.args[position]) else None;
          if argument.None? || (r.Some? && r != argument) {
            Disagree(p, known, owner, position, a, j, r);
            return None;
          }
          AgreeingStep(p, known, owner, position, a, j, r, argument.value);
          r := argument;
        }
        j := j + 1;
      }
      AgreeingNextBlock(p, known, owner, position, a, j, r);
      a := a + 1;
    }
    Agreed(p, known, owner, position, r);
  }

  lemma {:induction false} NothingYet(p: Module, known: Known, owner: nat, position: nat)
    ensures Agreeing(p, known, owner, position, 0, 0, None)
  {
  }

  method FindDefinition(p: Module, x: nat) returns (found: bool, b: nat, i: nat)
    ensures found ==> Defines(p, b, i, x)
    ensures !found ==> forall a, j :: !Defines(p, a, j, x)
  {
    b, i := 0, 0;
    while b < |p.blocks|
      invariant b <= |p.blocks|
      invariant forall a, j :: a < b ==> !Defines(p, a, j, x)
    {
      i := 0;
      while i < |p.blocks[b].instrs|
        invariant i <= |p.blocks[b].instrs|
        invariant forall j :: j < i ==> !Defines(p, b, j, x)
      {
        if p.blocks[b].instrs[i].result == Some(x) { return true, b, i; }
        i := i + 1;
      }
      b := b + 1;
    }
    return false, 0, 0;
  }

  method PoolIdOf(p: Module, c: Value) returns (r: Option<nat>)
    ensures r == PoolId(p.pool, c)
  {
    var id := 1;
    NoneInNothing(c);
    while id <= |p.pool|
      invariant 1 <= id <= |p.pool| + 1
      invariant PoolId(p.pool[..id - 1], c) == None
      decreases |p.pool| - id
    {
      assert p.pool[..id][..id - 1] == p.pool[..id - 1];
      if p.pool[id - 1] == c {
        FoundEarly(p.pool, c, id);
        return Some(id);
      }
      id := id + 1;
    }
    assert p.pool[..|p.pool|] == p.pool;
    return None;
  }

  lemma {:induction false} NoneInNothing(c: Value)
    ensures PoolId([], c) == None
  {
  }

  /** What is found in the first part of the pool is found in the pool. */
  lemma {:induction false} FoundEarly(pool: seq<Value>, c: Value, n: nat)
    requires n <= |pool| && PoolId(pool[..n], c).Some?
    ensures PoolId(pool, c) == PoolId(pool[..n], c)
    decreases |pool|
  {
    if n < |pool| {
      var front := pool[..|pool| - 1];
      assert front[..n] == pool[..n];
      FoundEarly(front, c, n);
    } else {
      assert pool[..n] == pool;
    }
  }

  ghost predicate NotImplied(p: Module, known: Known, v: ValueId) {
    forall k :: !Implied(p, known, v, k)
  }

  /** `evaluate`: what the definition of `v` implies right now. */
  method Evaluate(p: Module, known: Known, v: ValueId) returns (r: Option<nat>)
    requires Ssa(p)
    ensures r.Some? ==> Implied(p, known, v, r.value)
    ensures r.None? ==> NotImplied(p, known, v)
  {
    hide AllPass, Entered, PoolId, Fold;
    match v
    case Param(_) => return None;
    case BlockParam(x) =>
      var found, b, i := FindOwner(p, x);
      if !found { return None; }
      r := AgreedArgument(p, known, b, i);
      if r.None? { OnlyOwner(p, known, x, b, i); }
    case Temp(x) =>
      var found, b, i := FindDefinition(p, x);
      if !found { return None; }
      var folded := Fold(p.blocks[b].instrs[i]);
      if folded.None? { OnlyDefinition(p, known, x, b, i); return None; }
      r := PoolIdOf(p, folded.value);
      if r.None? { OnlyDefinition(p, known, x, b, i); }
  }

  lemma {:induction false} OnlyOwner(p: Module, known: Known, x: nat, b: nat, i: nat)
    requires Ssa(p) && HasParam(p, b, i, x) && NoneAgreed(p, known, b, i)
    ensures NotImplied(p, known, BlockParam(x))
  {
    hide AllPass, Entered;
  }

  lemma {:induction false} OnlyDefinition(p: Module, known: Known, x: nat, b: nat, i: nat)
    requires Ssa(p) && Defines(p, b, i, x)
    requires var c := Fold(p.blocks[b].instrs[i]); c.None? || PoolId(p.pool, c.value).None?
    ensures NotImplied(p, known, Temp(x))
  {
    hide PoolId, Fold;
  }

  /** At most one constant is implied. */
  lemma {:induction false} ImpliedOnce(p: Module, known: Known, v: ValueId, k: nat, m: nat)
    requires Ssa(p) && Implied(p, known, v, k) && Implied(p, known, v, m)
    ensures k == m
  {
    match v
    case BlockParam(x) =>
      hide AllPass, Entered;
      var b, i :| HasParam(p, b, i, x) && Entered(p, b) && AllPass(p, known, b, i, k);
      var c, j :| HasParam(p, c, j, x) && Entered(p, c) && AllPass(p, known, c, j, m);
      PassedOnce(p, known, b, i, k, m);
    case Temp(x) =>
      var b, i :| Defines(p, b, i, x) && FoldsTo(p, p.blocks[b].instrs[i], k);
      var c, j :| Defines(p, c, j, x) && FoldsTo(p, p.blocks[c].instrs[j], m);
  }

  lemma {:induction false} PassedOnce(p: Module, known: Known, owner: nat, position: nat, k: nat, m: nat)
    requires Entered(p, owner) && AllPass(p, known, owner, position, k) && AllPass(p, known, owner, position, m)
    ensures k == m
  {
    var b, i :| HasEdge(p, b, i) && EdgeAt(p, b, i).block == owner;
    assert Passes(p, known, owner, position, k, b, i) && Passes(p, known, owner, position, m, b, i);
  }

  // ---------- rounds ----------

  /** The values of the function: its parameters, then block by block the block parameters and the results. */
  function BlockValues(b: Block): seq<ValueId> {
    seq(|b.params|, i requires 0 <= i < |b.params| => BlockParam(b.params[i])) + Results(b.instrs)
  }

  function Results(instrs: seq<Instr>): seq<ValueId> {
    if instrs == [] then []
    else (if instrs[0].result.Some? then [Temp(instrs[0].result.value)] else []) + Results(instrs[1..])
  }

  function AllValues(blocks: seq<Block>): seq<ValueId> {
    if blocks == [] then [] else BlockValues(blocks[0]) + AllValues(blocks[1..])
  }

  function DefinitionOrder(p: Module): seq<ValueId> {
    seq(p.params, i requires 0 <= i < p.params => Param(i)) + AllValues(p.blocks)
  }

  lemma {:induction false} ResultListed(instrs: seq<Instr>, i: nat)
    requires i < |instrs| && instrs[i].result.Some?
    ensures Temp(instrs[i].result.value) in Results(instrs)
  {
    if i > 0 { ResultListed(instrs[1..], i - 1); }
  }

  lemma {:induction false} BlockListed(blocks: seq<Block>, b: nat, v: ValueId)
    requires b < |blocks| && v in BlockValues(blocks[b])
    ensures v in AllValues(blocks)
  {
    if b > 0 { BlockListed(blocks[1..], b - 1, v); }
  }

  /** Only values of the function can be implied. */
  lemma {:induction false} ImpliedListed(p: Module, known: Known, v: ValueId, k: nat)
    requires Implied(p, known, v, k)
    ensures v in DefinitionOrder(p)
  {
    match v
    case BlockParam(x) =>
      hide AllPass, Entered;
      var b, i :| HasParam(p, b, i, x) && Entered(p, b) && AllPass(p, known, b, i, k);
      assert BlockValues(p.blocks[b])[i] == v;
      BlockListed(p.blocks, b, v);
    case Temp(x) =>
      hide FoldsTo;
      var b, i :| Defines(p, b, i, x) && FoldsTo(p, p.blocks[b].instrs[i], k);
      ResultListed(p.blocks[b].instrs, i);
      BlockListed(p.blocks, b, v);
  }

  /** The table holds only what every closed table holds. */
  ghost predicate Least(p: Module, known: Known) {
    forall big :: Closed(p, big) ==> Extends(known, big)
  }

  ghost predicate Sound(p: Module, known: Known) {
    Justified(p, known) && Least(p, known) && forall v :: v in known ==> v in DefinitionOrder(p)
  }

  lemma {:induction false} LearnLeast(p: Module, known: Known, v: ValueId, k: nat)
    requires Least(p, known) && Implied(p, known, v, k)
    ensures Least(p, known[v := k])
  {
    hide Implied;
    forall big | Closed(p, big) ensures Extends(known[v := k], big) {
      ImpliedMore(p, known, big, v, k);
    }
  }

  lemma {:induction false} ImpliedInPool(p: Module, known: Known, v: ValueId, k: nat)
    requires Justified(p, known) && Implied(p, known, v, k)
    ensures InPool(p, k)
  {
    match v
    case BlockParam(x) =>
      hide Implied;
      var b, i := ParamWitness(p, known, x, k);
      var a, j :| HasEdge(p, a, j) && EdgeAt(p, a, j).block == b;
      assert Passes(p, known, b, i, k, a, j);
    case Temp(_) =>
  }

  lemma {:induction false} ParamWitness(p: Module, known: Known, x: nat, k: nat) returns (b: nat, i: nat)
    requires Implied(p, known, BlockParam(x), k)
    ensures HasParam(p, b, i, x) && Entered(p, b) && AllPass(p, known, b, i, k)
  {
    hide AllPass, Entered;
    b, i :| HasParam(p, b, i, x) && Entered(p, b) && AllPass(p, known, b, i, k);
  }

  lemma {:induction false} Learn(p: Module, known: Known, v: ValueId, k: nat)
    requires Sound(p, known) && v !in known && Implied(p, known, v, k)
    ensures Sound(p, known[v := k])
  {
    hide Implied, Least, DefinitionOrder;
    var more := known[v := k];
    LearnLeast(p, known, v, k);
    ImpliedListed(p, known, v, k);
    ImpliedInPool(p, known, v, k);
    assert Extends(known, more);
    forall u | u in more ensures InPool(p, more[u]) && Implied(p, more, u, more[u]) {
      ImpliedMore(p, known, more, u, more[u]);
    }
  }

  lemma {:induction false} NothingKnown(p: Module)
    ensures Sound(p, map[])
  {
  }

  /** A table at which a whole round found nothing is closed. */
  lemma {:induction false} QuietIsClosed(p: Module, known: Known)
    requires Ssa(p) && Sound(p, known)
    requires forall v :: v in DefinitionOrder(p) ==> v in known || NotImplied(p, known, v)
    ensures Closed(p, known)
  {
    hide Implied, Ssa, Least, DefinitionOrder;
    forall v, k | Implied(p, known, v, k) ensures v in known && known[v] == k {
      ImpliedListed(p, known, v, k);
      ImpliedOnce(p, known, v, k, known[v]);
    }
  }

  lemma {:induction false} CountKnown(order: seq<ValueId>, known: set<ValueId>)
    requires forall v :: v in known ==> v in order
    ensures |known| <= |order|
  {
    if order != [] {
      var rest := known - {order[0]};
      forall v | v in rest ensures v in order[1..] { assert v in order && v != order[0]; }
      CountKnown(order[1..], rest);
      assert |known| <= |rest| + 1 by {
        if order[0] in known { assert known == rest + {order[0]}; } else { assert known == rest; }
      }
    } else {
      assert known == {};
    }
  }

  class ConstantAnalysis {
    const program: Module
    var constantIds: Known
    var constantValues: seq<ValueId>

    /** The table is closed under implication, holds nothing a closed table need not hold, and every entry is implied. */
    constructor (p: Module)
      requires Ssa(p)
      ensures program == p && Justified(p, constantIds) && Closed(p, constantIds) && Least(p, constantIds)
      ensures forall v :: v in constantValues <==> v in constantIds
    {
      program := p;
      constantIds := map[];
      constantValues := [];
      new;
      Rounds();
    }

    /** One pass over the values in definition order. */
    method Round(order: seq<ValueId>) returns (changed: bool)
      requires order == DefinitionOrder(program) && Ssa(program) && Sound(program, constantIds)
      requires forall v :: v in constantValues <==> v in constantIds
      modifies this
      ensures Sound(program, constantIds) && forall v :: v in constantValues <==> v in constantIds
      ensures changed ==> |constantIds| > |old(constantIds)|
      ensures !changed ==> constantIds == old(constantIds) && forall v :: v in order ==> v in constantIds || NotImplied(program, constantIds, v)
    {
      hide Ssa, Sound, NotImplied, Implied;
      changed := false;
      for i := 0 to |order|
        invariant Sound(program, constantIds) && forall v :: v in constantValues <==> v in constantIds
        invariant |constantIds| >= |old(constantIds)| + if changed then 1 else 0
        invariant !changed ==> constantIds == old(constantIds)
        invariant !changed ==> forall j :: 0 <= j < i ==> order[j] in constantIds || NotImplied(program, constantIds, order[j])
      {
        var v := order[i];
        if v in constantIds { continue; }
        var constant := Evaluate(program, constantIds, v);
        if constant.None? { continue; }
        Learn(program, constantIds, v, constant.value);
        constantIds := constantIds[v := constant.value];
        constantValues := constantValues + [v];
        changed := true;
      }
    }

    /** `run`: rounds until nothing changes. The guard never stops them early, because every round that changes
        something finds a new value. */
    method Rounds()
      requires Ssa(program) && constantIds == map[] && constantValues == []
      modifies this
      ensures Justified(program, constantIds) && Closed(program, constantIds) && Least(program, constantIds)
      ensures forall v :: v in constantValues <==> v in constantIds
    {
      hide Ssa, NotImplied, Justified, Closed, Least, DefinitionOrder;
      var order := DefinitionOrder(program);
      var changed := true;
      var guard := 0;
      var guardLimit := |order| * 4 + 64;
      NothingKnown(program);
      while changed && guard < guardLimit
        invariant Sound(program, constantIds) && forall v :: v in constantValues <==> v in constantIds
        invariant guard <= guardLimit && (changed ==> |constantIds| >= guard)
        invariant !changed ==> forall v :: v in order ==> v in constantIds || NotImplied(program, constantIds, v)
        decreases guardLimit - guard
      {
        guard := guard + 1;
        changed := Round(order);
      }
      CountKnown(order, constantIds.Keys);
      assert |constantIds.Keys| == |constantIds|;
      QuietIsClosed(program, constantIds);
    }
  }
}

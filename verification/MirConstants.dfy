/** Constant facts about an SSA function (src/mir/dataflow.cpp): what a table of known constants implies, and why a table that
    only holds implied entries is right at every point of every run. */
module MirConstants {
  import opened Wrappers
  import opened MirEffects
  import opened MirExecution
  import opened MirTypeSafety
  import opened MirFolding

  /** A function of a module. The pool holds the module's constants, each once, numbered from 1. */
  datatype Module = Module(pool: seq<Value>, params: nat, blocks: Program)

  type Known = map<ValueId, nat>

  predicate InPool(p: Module, id: nat) {
    1 <= id <= |p.pool|
  }

  /** The number of the first constant that equals `c`. */
  function PoolId(pool: seq<Value>, c: Value): (r: Option<nat>)
    ensures r.Some? ==> 1 <= r.value <= |pool| && pool[r.value - 1] == c
    ensures r.None? ==> c !in pool
  {
    if pool == [] then None
    else
      var n := |pool| - 1;
      var r := PoolId(pool[..n], c);
      if r.Some? then r else if pool[n] == c then Some(|pool|) else None
  }

  /** The edges of a terminator, in order. */
  function Edges(t: Terminator): seq<Edge> {
    match t
    case Jump(e) => [e]
    case Branch(_, yes, no) => [yes, no]
    case Switch(_, cases, default) => CaseEdges(cases) + [default]
    case _ => []
  }

  function CaseEdges(cases: seq<Case>): seq<Edge> {
    if cases == [] then [] else [cases[0].edge] + CaseEdges(cases[1..])
  }

  /** SSA: a block parameter has one place, and a temporary one definition. */
  ghost predicate Ssa(p: Module) {
    && (forall a, i, b, j, x :: HasParam(p, a, i, x) && HasParam(p, b, j, x) ==> a == b && i == j)
    && (forall a, i, b, j, x :: Defines(p, a, i, x) && Defines(p, b, j, x) ==> a == b && i == j)
  }

  predicate HasParam(p: Module, b: int, i: int, x: nat) {
    IsParam(p, b, i) && p.blocks[b].params[i] == x
  }

  predicate Defines(p: Module, b: int, i: int, x: nat) {
    IsInstr(p, b, i) && p.blocks[b].instrs[i].result == Some(x)
  }

  predicate IsParam(p: Module, b: int, i: int) {
    0 <= b < |p.blocks| && 0 <= i < |p.blocks[b].params|
  }

  predicate IsInstr(p: Module, b: int, i: int) {
    0 <= b < |p.blocks| && 0 <= i < |p.blocks[b].instrs|
  }

  predicate HasEdge(p: Module, b: int, i: int) {
    0 <= b < |p.blocks| && 0 <= i < |Edges(p.blocks[b].term)|
  }

  function EdgeAt(p: Module, b: int, i: int): Edge
    requires HasEdge(p, b, i)
  {
    Edges(p.blocks[b].term)[i]
  }

  // ---------- what a table implies ----------

  /** The constant an operand is known to be. */
  function OperandConst(p: Module, known: Known, o: Operand): Option<nat> {
    match o
    case Const(v) => PoolId(p.pool, v)
    case Use(id, _) => if id in known then Some(known[id]) else None
  }

  /** Edge `i` of block `b`, if it enters block `owner`, passes constant `k` at `position`. */
  predicate Passes(p: Module, known: Known, owner: nat, position: nat, k: nat, b: int, i: int)
    requires HasEdge(p, b, i)
  {
    var e := EdgeAt(p, b, i);
    e.block == owner ==> position < |e.args| && OperandConst(p, known, e.args[position]) == Some(k)
  }

  ghost predicate AllPass(p: Module, known: Known, owner: nat, position: nat, k: nat) {
    forall b, i :: HasEdge(p, b, i) ==> Passes(p, known, owner, position, k, b, i)
  }

  ghost predicate Entered(p: Module, owner: nat) {
    exists b, i :: HasEdge(p, b, i) && EdgeAt(p, b, i).block == owner
  }

  /** The definition of `v` makes it the constant `k`, given what is known: a block parameter that every edge into its
      block passes `k`, or a temporary whose instruction folds to `k`. */
  ghost predicate Implied(p: Module, known: Known, v: ValueId, k: nat) {
    match v
    case Param(_) => false
    case BlockParam(x) => exists b, i :: HasParam(p, b, i, x) && Entered(p, b) && AllPass(p, known, b, i, k)
    case Temp(x) => exists b, i :: Defines(p, b, i, x) && FoldsTo(p, p.blocks[b].instrs[i], k)
  }

  ghost predicate FoldsTo(p: Module, ins: Instr, k: nat) {
    Fold(ins).Some? && PoolId(p.pool, Fold(ins).value) == Some(k)
  }

  ghost predicate Extends(small: Known, big: Known) {
    forall v :: v in small ==> v in big && big[v] == small[v]
  }

  lemma {:induction false} AllPassMore(p: Module, small: Known, big: Known, owner: nat, position: nat, k: nat)
    requires Extends(small, big) && AllPass(p, small, owner, position, k)
    ensures AllPass(p, big, owner, position, k)
  {
    hide Edges;
    forall b, i | HasEdge(p, b, i) ensures Passes(p, big, owner, position, k, b, i) {
      assert Passes(p, small, owner, position, k, b, i);
    }
  }

  /** Knowing more never takes an implication back. */
  lemma {:induction false} ImpliedMore(p: Module, small: Known, big: Known, v: ValueId, k: nat)
    requires Extends(small, big) && Implied(p, small, v, k)
    ensures Implied(p, big, v, k)
  {
    hide AllPass, Entered, FoldsTo;
    match v
    case BlockParam(x) =>
      var b, i :| HasParam(p, b, i, x) && Entered(p, b) && AllPass(p, small, b, i, k);
      AllPassMore(p, small, big, b, i, k);
    case Temp(_) =>
  }

  /** Every entry is implied by the table itself. */
  ghost predicate Justified(p: Module, known: Known) {
    forall v :: v in known ==> InPool(p, known[v]) && Implied(p, known, v, known[v])
  }

  /** Every implication has been drawn. */
  ghost predicate Closed(p: Module, known: Known) {
    forall v, k :: Implied(p, known, v, k) ==> v in known && known[v] == k
  }

  // ---------- what is known is right ----------

  /** For every value that is defined and known, the constant it is known to be stands for it. */
  ghost predicate Right(p: Module, known: Known, values: map<ValueId, Value>) {
    forall v :: v in values && v in known ==> InPool(p, known[v]) && Stands(values[v], p.pool[known[v] - 1])
  }

  /** The instructions behind the known temporaries fold truly. */
  ghost predicate Sharp(p: Module, known: Known) {
    forall b, i, x :: Defines(p, b, i, x) && Temp(x) in known && Fold(p.blocks[b].instrs[i]).Some? ==>
      FoldsTruly(p.blocks[b].instrs[i].op, Constants(p.blocks[b].instrs[i].operands).value)
  }

  /** What is left to do in a block is the end of the block. */
  ghost predicate Placed(p: Module, c: Config) {
    c.At? ==> c.block < |p.blocks| && |c.rest| <= |p.blocks[c.block].instrs|
              && c.rest == p.blocks[c.block].instrs[|p.blocks[c.block].instrs| - |c.rest|..]
  }

  ghost predicate Correct(p: Module, known: Known, c: Config) {
    Placed(p, c) && (c.At? ==> Right(p, known, c.st.values))
  }

  lemma {:induction false} TempRight(p: Module, known: Known, b: nat, i: nat)
    requires Ssa(p) && Justified(p, known) && IsInstr(p, b, i)
    requires var ins := p.blocks[b].instrs[i]; ins.result.Some? && Temp(ins.result.value) in known
    ensures var ins := p.blocks[b].instrs[i];
            var k := known[Temp(ins.result.value)];
            InPool(p, k) && Fold(ins) == Some(p.pool[k - 1])
  {
    hide Fold, AllPass, Entered;
    var ins := p.blocks[b].instrs[i];
    var k := known[Temp(ins.result.value)];
    assert Implied(p, known, Temp(ins.result.value), k);
    var b2, i2 :| Defines(p, b2, i2, ins.result.value) && FoldsTo(p, p.blocks[b2].instrs[i2], k);
    assert Defines(p, b, i, ins.result.value);
  }

  lemma {:induction false} DefineRight(p: Module, known: Known, st: State, result: Option<nat>, v: Value)
    requires Right(p, known, st.values)
    requires result.Some? && Temp(result.value) in known ==> InPool(p, known[Temp(result.value)]) && Stands(v, p.pool[known[Temp(result.value)] - 1])
    ensures Right(p, known, Define(st, result, v).values)
  {
  }

  lemma {:induction false} ValuesAfter(w: World, ins: Instr, st: State)
    ensures match Execute(w, ins, st)
            case Done(after) => exists v :: after.values == Define(st, ins.result, v).values
            case Raised(_, after) => after.values == st.values
  {
    hide Compute, ValuesOf, HasType;
    match Execute(w, ins, st)
    case Done(after) =>
      var v := if ins.result.Some? then after.values[Temp(ins.result.value)] else Nil;
      assert after.values == Define(st, ins.result, v).values;
    case Raised(_, _) =>
  }

  lemma {:induction false} ExecuteRight(p: Module, known: Known, w: World, c: Config)
    requires Ssa(p) && Justified(p, known) && Sharp(p, known) && c.At? && Correct(p, known, c) && c.rest != []
    ensures Right(p, known, Execute(w, c.rest[0], c.st).st.values)
  {
    hide Ssa, Justified, Execute, Define, Right, Fold, InPool, FoldsTruly, Stands;
    var instrs := p.blocks[c.block].instrs;
    var i := |instrs| - |c.rest|;
    var ins := c.rest[0];
    assert ins == instrs[i];
    ValuesAfter(w, ins, c.st);
    if ins.result.Some? && Temp(ins.result.value) in known {
      assert Defines(p, c.block, i, ins.result.value);
      TempRight(p, known, c.block, i);
      var v := FoldIsExecution(w, ins, c.st);
      DefineRight(p, known, c.st, ins.result, v);
    } else {
      match Execute(w, ins, c.st)
      case Done(after) =>
        var v :| after.values == Define(c.st, ins.result, v).values;
        DefineRight(p, known, c.st, ins.result, v);
      case Raised(_, _) =>
    }
  }

  /** The condition on folding is exact: executing an instruction behind a known temporary that does not fold truly makes
      the table wrong at once. */
  lemma {:induction false} WrongOtherwise(p: Module, known: Known, w: World, c: Config)
    requires Ssa(p) && Justified(p, known) && c.At? && Placed(p, c) && c.rest != []
    requires var ins := c.rest[0];
             && ins.result.Some? && Temp(ins.result.value) in known && Constants(ins.operands).Some?
             && !FoldsTruly(ins.op, Constants(ins.operands).value)
    ensures Step(p.blocks, w, c).At? && !Right(p, known, Step(p.blocks, w, c).st.values)
  {
    hide Ssa, Justified, Execute, Fold, FoldsTruly, Stands, Constants;
    var instrs := p.blocks[c.block].instrs;
    var i := |instrs| - |c.rest|;
    assert c.rest[0] == instrs[i];
    TempRight(p, known, c.block, i);
    var v := FoldIsExecution(w, c.rest[0], c.st);
    assert Temp(c.rest[0].result.value) in Define(c.st, c.rest[0].result, v).values;
  }

  lemma {:induction false} RaiseCorrect(p: Module, known: Known, hs: seq<Handler>, error: Value, st: State)
    requires Right(p, known, st.values)
    ensures Correct(p, known, Raise(p.blocks, hs, error, st))
  {
    hide Right, FindHandler;
  }

  lemma {:induction false} InstrCorrect(p: Module, known: Known, w: World, c: Config)
    requires Ssa(p) && Justified(p, known) && Sharp(p, known) && c.At? && Correct(p, known, c) && c.rest != []
    ensures Correct(p, known, Step(p.blocks, w, c))
  {
    hide Ssa, Justified, Sharp, Execute, Right, Raise;
    ExecuteRight(p, known, w, c);
    match Execute(w, c.rest[0], c.st)
    case Done(_) =>
    case Raised(error, after) => RaiseCorrect(p, known, p.blocks[c.block].handlers, error, after);
  }

  // ---------- edges ----------

  lemma {:induction false} CaseListed(cases: seq<Case>, c: Case)
    requires c in cases
    ensures c.edge in CaseEdges(cases)
  {
    if c != cases[0] { CaseListed(cases[1..], c); }
  }

  lemma {:induction false} EdgeListed(p: Module, b: nat, e: Edge) returns (i: nat)
    requires b < |p.blocks| && IsEdge(p.blocks[b].term, e)
    ensures HasEdge(p, b, i) && EdgeAt(p, b, i) == e
  {
    var t := p.blocks[b].term;
    assert e in Edges(t) by {
      if t.Switch? && e != t.default {
        var c :| c in t.cases && c.edge == e;
        CaseListed(t.cases, c);
      }
    }
    i :| 0 <= i < |Edges(t)| && Edges(t)[i] == e;
  }

  lemma {:induction false} BindRight(p: Module, known: Known, params: seq<nat>, vs: seq<Value>, values: map<ValueId, Value>)
    requires Right(p, known, values) && |vs| == |params|
    requires forall j :: 0 <= j < |params| && BlockParam(params[j]) in known ==>
               InPool(p, known[BlockParam(params[j])]) && Stands(vs[j], p.pool[known[BlockParam(params[j])] - 1])
    ensures Right(p, known, Bind(params, vs, values))
    decreases |params|
  {
    if params != [] {
      var more := values[BlockParam(params[0]) := vs[0]];
      assert Right(p, known, more);
      BindRight(p, known, params[1..], vs[1..], more);
    }
  }

  lemma {:induction false} OperandRight(p: Module, known: Known, st: State, o: Operand, k: nat)
    requires Right(p, known, st.values) && OperandConst(p, known, o) == Some(k) && (o.Use? ==> o.id in st.values)
    ensures InPool(p, k) && Stands(ValueOf(st, o), p.pool[k - 1])
  {
  }

  /** A known block parameter is passed its constant by every edge. */
  lemma {:induction false} ParamPassed(p: Module, known: Known, d: nat, j: nat)
    requires Ssa(p) && Justified(p, known) && IsParam(p, d, j) && BlockParam(p.blocks[d].params[j]) in known
    ensures var k := known[BlockParam(p.blocks[d].params[j])]; InPool(p, k) && AllPass(p, known, d, j, k)
  {
    hide Entered, AllPass, FoldsTo;
    var x := p.blocks[d].params[j];
    var k := known[BlockParam(x)];
    assert Implied(p, known, BlockParam(x), k);
    var b, i :| HasParam(p, b, i, x) && Entered(p, b) && AllPass(p, known, b, i, k);
    assert HasParam(p, d, j, x);
  }

  lemma {:induction false} ParamRight(p: Module, known: Known, st: State, b: nat, i: nat, j: nat)
    requires Ssa(p) && Justified(p, known) && Right(p, known, st.values) && HasEdge(p, b, i)
    requires var e := EdgeAt(p, b, i);
             IsParam(p, e.block, j) && BlockParam(p.blocks[e.block].params[j]) in known && j < |e.args| && UsesIn(e.args, st.values.Keys)
    ensures var e := EdgeAt(p, b, i);
            var k := known[BlockParam(p.blocks[e.block].params[j])];
            InPool(p, k) && Stands(ValueOf(st, e.args[j]), p.pool[k - 1])
  {
    hide Ssa, Justified, Entered, Right, Edges, Stands, OperandConst;
    var e := EdgeAt(p, b, i);
    ParamPassed(p, known, e.block, j);
    var k := known[BlockParam(p.blocks[e.block].params[j])];
    assert Passes(p, known, e.block, j, k, b, i);
    OperandRight(p, known, st, e.args[j], k);
  }

  lemma {:induction false} EnterCorrect(p: Module, known: Known, b: nat, e: Edge, st: State)
    requires Ssa(p) && Justified(p, known) && Right(p, known, st.values) && b < |p.blocks| && IsEdge(p.blocks[b].term, e)
    requires UsesIn(e.args, st.values.Keys) && (e.block < |p.blocks| ==> |e.args| == |p.blocks[e.block].params|)
    ensures Correct(p, known, Enter(p.blocks, e, st))
  {
    hide Ssa, Justified, Right, UsesIn, IsEdge, EdgeAt, HasEdge, Stands;
    if e.block < |p.blocks| {
      var i := EdgeListed(p, b, e);
      var params, vs := p.blocks[e.block].params, ValuesOf(st, e.args);
      forall j | 0 <= j < |params| && BlockParam(params[j]) in known
        ensures InPool(p, known[BlockParam(params[j])]) && Stands(vs[j], p.pool[known[BlockParam(params[j])] - 1])
      {
        ParamRight(p, known, st, b, i, j);
      }
      BindRight(p, known, params, vs, st.values);
    }
  }

  lemma {:induction false} EdgeCorrect(ty: Typing, p: Module, avail: Available, known: Known, c: Config, e: Edge)
    requires Ssa(p) && Justified(p, known) && Checked(ty, p.blocks, avail) && |avail| == |p.blocks| && Good(ty, p.blocks, avail, c)
    requires c.At? && Correct(p, known, c) && c.rest == [] && IsEdge(p.blocks[c.block].term, e)
    ensures Correct(p, known, Enter(p.blocks, e, c.st))
  {
    hide Ssa, Justified, Right, UsesIn, IsEdge, Enter, InstrTyped, OperandsTyped, SubType, TypesHold, HandlersReady;
    var b := p.blocks[c.block];
    assert BlockTyped(ty, p.blocks, b) && EdgeTyped(ty, p.blocks, e);
    EdgeUses(b.term, e, c.st.values.Keys);
    EnterCorrect(p, known, c.block, e, c.st);
  }

  lemma {:induction false} LeaveCorrect(ty: Typing, p: Module, avail: Available, known: Known, c: Config)
    requires Ssa(p) && Justified(p, known) && Checked(ty, p.blocks, avail) && |avail| == |p.blocks| && Good(ty, p.blocks, avail, c)
    requires c.At? && Correct(p, known, c) && c.rest == []
    ensures Correct(p, known, Leave(p.blocks, p.blocks[c.block], c.st))
  {
    hide Ssa, Justified, Checked, Good, Right, Enter, Raise, Truthy, ValueOf;
    match p.blocks[c.block].term
    case Jump(e) => EdgeCorrect(ty, p, avail, known, c, e);
    case Branch(_, yes, no) =>
      EdgeCorrect(ty, p, avail, known, c, yes);
      EdgeCorrect(ty, p, avail, known, c, no);
    case Switch(subject, cases, default) => EdgeCorrect(ty, p, avail, known, c, Chosen(ValueOf(c.st, subject), cases, default));
    case Throw(o) => RaiseCorrect(p, known, p.blocks[c.block].handlers, ValueOf(c.st, o), c.st);
    case Return(_) =>
    case Unreachable =>
  }

  lemma {:induction false} StepCorrect(ty: Typing, p: Module, avail: Available, known: Known, w: World, c: Config)
    requires Ssa(p) && Justified(p, known) && Checked(ty, p.blocks, avail) && |avail| == |p.blocks| && Good(ty, p.blocks, avail, c)
    requires Correct(p, known, c) && Sharp(p, known)
    ensures Correct(p, known, Step(p.blocks, w, c))
  {
    hide Ssa, Justified, Sharp, Checked, Good, Right, Leave, Execute, Raise;
    if c.At? {
      if c.rest == [] { LeaveCorrect(ty, p, avail, known, c); } else { InstrCorrect(p, known, w, c); }
    }
  }

  lemma {:induction false} ParamsUnknown(p: Module, known: Known)
    requires Justified(p, known)
    ensures forall v :: v in known ==> !v.Param?
  {
    forall v | v in known ensures !v.Param? { assert Implied(p, known, v, known[v]); }
  }

  lemma {:induction false} StartCorrect(p: Module, known: Known, st: State)
    requires Justified(p, known) && p.blocks != [] && forall v :: v in st.values ==> v.Param?
    ensures Correct(p, known, Start(p.blocks, st))
  {
    hide Justified;
    ParamsUnknown(p, known);
  }

  /** A table whose entries are all implied by the table is right at every point of every run, in every world, through
      loops, joins and exceptions: entries may justify each other around a back edge. */
  lemma {:induction false} KnownIsRight(ty: Typing, p: Module, avail: Available, known: Known, w: World, st: State, n: nat)
    requires Ssa(p) && Justified(p, known) && Checked(ty, p.blocks, avail) && StartOk(ty, p.blocks, avail, st)
    requires Sharp(p, known) && forall v :: v in st.values ==> v.Param?
    ensures Correct(p, known, Run(p.blocks, w, Start(p.blocks, st), n))
  {
    hide Ssa, Justified, Sharp, Checked, Correct, Step, Good;
    HasLength(p.blocks, avail, ty);
    if n == 0 {
      StartCorrect(p, known, st);
    } else {
      KnownIsRight(ty, p, avail, known, w, st, n - 1);
      RunGood(ty, p.blocks, avail, w, st, n - 1);
      StepCorrect(ty, p, avail, known, w, Run(p.blocks, w, Start(p.blocks, st), n - 1));
    }
  }
}

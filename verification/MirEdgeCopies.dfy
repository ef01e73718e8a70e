/** Edges of the MIR in code: neither backend binds the parameters of a block at once. The bytecode backend
    (src/mir/vm_backend.cpp) stores the arguments one after the other, for both edges of a branch before its test; the native
    one (src/native/select.cpp) copies them in turn too, after a check. When that does what the edge means, exactly. */
module MirEdgeCopies {
  import opened Wrappers
  import opened MirEffects
  import opened MirExecution
  import opened MirRunLaws

  type Values = map<ValueId, Value>

  // ---------- storing in turn ----------

  /** One store: the current value of an operand into the local of a block parameter. */
  datatype Copy = Copy(param: nat, source: Operand)

  function Read(values: Values, o: Operand): Value {
    match o
    case Const(v) => v
    case Use(id, _) => if id in values then values[id] else Nil
  }

  function RunCopies(code: seq<Copy>, values: Values): Values {
    if code == [] then values
    else
      var before := RunCopies(code[..|code| - 1], values);
      var last := code[|code| - 1];
      before[BlockParam(last.param) := Read(before, last.source)]
  }

  function Copies(params: seq<nat>, args: seq<Operand>): (code: seq<Copy>)
    requires |args| == |params|
    ensures |code| == |params|
  {
    seq(|params|, i requires 0 <= i < |params| => Copy(params[i], args[i]))
  }

  /** `emitEdgeArguments` of the bytecode backend: nothing where there is no such edge, an error where the lengths differ. */
  method EmitEdgeArguments(p: Program, e: Edge) returns (code: Option<seq<Copy>>)
    ensures e.block < |p| && |e.args| != |p[e.block].params| && p[e.block].params != [] ==> code.None?
    ensures e.block < |p| && |e.args| == |p[e.block].params| ==> code == Some(Copies(p[e.block].params, e.args))
    ensures e.block >= |p| || p[e.block].params == [] ==> code == Some([])
  {
    if e.block >= |p| || p[e.block].params == [] { return Some([]); }
    var params := p[e.block].params;
    if |e.args| != |params| { return None; }
    var emitted := [];
    for i := 0 to |params|
      invariant emitted == Copies(params, e.args)[..i]
    {
      emitted := emitted + [Copy(params[i], e.args[i])];
    }
    assert Copies(params, e.args)[..|params|] == Copies(params, e.args);
    return Some(emitted);
  }

  /** `emitEdgeCopies` of the native backend: refused if an argument reads a parameter that an earlier copy has written. */
  method EmitEdgeCopies(params: seq<nat>, args: seq<Operand>) returns (code: Option<seq<Copy>>)
    ensures |args| != |params| ==> code.None?
    ensures |args| == |params| ==> (code.Some? <==> NothingOverwritten(params, args))
    ensures code.Some? ==> |args| == |params| && code.value == Copies(params, args)
  {
    if |args| != |params| { return None; }
    for i := 0 to |params|
      invariant forall a, b :: 0 <= a < i && a < b < |args| ==> !Reads(args[b], params[a])
    {
      for j := i + 1 to |args|
        invariant forall a, b :: 0 <= a < i && a < b < |args| ==> !Reads(args[b], params[a])
        invariant forall b :: i < b < j ==> !Reads(args[b], params[i])
      {
        if Reads(args[j], params[i]) { return None; }
      }
    }
    var emitted := [];
    for i := 0 to |params|
      invariant emitted == Copies(params, args)[..i]
    {
      emitted := emitted + [Copy(params[i], args[i])];
    }
    assert Copies(params, args)[..|params|] == Copies(params, args);
    return Some(emitted);
  }

  predicate Reads(o: Operand, param: nat) { o.Use? && o.id == BlockParam(param) }

  ghost predicate NothingOverwritten(params: seq<nat>, args: seq<Operand>)
    requires |args| == |params|
  {
    forall i, j :: 0 <= i < j < |args| ==> !Reads(args[j], params[i])
  }

  // ---------- when the order does not matter ----------

  /** An argument that reads an earlier parameter may do so only if that parameter is passed to itself. */
  ghost predicate InOrder(params: seq<nat>, args: seq<Operand>)
    requires |args| == |params|
  {
    forall i, j :: 0 <= i < j < |args| && Reads(args[j], params[i]) ==> Reads(args[i], params[i])
  }

  function ReadAll(values: Values, args: seq<Operand>): (vs: seq<Value>)
    ensures |vs| == |args|
  {
    seq(|args|, k requires 0 <= k < |args| => Read(values, args[k]))
  }

  /** What the edge means: all arguments are read before any parameter is bound. */
  function AtOnce(params: seq<nat>, args: seq<Operand>, values: Values): Values {
    Bind(params, ReadAll(values, args), values)
  }

  lemma {:induction false} CopiesOthers(params: seq<nat>, args: seq<Operand>, values: Values, id: ValueId)
    requires |args| == |params| && forall k :: 0 <= k < |params| ==> id != BlockParam(params[k])
    ensures var after := RunCopies(Copies(params, args), values);
            (id in after <==> id in values) && (id in values ==> after[id] == values[id])
    decreases |params|
  {
    if params != [] {
      var n := |params| - 1;
      Front(params, args);
      CopiesOthers(params[..n], args[..n], values, id);
      assert id != BlockParam(params[n]);
    }
  }

  lemma {:induction false} Front(params: seq<nat>, args: seq<Operand>)
    requires |args| == |params| && params != []
    ensures var n := |params| - 1; Copies(params, args)[..n] == Copies(params[..n], args[..n]) && Copies(params, args)[n] == Copy(params[n], args[n])
  {
  }

  lemma {:induction false} FrontDistinct(params: seq<nat>, n: nat)
    requires Distinct(params) && n <= |params|
    ensures Distinct(params[..n])
  {
  }

  /** As long as the order is right, every parameter holds what its argument was at the start. */
  lemma {:induction false} CopiedAt(params: seq<nat>, args: seq<Operand>, values: Values, k: nat)
    requires |args| == |params| && Distinct(params) && InOrder(params, args) && k < |params|
    ensures BlockParam(params[k]) in RunCopies(Copies(params, args), values)
    ensures RunCopies(Copies(params, args), values)[BlockParam(params[k])] == Read(values, args[k])
    decreases |params|
  {
    hide RunCopies;
    var n := |params| - 1;
    Front(params, args);
    FrontDistinct(params, n);
    assert InOrder(params[..n], args[..n]);
    LastCopy(params, args, values);
    if k < n {
      CopiedAt(params[..n], args[..n], values, k);
    } else {
      ReadBefore(params, args, values, n);
    }
  }

  lemma {:induction false} LastCopy(params: seq<nat>, args: seq<Operand>, values: Values)
    requires |args| == |params| && params != []
    ensures var n := |params| - 1;
            var before := RunCopies(Copies(params[..n], args[..n]), values);
            RunCopies(Copies(params, args), values) == before[BlockParam(params[n]) := Read(before, args[n])]
  {
    Front(params, args);
  }

  /** An operand that reads no overwritten parameter is read as at the start. */
  lemma {:induction false} ReadBefore(params: seq<nat>, args: seq<Operand>, values: Values, n: nat)
    requires |args| == |params| && Distinct(params) && InOrder(params, args) && n < |params|
    ensures Read(RunCopies(Copies(params[..n], args[..n]), values), args[n]) == Read(values, args[n])
    decreases |params|, 0
  {
    hide RunCopies;
    FrontDistinct(params, n);
    assert InOrder(params[..n], args[..n]);
    if i :| 0 <= i < n && Reads(args[n], params[i]) {
      CopiedAt(params[..n], args[..n], values, i);
      assert Reads(args[i], params[i]);
    } else if args[n].Use? {
      CopiesOthers(params[..n], args[..n], values, args[n].id);
    }
  }

  lemma {:induction false} SameValues(a: Values, b: Values)
    requires forall id :: (id in a <==> id in b) && (id in a ==> a[id] == b[id])
    ensures a == b
  {
  }

  /** In the right order storing in turn is binding at once. */
  lemma {:induction false} InOrderIsAtOnce(params: seq<nat>, args: seq<Operand>, values: Values)
    requires |args| == |params| && Distinct(params) && InOrder(params, args)
    ensures RunCopies(Copies(params, args), values) == AtOnce(params, args, values)
  {
    hide RunCopies, Bind, InOrder;
    var a, b := RunCopies(Copies(params, args), values), AtOnce(params, args, values);
    forall id ensures (id in a <==> id in b) && (id in a ==> a[id] == b[id]) {
      if k :| 0 <= k < |params| && id == BlockParam(params[k]) {
        CopiedAt(params, args, values, k);
        BindAt(params, ReadAll(values, args), values, k);
      } else {
        CopiesOthers(params, args, values, id);
        BindOthers(params, ReadAll(values, args), values, id);
      }
    }
    SameValues(a, b);
  }

  // ---------- when it goes wrong ----------

  /** All values are `y` but that of one parameter. */
  function Spread(ids: set<ValueId>, param: nat, x: Value, y: Value): Values {
    map id | id in ids + {BlockParam(param)} :: if id == BlockParam(param) then x else y
  }

  /** `x` tells the parameter from the operand: it is no constant `x`. */
  predicate Tells(o: Operand, x: Value) { o.Const? ==> o.v != x }

  lemma {:induction false} ReadSpread(ids: set<ValueId>, param: nat, x: Value, y: Value, o: Operand)
    requires x != y && Tells(o, x) && (o.Use? ==> o.id in ids)
    ensures Read(Spread(ids, param, x, y), o) == x <==> Reads(o, param)
  {
  }

  /** The first argument that comes too late gets the new value of the parameter it reads. */
  lemma {:induction false} TooLate(params: seq<nat>, args: seq<Operand>, values: Values, i: nat, j: nat)
    requires |args| == |params| && Distinct(params) && i < j < |params| && Reads(args[j], params[i])
    requires InOrder(params[..j], args[..j])
    ensures BlockParam(params[j]) in RunCopies(Copies(params, args), values)
    ensures RunCopies(Copies(params, args), values)[BlockParam(params[j])] == Read(values, args[i])
    decreases |params|
  {
    hide RunCopies;
    var n := |params| - 1;
    FrontDistinct(params, n);
    LastCopy(params, args, values);
    if j < n {
      assert params[..n][..j] == params[..j] && args[..n][..j] == args[..j];
      TooLate(params[..n], args[..n], values, i, j);
    } else {
      CopiedAt(params[..n], args[..n], values, i);
    }
  }

  lemma {:induction false} LateIn(params: seq<nat>, args: seq<Operand>, n: nat, a: nat, b: nat)
    requires |args| == |params| && n <= |params| && a < b < n && Reads(args[b], params[a]) && !Reads(args[a], params[a])
    ensures !InOrder(params[..n], args[..n])
  {
    var ps, xs := params[..n], args[..n];
    assert Reads(xs[b], ps[a]) && !Reads(xs[a], ps[a]);
  }

  lemma {:induction false} FirstLate(params: seq<nat>, args: seq<Operand>, n: nat) returns (i: nat, j: nat)
    requires |args| == |params| && n <= |params| && !InOrder(params[..n], args[..n])
    ensures i < j < n && Reads(args[j], params[i]) && !Reads(args[i], params[i]) && InOrder(params[..j], args[..j])
    decreases n
  {
    if InOrder(params[..n - 1], args[..n - 1]) {
      j := n - 1;
      var a, b :| 0 <= a < b < n && Reads(args[..n][b], params[..n][a]) && !Reads(args[..n][a], params[..n][a]);
      if b < n - 1 {
        LateIn(params, args, n - 1, a, b);
        assert false;
      }
      i := a;
    } else {
      i, j := FirstLate(params, args, n - 1);
    }
  }

  /** Every value an argument reads is there. */
  ghost predicate Readable(args: seq<Operand>, values: Values) {
    forall k :: 0 <= k < |args| && args[k].Use? ==> args[k].id in values
  }

  ghost function IdsOf(args: seq<Operand>): set<ValueId> {
    set k | 0 <= k < |args| && args[k].Use? :: args[k].id
  }

  lemma {:induction false} IdHeld(args: seq<Operand>, k: nat)
    requires k < |args| && args[k].Use?
    ensures args[k].id in IdsOf(args)
  {
  }

  lemma {:induction false} WrongSomewhere(params: seq<nat>, args: seq<Operand>) returns (values: Values)
    requires |args| == |params| && Distinct(params) && !InOrder(params, args)
    ensures Readable(args, values) && RunCopies(Copies(params, args), values) != AtOnce(params, args, values)
  {
    hide RunCopies, Bind, InOrder, IdsOf;
    assert params[..|params|] == params && args[..|args|] == args;
    var i, j := FirstLate(params, args, |params|);
    var x := if args[i] == Const(Int(1)) then Int(2) else Int(1);
    values := Spread(IdsOf(args), params[i], x, Nil);
    forall k | 0 <= k < |args| && args[k].Use? ensures args[k].id in values { IdHeld(args, k); }
    TooLate(params, args, values, i, j);
    BindAt(params, ReadAll(values, args), values, j);
    if args[i].Use? { IdHeld(args, i); }
    ReadSpread(IdsOf(args), params[i], x, Nil, args[i]);
    assert Read(values, args[j]) == x;
  }

  /** Storing the arguments of an edge in turn binds its parameters as the edge means for all values, if and only if no argument reads
      an earlier parameter, except one that is passed to itself. */
  lemma {:induction false} InTurnExactly(params: seq<nat>, args: seq<Operand>)
    requires |args| == |params| && Distinct(params)
    ensures (forall values :: Readable(args, values) ==> RunCopies(Copies(params, args), values) == AtOnce(params, args, values))
            <==> InOrder(params, args)
  {
    hide RunCopies, InOrder, AtOnce;
    if InOrder(params, args) {
      forall values | Readable(args, values) ensures RunCopies(Copies(params, args), values) == AtOnce(params, args, values) {
        InOrderIsAtOnce(params, args, values);
      }
    } else {
      var values := WrongSomewhere(params, args);
    }
  }

  /** What the native backend accepts is right in every state; it refuses more than needed only where an argument reads a parameter
      that is passed to itself. */
  lemma {:induction false} NativeIsRight(params: seq<nat>, args: seq<Operand>, values: Values)
    requires |args| == |params| && Distinct(params)
    ensures NothingOverwritten(params, args) ==> RunCopies(Copies(params, args), values) == AtOnce(params, args, values)
    ensures NothingOverwritten(params, args) <==>
              InOrder(params, args) && forall i, j :: 0 <= i < j < |args| && Reads(args[i], params[i]) ==> !Reads(args[j], params[i])
  {
    hide RunCopies, AtOnce;
    if NothingOverwritten(params, args) { InOrderIsAtOnce(params, args, values); }
  }

  // ---------- terminators in bytecode ----------

  function EdgeCode(p: Program, e: Edge): seq<Copy> {
    if e.block < |p| && |e.args| == |p[e.block].params| then Copies(p[e.block].params, e.args) else []
  }

  function GoTo(p: Program, block: nat, st: State): Config {
    if block >= |p| then Stop(Lost, st) else At(block, p[block].instrs, st)
  }

  /** What the code of a jump or a branch does: a branch stores for both edges before it tests. Other terminators pass nothing. */
  function LeaveInTurn(p: Program, b: Block, st: State): Config {
    match b.term
    case Jump(e) => GoTo(p, e.block, st.(values := RunCopies(EdgeCode(p, e), st.values)))
    case Branch(cond, yes, no) =>
      var stored := st.(values := RunCopies(EdgeCode(p, yes) + EdgeCode(p, no), st.values));
      GoTo(p, if Truthy(ValueOf(stored, cond)) then yes.block else no.block, stored)
    case _ => Leave(p, b, st)
  }

  ghost predicate EdgeFits(p: Program, e: Edge) {
    e.block < |p| && |e.args| == |p[e.block].params|
  }

  lemma {:induction false} SameRead(st: State, args: seq<Operand>)
    ensures ValuesOf(st, args) == ReadAll(st.values, args)
  {
  }

  lemma {:induction false} EntersAtOnce(p: Program, e: Edge, st: State)
    requires EdgeFits(p, e)
    ensures Enter(p, e, st) == At(e.block, p[e.block].instrs, st.(values := AtOnce(p[e.block].params, e.args, st.values)))
  {
    SameRead(st, e.args);
  }

  /** The code of a jump does what the jump means in every state, if and only if its arguments are in order. */
  lemma {:induction false} JumpExactly(p: Program, b: Block)
    requires b.term.Jump? && EdgeFits(p, b.term.edge) && Distinct(p[b.term.edge.block].params)
    ensures (forall st: State :: Readable(b.term.edge.args, st.values) ==> LeaveInTurn(p, b, st) == Leave(p, b, st))
            <==> InOrder(p[b.term.edge.block].params, b.term.edge.args)
  {
    hide RunCopies, InOrder, AtOnce, Enter;
    var e := b.term.edge;
    var params := p[e.block].params;
    if InOrder(params, e.args) {
      forall st: State | Readable(e.args, st.values) ensures LeaveInTurn(p, b, st) == Leave(p, b, st) {
        EntersAtOnce(p, e, st);
        InOrderIsAtOnce(params, e.args, st.values);
      }
    } else {
      var values := WrongSomewhere(params, e.args);
      var st := State(values, map[], [], []);
      EntersAtOnce(p, e, st);
      assert LeaveInTurn(p, b, st) != Leave(p, b, st);
    }
  }

  /** Every argument is the parameter it is passed to. */
  ghost predicate PassesItself(params: seq<nat>, args: seq<Operand>)
    requires |args| == |params|
  {
    forall k :: 0 <= k < |args| ==> Reads(args[k], params[k])
  }

  lemma {:induction false} ItselfStays(params: seq<nat>, args: seq<Operand>, values: Values)
    requires |args| == |params| && Distinct(params) && PassesItself(params, args) && Readable(args, values)
    ensures RunCopies(Copies(params, args), values) == values
    decreases |params|
  {
    if params != [] {
      var n := |params| - 1;
      FrontDistinct(params, n);
      Front(params, args);
      ItselfStays(params[..n], args[..n], values);
      assert Reads(args[n], params[n]);
      assert values[BlockParam(params[n]) := values[BlockParam(params[n])]] == values;
    }
  }

  lemma {:induction false} ItselfAtOnce(params: seq<nat>, args: seq<Operand>, values: Values)
    requires |args| == |params| && Distinct(params) && PassesItself(params, args) && Readable(args, values)
    ensures AtOnce(params, args, values) == values
  {
    hide RunCopies, AtOnce;
    assert InOrder(params, args);
    InOrderIsAtOnce(params, args, values);
    ItselfStays(params, args, values);
  }

  /** The first argument that is not its own parameter changes that parameter. */
  lemma {:induction false} FirstChange(params: seq<nat>, args: seq<Operand>) returns (k: nat)
    requires |args| == |params| && !PassesItself(params, args)
    ensures k < |args| && !Reads(args[k], params[k]) && forall j :: 0 <= j < k ==> Reads(args[j], params[j])
  {
    k :| 0 <= k < |args| && !Reads(args[k], params[k]);
    k := Earliest(params, args, k);
  }

  lemma {:induction false} Earliest(params: seq<nat>, args: seq<Operand>, n: nat) returns (k: nat)
    requires |args| == |params| && n < |args| && !Reads(args[n], params[n])
    ensures k < |args| && !Reads(args[k], params[k]) && forall j :: 0 <= j < k ==> Reads(args[j], params[j])
    decreases n
  {
    k := n;
    if m: nat :| m < n && !Reads(args[m], params[m]) { k := Earliest(params, args, m); }
  }

  lemma {:induction false} Changes(params: seq<nat>, args: seq<Operand>, values: Values, k: nat)
    requires |args| == |params| && Distinct(params) && k < |args| && forall j :: 0 <= j < k ==> Reads(args[j], params[j])
    requires Readable(args, values)
    ensures BlockParam(params[k]) in RunCopies(Copies(params, args), values)
    ensures RunCopies(Copies(params, args), values)[BlockParam(params[k])] == Read(values, args[k])
    decreases |params|
  {
    hide RunCopies;
    var n := |params| - 1;
    FrontDistinct(params, n);
    LastCopy(params, args, values);
    if k < n {
      Changes(params[..n], args[..n], values, k);
    } else {
      assert PassesItself(params[..n], args[..n]);
      ItselfStays(params[..n], args[..n], values);
    }
  }

  lemma {:induction false} CodeConcat(p: Program, yes: Edge, no: Edge)
    requires EdgeFits(p, yes) && EdgeFits(p, no)
    ensures |yes.args + no.args| == |p[yes.block].params + p[no.block].params|
    ensures EdgeCode(p, yes) + EdgeCode(p, no) == Copies(p[yes.block].params + p[no.block].params, yes.args + no.args)
  {
  }

  /** A state in which the branch goes to the other edge and the parameter is told from its argument. */
  lemma {:induction false} BranchWrong(p: Program, b: Block, k: nat) returns (st: State)
    requires b.term.Branch? && b.term.cond.Use? && EdgeFits(p, b.term.yes) && EdgeFits(p, b.term.no)
    requires var params, args := p[b.term.yes.block].params + p[b.term.no.block].params, b.term.yes.args + b.term.no.args;
             Distinct(params) && k < |args| && !Reads(args[k], params[k]) && forall j :: 0 <= j < k ==> Reads(args[j], params[j])
    ensures Readable(b.term.yes.args + b.term.no.args + [b.term.cond], st.values)
    ensures LeaveInTurn(p, b, st) != Leave(p, b, st)
  {
    hide RunCopies, AtOnce, Enter, IdsOf, Copies, EdgeCode;
    var yes, no := b.term.yes, b.term.no;
    var params, args := p[yes.block].params + p[no.block].params, yes.args + no.args;
    var all := args + [b.term.cond];
    var first := k < |yes.args|;
    var x := if first then (if args[k] == Const(Nil) then Bool(false) else Nil) else (if args[k] == Const(Int(1)) then Int(2) else Int(1));
    var y := if first then Int(0) else Int(3);
    st := State(Spread(IdsOf(all), params[k], x, y), map[], [], []);
    forall i | 0 <= i < |all| && all[i].Use? ensures all[i].id in st.values { IdHeld(all, i); }
    forall i | 0 <= i < |args| && args[i].Use? ensures args[i].id in st.values { assert all[i] == args[i]; }
    assert all[|args|] == b.term.cond;
    assert Truthy(ValueOf(st, b.term.cond)) == !first;
    CodeConcat(p, yes, no);
    Changes(params, args, st.values, k);
    if args[k].Use? { IdHeld(all, k); }
    ReadSpread(IdsOf(all), params[k], x, y, args[k]);
    OtherEdgeKeeps(p, yes, no, st, k);
  }

  /** Entering by one edge leaves the parameters of the other block alone. */
  lemma {:induction false} OtherEdgeKeeps(p: Program, yes: Edge, no: Edge, st: State, k: nat)
    requires EdgeFits(p, yes) && EdgeFits(p, no)
    requires var params := p[yes.block].params + p[no.block].params;
             Distinct(params) && k < |params| && BlockParam(params[k]) in st.values
    ensures var params := p[yes.block].params + p[no.block].params;
            var c := Enter(p, if k < |yes.args| then no else yes, st);
            c.At? && BlockParam(params[k]) in c.st.values && c.st.values[BlockParam(params[k])] == st.values[BlockParam(params[k])]
  {
    hide Bind;
    var params := p[yes.block].params + p[no.block].params;
    var e := if k < |yes.args| then no else yes;
    var own := p[e.block].params;
    forall i | 0 <= i < |own| ensures BlockParam(params[k]) != BlockParam(own[i]) {
      var at := if k < |yes.args| then |yes.args| + i else i;
      assert params[at] == own[i];
    }
    EntersAtOnce(p, e, st);
    BindOthers(own, ReadAll(st.values, e.args), st.values, BlockParam(params[k]));
  }

  /** The code of a branch on a computed value does what the branch means in every state, if and only if it passes every parameter
      of both its blocks to itself. Anything else overwrites parameters on the way to the other block. */
  lemma {:induction false} BranchExactly(p: Program, b: Block)
    requires b.term.Branch? && b.term.cond.Use? && EdgeFits(p, b.term.yes) && EdgeFits(p, b.term.no)
    requires Distinct(p[b.term.yes.block].params + p[b.term.no.block].params)
    ensures (forall st: State :: Readable(b.term.yes.args + b.term.no.args + [b.term.cond], st.values) ==> LeaveInTurn(p, b, st) == Leave(p, b, st))
            <==> PassesItself(p[b.term.yes.block].params, b.term.yes.args) && PassesItself(p[b.term.no.block].params, b.term.no.args)
  {
    hide RunCopies, AtOnce, Enter, Copies, EdgeCode, Distinct, LeaveInTurn, Leave;
    var yes, no := b.term.yes, b.term.no;
    var params, args := p[yes.block].params + p[no.block].params, yes.args + no.args;
    BothPass(p[yes.block].params, yes.args, p[no.block].params, no.args);
    if PassesItself(params, args) {
      forall st: State | Readable(args + [b.term.cond], st.values) ensures LeaveInTurn(p, b, st) == Leave(p, b, st) {
        BranchStays(p, b, st);
      }
    } else {
      var k := FirstChange(params, args);
      var st := BranchWrong(p, b, k);
    }
  }

  lemma {:induction false} BothPass(params: seq<nat>, args: seq<Operand>, more: seq<nat>, others: seq<Operand>)
    requires |args| == |params| && |others| == |more|
    ensures PassesItself(params + more, args + others) <==> PassesItself(params, args) && PassesItself(more, others)
  {
    var ps, xs := params + more, args + others;
    if PassesItself(ps, xs) {
      forall k | 0 <= k < |args| ensures Reads(args[k], params[k]) { assert Reads(xs[k], ps[k]); }
      forall k | 0 <= k < |others| ensures Reads(others[k], more[k]) { assert Reads(xs[|args| + k], ps[|args| + k]); }
    }
  }

  lemma {:induction false} BranchStays(p: Program, b: Block, st: State)
    requires b.term.Branch? && EdgeFits(p, b.term.yes) && EdgeFits(p, b.term.no)
    requires var params, args := p[b.term.yes.block].params + p[b.term.no.block].params, b.term.yes.args + b.term.no.args;
             Distinct(params) && PassesItself(params, args) && Readable(args + [b.term.cond], st.values)
    ensures LeaveInTurn(p, b, st) == Leave(p, b, st)
  {
    hide RunCopies, AtOnce, Enter, Copies, EdgeCode;
    var yes, no := b.term.yes, b.term.no;
    var params, args := p[yes.block].params + p[no.block].params, yes.args + no.args;
    var all := args + [b.term.cond];
    forall i | 0 <= i < |args| && args[i].Use? ensures args[i].id in st.values { assert all[i] == args[i]; }
    CodeConcat(p, yes, no);
    ItselfStays(params, args, st.values);
    assert st.(values := st.values) == st;
    BothPass(p[yes.block].params, yes.args, p[no.block].params, no.args);
    PartsReadable(yes.args, no.args, st.values);
    PartsDistinct(p[yes.block].params, p[no.block].params);
    EntersAtOnce(p, yes, st);
    EntersAtOnce(p, no, st);
    ItselfAtOnce(p[yes.block].params, yes.args, st.values);
    ItselfAtOnce(p[no.block].params, no.args, st.values);
  }

  lemma {:induction false} PartsReadable(a: seq<Operand>, b: seq<Operand>, values: Values)
    requires Readable(a + b, values)
    ensures Readable(a, values) && Readable(b, values)
  {
    var all := a + b;
    forall k | 0 <= k < |a| && a[k].Use? ensures a[k].id in values { assert all[k] == a[k]; }
    forall k | 0 <= k < |b| && b[k].Use? ensures b[k].id in values { assert all[|a| + k] == b[k]; }
  }

  lemma {:induction false} PartsDistinct(a: seq<nat>, b: seq<nat>)
    requires Distinct(a + b)
    ensures Distinct(a) && Distinct(b)
  {
    var all := a + b;
    forall i, j | 0 <= i < j < |b| ensures b[i] != b[j] { assert all[|a| + i] == b[i] && all[|a| + j] == b[j]; }
    forall i, j | 0 <= i < j < |a| ensures a[i] != a[j] { assert all[i] == a[i] && all[j] == a[j]; }
  }

  // ---------- two programs ----------

  /** A loop whose edge back exchanges its two parameters. */
  function Swapping(): Program {
    [Block([1, 2], [], Jump(Edge(0, [Use(BlockParam(2), IntType), Use(BlockParam(1), IntType)])), [])]
  }

  /** Stored in turn the exchange makes both parameters the second one. */
  lemma {:induction false} SwapIsLost(x: Value, y: Value)
    ensures var st := State(map[BlockParam(1) := x, BlockParam(2) := y], map[], [], []);
            && Leave(Swapping(), Swapping()[0], st).st.values == map[BlockParam(1) := y, BlockParam(2) := x]
            && LeaveInTurn(Swapping(), Swapping()[0], st).st.values == map[BlockParam(1) := y, BlockParam(2) := y]
  {
    var e := Swapping()[0].term.edge;
    var values: Values := map[BlockParam(1) := x, BlockParam(2) := y];
    EntersAtOnce(Swapping(), e, State(values, map[], [], []));
    assert ReadAll(values, e.args) == [y, x];
    assert Bind([1, 2], [y, x], values) == values[BlockParam(1) := y][BlockParam(2) := x] by { BindTwo(values, y, x); }
    var code := Copies([1, 2], e.args);
    assert code == [Copy(1, e.args[0]), Copy(2, e.args[1])];
    assert code[..1] == [Copy(1, e.args[0])] && code[..1][..0] == [];
    assert RunCopies(code[..1], values) == values[BlockParam(1) := y];
  }

  lemma {:induction false} BindTwo(values: Values, a: Value, b: Value)
    ensures Bind([1, 2], [a, b], values) == values[BlockParam(1) := a][BlockParam(2) := b]
  {
    assert [1, 2][1..] == [2] && [a, b][1..] == [b] && [2][1..] == [] && [b][1..] == [];
    assert Bind([2], [b], values[BlockParam(1) := a]) == values[BlockParam(1) := a][BlockParam(2) := b];
  }

  /** A loop that counts in a parameter and leaves with the number before the last step. */
  function Overwriting(): Program {
    [Block([1], [], Branch(Use(Temp(0), BoolType), Edge(0, [Use(Temp(1), IntType)]), Edge(1, [])), []),
     Block([], [], Return(Some(Use(BlockParam(1), IntType))), [])]
  }

  /** The branch out of the loop finds the parameter already overwritten for the edge back. */
  lemma {:induction false} OldValueIsLost(w: World, x: Value, y: Value)
    ensures var p := Overwriting();
            var st := State(map[BlockParam(1) := x, Temp(0) := Bool(false), Temp(1) := y], map[], [], []);
            && Leave(p, p[0], st).At? && LeaveInTurn(p, p[0], st).At?
            && Step(p, w, Leave(p, p[0], st)).Ended? && Step(p, w, Leave(p, p[0], st)).how == Returned(x)
            && Step(p, w, LeaveInTurn(p, p[0], st)).Ended? && Step(p, w, LeaveInTurn(p, p[0], st)).how == Returned(y)
  {
    var p := Overwriting();
    var values: Values := map[BlockParam(1) := x, Temp(0) := Bool(false), Temp(1) := y];
    var st := State(values, map[], [], []);
    var yes, no := p[0].term.yes, p[0].term.no;
    EntersAtOnce(p, no, st);
    assert Bind([], ReadAll(values, []), values) == values;
    var code := EdgeCode(p, yes) + EdgeCode(p, no);
    assert code == [Copy(1, Use(Temp(1), IntType))] && code[..0] == [];
    assert RunCopies(code, values) == values[BlockParam(1) := y];
  }
}

/** What runs of the MIR do, told without the functions that define them: locals, results, edges with arguments, choices,
    handlers and ends. */
module MirRunLaws {
  import opened Wrappers
  import opened MirEffects
  import opened MirExecution

  /** Two states that differ at most in the values computed. */
  predicate SameMemory(a: State, b: State) { a.slots == b.slots && a.heap == b.heap && a.out == b.out }

  /** A load after a store gives what was stored if it is of that local, and otherwise what was there before; nothing but the local
      and the result changes. */
  lemma {:induction false} StoreThenLoad(w: World, x: string, y: string, o: Operand, t: nat, st: State)
    ensures var first := Execute(w, Instr(None, Store(x), [o]), st);
            && first.Done? && first.st.values == st.values && first.st.heap == st.heap && first.st.out == st.out
            && var second := Execute(w, Instr(Some(t), Load(y), []), first.st);
            && second.Done? && SameMemory(second.st, first.st)
            && Temp(t) in second.st.values && (forall id :: id != Temp(t) && id in st.values ==> id in second.st.values && second.st.values[id] == st.values[id])
            && (x == y ==> second.st.values[Temp(t)] == ValueOf(st, o))
            && (x != y && y in st.slots ==> second.st.values[Temp(t)] == st.slots[y])
            && (x != y && y !in st.slots ==> second.st.values[Temp(t)] == Nil)
  {
  }

  /** An operation that computes puts its value under its result, or raises and leaves everything as it was. */
  lemma {:induction false} ComputesOrRaises(w: World, ins: Instr, st: State)
    requires !ins.op.Load? && !ins.op.Store? && !ins.op.Effectful?
    ensures var vs := seq(|ins.operands|, k requires 0 <= k < |ins.operands| => ValueOf(st, ins.operands[k]));
            match Compute(ins.op, vs)
            case None => Execute(w, ins, st) == Raised(FAULT, st)
            case Some(v) =>
              && Execute(w, ins, st).Done? && SameMemory(Execute(w, ins, st).st, st)
              && (ins.result.None? ==> Execute(w, ins, st).st == st)
              && (ins.result.Some? ==> Execute(w, ins, st).st.values == st.values[Temp(ins.result.value) := v])
  {
    hide Compute;
    assert ValuesOf(st, ins.operands) == seq(|ins.operands|, k requires 0 <= k < |ins.operands| => ValueOf(st, ins.operands[k]));
  }

  /** An effectful operation sees its operands, then the local it reads, and the memory; its effects stay even if it raises, which it
      also does when its answer is not of the declared type. */
  lemma {:induction false} EffectsStay(w: World, name: string, ty: Type, x: string, y: string, o: Operand, t: nat, st: State)
    requires x in st.slots
    ensures var a := w(name, [ValueOf(st, o), st.slots[x]], st.heap, st.out);
            var did := Execute(w, Instr(Some(t), Effectful(name, ty, Some(x), Some(y)), [o]), st);
            && did.st.heap == a.heap && did.st.out == a.out
            && (did.Done? <==> a.value.Some? && HasType(a.value.value, ty))
            && (did.Done? ==> did.st.slots == st.slots[y := a.value.value] && did.st.values == st.values[Temp(t) := a.value.value])
            && (did.Raised? ==> did.error == a.error && did.st.slots == st.slots && did.st.values == st.values)
  {
    hide HasType;
    var vs := ValuesOf(st, [o]);
    assert vs + [st.slots[x]] == [ValueOf(st, o), st.slots[x]];
  }

  // ---------- edges ----------

  ghost predicate Distinct(params: seq<nat>) {
    forall i, j :: 0 <= i < j < |params| ==> params[i] != params[j]
  }

  lemma {:induction false} BindOthers(params: seq<nat>, vs: seq<Value>, values: map<ValueId, Value>, id: ValueId)
    requires forall k :: 0 <= k < |params| ==> id != BlockParam(params[k])
    ensures id in Bind(params, vs, values) <==> id in values
    ensures id in values ==> Bind(params, vs, values)[id] == values[id]
    decreases |params|
  {
    if params != [] && vs != [] {
      forall k | 0 <= k < |params[1..]| ensures id != BlockParam(params[1..][k]) { assert params[1..][k] == params[k + 1]; }
      assert id != BlockParam(params[0]);
      BindOthers(params[1..], vs[1..], values[BlockParam(params[0]) := vs[0]], id);
    }
  }

  lemma {:induction false} BindAt(params: seq<nat>, vs: seq<Value>, values: map<ValueId, Value>, k: nat)
    requires Distinct(params) && |vs| == |params| && k < |params|
    ensures BlockParam(params[k]) in Bind(params, vs, values) && Bind(params, vs, values)[BlockParam(params[k])] == vs[k]
    decreases |params|
  {
    var rest, more := params[1..], values[BlockParam(params[0]) := vs[0]];
    if k == 0 {
      forall j | 0 <= j < |rest| ensures BlockParam(params[0]) != BlockParam(rest[j]) { assert rest[j] == params[j + 1]; }
      BindOthers(rest, vs[1..], more, BlockParam(params[0]));
    } else {
      assert rest[k - 1] == params[k];
      BindAt(rest, vs[1..], more, k - 1);
    }
  }

  /** Following an edge binds every parameter to the argument in its place, all arguments read before any is bound, and changes
      nothing else. */
  lemma {:induction false} EdgeBinds(p: Program, e: Edge, st: State)
    requires e.block < |p| && |e.args| == |p[e.block].params| && Distinct(p[e.block].params)
    ensures var c := Enter(p, e, st);
            && c.At? && c.block == e.block && c.rest == p[e.block].instrs && SameMemory(c.st, st)
            && (forall k :: 0 <= k < |e.args| ==>
                  BlockParam(p[e.block].params[k]) in c.st.values && c.st.values[BlockParam(p[e.block].params[k])] == ValueOf(st, e.args[k]))
            && (forall id :: id in st.values && (forall k :: 0 <= k < |e.args| ==> id != BlockParam(p[e.block].params[k])) ==>
                  id in c.st.values && c.st.values[id] == st.values[id])
  {
    var params, vs := p[e.block].params, ValuesOf(st, e.args);
    var c := Enter(p, e, st);
    forall k | 0 <= k < |e.args| ensures BlockParam(params[k]) in c.st.values && c.st.values[BlockParam(params[k])] == ValueOf(st, e.args[k]) {
      BindAt(params, vs, st.values, k);
    }
    forall id | id in st.values && (forall k :: 0 <= k < |e.args| ==> id != BlockParam(params[k]))
      ensures id in c.st.values && c.st.values[id] == st.values[id]
    {
      BindOthers(params, vs, st.values, id);
    }
  }

  // ---------- choices ----------

  /** A switch takes the first case whose key equals the subject, and the default if there is none. */
  lemma {:induction false} SwitchTakes(v: Value, cases: seq<Case>, default: Edge, k: nat)
    requires k <= |cases| && forall j :: 0 <= j < k ==> Compute(Eq, [v, cases[j].key]) == Some(Bool(false))
    ensures k < |cases| && Compute(Eq, [v, cases[k].key]) == Some(Bool(true)) ==> Chosen(v, cases, default) == cases[k].edge
    ensures k == |cases| ==> Chosen(v, cases, default) == default
  {
    hide EqualValues;
    if cases != [] { EqIs(v, cases[0].key); }
    if k > 0 {
      assert Compute(Eq, [v, cases[0].key]) == Some(Bool(false));
      forall j | 0 <= j < k - 1 ensures Compute(Eq, [v, cases[1..][j].key]) == Some(Bool(false)) {
        assert cases[1..][j] == cases[j + 1];
      }
      SwitchTakes(v, cases[1..], default, k - 1);
    }
  }

  lemma {:induction false} EqIs(a: Value, b: Value)
    ensures Compute(Eq, [a, b]) == Some(Bool(EqualValues(a, b)))
  {
    var vs := [a, b];
    assert vs[0] == a && vs[1] == b;
  }

  /** How blocks are left: a branch goes by the truth of its condition, a return ends with its value and the memory as it is, and
      what is thrown is raised. */
  lemma {:induction false} LeaveLaw(p: Program, w: World, b: nat, st: State)
    requires b < |p|
    ensures var c, t := Step(p, w, At(b, [], st)), p[b].term;
            && (t.Jump? ==> c == Enter(p, t.edge, st))
            && (t.Branch? && Compute(Not, [ValueOf(st, t.cond)]) == Some(Bool(true)) ==> c == Enter(p, t.no, st))
            && (t.Branch? && Compute(Not, [ValueOf(st, t.cond)]) == Some(Bool(false)) ==> c == Enter(p, t.yes, st))
            && (t.Return? && t.value.Some? ==> c.Ended? && c.how == Returned(ValueOf(st, t.value.value)))
            && (t.Return? && t.value.None? ==> c.Ended? && c.how == Returned(Nil))
            && (t.Return? ==> c.slots == st.slots && c.heap == st.heap && c.out == st.out)
            && (t.Throw? ==> c == Raise(p, p[b].handlers, ValueOf(st, t.thrown), st))
            && (t.Switch? ==> c == Enter(p, Chosen(ValueOf(st, t.subject), t.cases, t.default), st))
  {
    hide Enter, Raise, Chosen, Truthy;
  }

  // ---------- handlers ----------

  /** An error goes to the first handler that admits it, which finds it in its local; the values computed, the memory and the other
      locals are those at the raise. Without such a handler it ends the run. */
  lemma {:induction false} HandlerTakes(p: Program, hs: seq<Handler>, error: Value, st: State, k: nat)
    requires k <= |hs| && forall j :: 0 <= j < k ==> !HasType(error, hs[j].catchType)
    ensures k < |hs| && HasType(error, hs[k].catchType) && hs[k].block < |p| ==>
              Raise(p, hs, error, st) == At(hs[k].block, p[hs[k].block].instrs, State(st.values, st.slots[hs[k].slot := error], st.heap, st.out))
    ensures k == |hs| ==> Raise(p, hs, error, st) == Ended(Escaped(error), st.slots, st.heap, st.out)
    decreases |hs|
  {
    hide HasType;
    if k > 0 {
      forall j | 0 <= j < k - 1 ensures !HasType(error, hs[1..][j].catchType) { assert hs[1..][j] == hs[j + 1]; }
      HandlerTakes(p, hs[1..], error, st, k - 1);
    }
  }

  /** A step that raises goes to the handlers of its own block, with the state the operation left; any other goes on to the next
      instruction. */
  lemma {:induction false} StepLaw(p: Program, w: World, b: nat, ins: Instr, rest: seq<Instr>, st: State)
    requires b < |p|
    ensures var c, did := Step(p, w, At(b, [ins] + rest, st)), Execute(w, ins, st);
            && (did.Raised? ==> c == Raise(p, p[b].handlers, did.error, did.st))
            && (did.Done? ==> c == At(b, rest, did.st))
  {
    hide Execute, Raise;
    assert ([ins] + rest)[1..] == rest;
  }
}

/** Choosing an overload (src/compiler/overload_resolver.cpp): exact matches first, then the most specific of the
    applicable candidates. */
module OverloadResolution {

  /** The kinds of static type that matter here; `Other` stands for the remaining ones, which carry no class identity. */
  datatype Type = Object | ListType | MapType | SetType | ArrayType | UnionType | TaskType | Other(name: string)

  datatype Param = Param(ty: Type, cls: string)

  datatype Candidate = Candidate(owner: string, params: seq<Param>)

  /** `isAssignable(from, to)`. */
  type Assignable = (Param, Param) -> bool

  // ---------- matching one candidate ----------

  predicate ExactParam(a: Param, p: Param) {
    a.ty == p.ty && (a.cls == "" || p.cls == "" || a.ty.Other? || a.cls == p.cls)
  }

  predicate Exact(args: seq<Param>, c: Candidate) {
    |c.params| == |args| && forall i :: 0 <= i < |args| ==> ExactParam(args[i], c.params[i])
  }

  predicate Applicable(ok: Assignable, args: seq<Param>, c: Candidate) {
    |c.params| == |args| && forall i :: 0 <= i < |args| ==> ok(args[i], c.params[i])
  }

  predicate Named(p: Param) { p.ty == Object && p.cls != "" }

  /** In this parameter `o` is at least as specific as `c`: named classes by assignability, anything else by type. */
  predicate AtLeastParam(ok: Assignable, o: Param, c: Param) {
    if Named(o) && Named(c) then ok(o, c) else o.ty == c.ty
  }

  predicate AtLeast(ok: Assignable, o: Candidate, c: Candidate) {
    |o.params| == |c.params| && forall i :: 0 <= i < |c.params| ==> AtLeastParam(ok, o.params[i], c.params[i])
  }

  predicate Differs(o: Candidate, c: Candidate) {
    exists i :: 0 <= i < |c.params| && i < |o.params| && Named(o.params[i]) && Named(c.params[i]) && o.params[i].cls != c.params[i].cls
  }

  /** `o` is at least as specific as `c` everywhere and strictly more specific somewhere. */
  predicate Dominates(ok: Assignable, o: Candidate, c: Candidate) {
    AtLeast(ok, o, c) && Differs(o, c)
  }

  // ---------- the verdict, without any order ----------

  datatype Verdict = Chosen(index: nat) | Ambiguous | NoMatch

  predicate IsExact(cs: seq<Candidate>, args: seq<Param>, k: int) {
    0 <= k < |cs| && Exact(args, cs[k])
  }

  predicate IsApplicable(ok: Assignable, cs: seq<Candidate>, args: seq<Param>, k: int) {
    0 <= k < |cs| && Applicable(ok, args, cs[k])
  }

  /** Applicable, and no other applicable candidate dominates it. */
  ghost predicate IsMaximal(ok: Assignable, cs: seq<Candidate>, args: seq<Param>, k: int) {
    IsApplicable(ok, cs, args, k) && forall j :: IsApplicable(ok, cs, args, j) && j != k ==> !Dominates(ok, cs[j], cs[k])
  }

  ghost predicate NoExact(cs: seq<Candidate>, args: seq<Param>) {
    forall k :: !IsExact(cs, args, k)
  }

  ghost predicate NoApplicable(ok: Assignable, cs: seq<Candidate>, args: seq<Param>) {
    forall k :: !IsApplicable(ok, cs, args, k)
  }

  /** The only exact candidate, or without exact ones the only maximal candidate. */
  ghost predicate IsChoice(ok: Assignable, cs: seq<Candidate>, args: seq<Param>, k: int) {
    || (IsExact(cs, args, k) && forall j :: IsExact(cs, args, j) ==> j == k)
    || (NoExact(cs, args) && IsMaximal(ok, cs, args, k) && forall j :: IsMaximal(ok, cs, args, j) ==> j == k)
  }

  ghost predicate Decides(ok: Assignable, cs: seq<Candidate>, args: seq<Param>, v: Verdict) {
    match v
    case Chosen(k) => IsChoice(ok, cs, args, k)
    case NoMatch => NoExact(cs, args) && NoApplicable(ok, cs, args)
    case Ambiguous => (forall k :: !IsChoice(ok, cs, args, k)) && !(NoExact(cs, args) && NoApplicable(ok, cs, args))
  }

  // ---------- resolve ----------

  method MatchingIndices(cs: seq<Candidate>, want: Candidate -> bool) returns (r: seq<nat>)
    ensures forall k :: k in r <==> 0 <= k < |cs| && want(cs[k])
    ensures forall i, j :: 0 <= i < j < |r| ==> r[i] < r[j]
  {
    r := [];
    for k := 0 to |cs|
      invariant forall m :: m in r <==> 0 <= m < k && want(cs[m])
      invariant forall i, j :: 0 <= i < j < |r| ==> r[i] < r[j]
    {
      if want(cs[k]) {
        assert forall i :: 0 <= i < |r| ==> r[i] in r;
        r := r + [k];
      }
    }
  }

  method IsDominated(ok: Assignable, cs: seq<Candidate>, args: seq<Param>, wide: seq<nat>, candidate: nat) returns (dominated: bool)
    requires (forall k :: k in wide <==> IsApplicable(ok, cs, args, k)) && candidate in wide
    ensures !dominated <==> IsMaximal(ok, cs, args, candidate)
  {
    hide Dominates, Applicable;
    for b := 0 to |wide|
      invariant forall i :: 0 <= i < b && wide[i] != candidate ==> wide[i] < |cs| && !Dominates(ok, cs[wide[i]], cs[candidate])
    {
      var other := wide[b];
      assert other in wide;
      if other != candidate && Dominates(ok, cs[other], cs[candidate]) { return true; }
    }
    return false;
  }

  method MaximalIndices(ok: Assignable, cs: seq<Candidate>, args: seq<Param>, wide: seq<nat>) returns (r: seq<nat>)
    requires forall k :: k in wide <==> IsApplicable(ok, cs, args, k)
    requires forall i, j :: 0 <= i < j < |wide| ==> wide[i] < wide[j]
    ensures forall k :: k in r <==> IsMaximal(ok, cs, args, k)
    ensures forall i, j :: 0 <= i < j < |r| ==> r[i] < r[j]
  {
    hide Dominates, Applicable;
    r := [];
    for a := 0 to |wide|
      invariant forall k :: k in r <==> IsMaximal(ok, cs, args, k) && k in wide[..a]
      invariant forall i, j :: 0 <= i < j < |r| ==> r[i] < r[j]
    {
      var candidate := wide[a];
      assert candidate in wide;
      var dominated := IsDominated(ok, cs, args, wide, candidate);
      assert wide[..a + 1] == wide[..a] + [candidate];
      if !dominated {
        forall i | 0 <= i < |r| ensures r[i] < candidate {
          assert r[i] in r && r[i] in wide[..a];
          var b :| 0 <= b < |wide[..a]| && wide[..a][b] == r[i];
          assert wide[b] < wide[a];
        }
        r := r + [candidate];
      }
    }
    assert wide[..|wide|] == wide;
  }

  lemma {:induction false} OnlyOne(r: seq<nat>, k: nat)
    requires r == [k]
    ensures forall j :: j in r <==> j == k
  {
  }

  lemma {:induction false} TwoOfThem(r: seq<nat>, k: nat)
    requires |r| >= 2 && forall i, j :: 0 <= i < j < |r| ==> r[i] < r[j]
    ensures exists j :: j in r && j != k
  {
    assert r[0] in r && r[1] in r && r[0] < r[1];
  }

  /** `resolve`. The verdict is the one the candidates determine, in whatever order they are listed. */
  method Resolve(ok: Assignable, cs: seq<Candidate>, args: seq<Param>) returns (v: Verdict)
    ensures Decides(ok, cs, args, v)
  {
    hide Exact, Applicable, Dominates, IsMaximal;
    var exact := MatchingIndices(cs, c => Exact(args, c));
    assert forall k :: k in exact <==> IsExact(cs, args, k);
    if |exact| == 1 {
      assert exact[0] in exact;
      OnlyOne(exact, exact[0]);
      return Chosen(exact[0]);
    }
    if |exact| > 1 {
      assert exact[0] in exact;
      forall k ensures !IsChoice(ok, cs, args, k) { if IsExact(cs, args, k) { TwoOfThem(exact, k); } }
      return Ambiguous;
    }
    assert NoExact(cs, args);
    var wide := MatchingIndices(cs, c => Applicable(ok, args, c));
    assert forall k :: k in wide <==> IsApplicable(ok, cs, args, k);
    if |wide| == 0 { return NoMatch; }
    assert wide[0] in wide;
    var maximal := MaximalIndices(ok, cs, args, wide);
    if |maximal| == 1 {
      assert maximal[0] in maximal;
      OnlyOne(maximal, maximal[0]);
      return Chosen(maximal[0]);
    }
    forall k ensures !IsChoice(ok, cs, args, k) {
      if k in maximal { TwoOfThem(maximal, k); }
    }
    return Ambiguous;
  }

  // ---------- the verdict is determined, and free of order ----------

  lemma {:induction false} ChoiceIsUnique(ok: Assignable, cs: seq<Candidate>, args: seq<Param>, j: int, k: int)
    requires IsChoice(ok, cs, args, j) && IsChoice(ok, cs, args, k)
    ensures j == k
  {
    hide Exact, IsMaximal;
  }

  /** `ds` lists the candidates of `cs` in another order: `ds[i]` is `cs[f[i]]`. */
  ghost predicate Reordered(cs: seq<Candidate>, ds: seq<Candidate>, f: seq<nat>) {
    && |f| == |ds| == |cs|
    && (forall i :: 0 <= i < |ds| ==> f[i] < |cs| && ds[i] == cs[f[i]])
    && (forall i, j :: 0 <= i < j < |f| ==> f[i] != f[j])
    && (forall k :: 0 <= k < |cs| ==> k in f)
  }

  lemma {:induction false} Place(cs: seq<Candidate>, ds: seq<Candidate>, f: seq<nat>, k: nat) returns (j: nat)
    requires Reordered(cs, ds, f) && k < |cs|
    ensures j < |f| && f[j] == k && ds[j] == cs[k]
  {
    assert k in f;
    j :| 0 <= j < |f| && f[j] == k;
  }

  lemma {:induction false} MaximalReordered(ok: Assignable, cs: seq<Candidate>, ds: seq<Candidate>, f: seq<nat>, args: seq<Param>, i: nat)
    requires Reordered(cs, ds, f) && i < |ds|
    ensures IsMaximal(ok, ds, args, i) <==> IsMaximal(ok, cs, args, f[i])
  {
    hide Applicable, Dominates;
    if IsMaximal(ok, ds, args, i) {
      forall k | IsApplicable(ok, cs, args, k) && k != f[i] ensures !Dominates(ok, cs[k], cs[f[i]]) {
        var j := Place(cs, ds, f, k);
        assert IsApplicable(ok, ds, args, j);
      }
    }
    if IsMaximal(ok, cs, args, f[i]) {
      forall j | IsApplicable(ok, ds, args, j) && j != i ensures !Dominates(ok, ds[j], ds[i]) {
        assert IsApplicable(ok, cs, args, f[j]);
      }
    }
  }

  lemma {:induction false} NoneReordered(ok: Assignable, cs: seq<Candidate>, ds: seq<Candidate>, f: seq<nat>, args: seq<Param>)
    requires Reordered(cs, ds, f)
    ensures NoExact(cs, args) <==> NoExact(ds, args)
    ensures NoApplicable(ok, cs, args) <==> NoApplicable(ok, ds, args)
  {
    hide Exact, Applicable;
    forall k | IsExact(cs, args, k) ensures !NoExact(ds, args) { var j := Place(cs, ds, f, k); assert IsExact(ds, args, j); }
    forall k | IsApplicable(ok, cs, args, k) ensures !NoApplicable(ok, ds, args) {
      var j := Place(cs, ds, f, k);
      assert IsApplicable(ok, ds, args, j);
    }
    forall j | IsExact(ds, args, j) ensures !NoExact(cs, args) { assert IsExact(cs, args, f[j]); }
    forall j | IsApplicable(ok, ds, args, j) ensures !NoApplicable(ok, cs, args) { assert IsApplicable(ok, cs, args, f[j]); }
  }

  /** The same candidate is chosen, whatever the order of the candidates. */
  lemma {:induction false} ChoiceReordered(ok: Assignable, cs: seq<Candidate>, ds: seq<Candidate>, f: seq<nat>, args: seq<Param>, i: nat)
    requires Reordered(cs, ds, f) && i < |ds|
    ensures IsChoice(ok, ds, args, i) <==> IsChoice(ok, cs, args, f[i])
  {
    hide Exact, IsMaximal, NoExact;
    NoneReordered(ok, cs, ds, f, args);
    forall j | 0 <= j < |ds| ensures IsMaximal(ok, ds, args, j) <==> IsMaximal(ok, cs, args, f[j]) {
      MaximalReordered(ok, cs, ds, f, args, j);
    }
    if IsChoice(ok, ds, args, i) {
      forall k | IsExact(cs, args, k) ensures (exists j :: 0 <= j < |f| && f[j] == k && IsExact(ds, args, j)) {
        var j := Place(cs, ds, f, k);
      }
      MaximalBack(ok, cs, ds, f, args);
    } else if IsChoice(ok, cs, args, f[i]) {
      assert forall j :: IsExact(ds, args, j) ==> IsExact(cs, args, f[j]);
      MaximalForth(ok, cs, ds, f, args);
    }
  }

  /** The whole verdict is free of order: an ambiguous call stays ambiguous, a call without a match stays without one, and
      a choice stays the choice of the same candidate. */
  lemma {:induction false} VerdictReordered(ok: Assignable, cs: seq<Candidate>, ds: seq<Candidate>, f: seq<nat>, args: seq<Param>,
                                            v: Verdict, w: Verdict)
    requires Reordered(cs, ds, f) && Decides(ok, cs, args, v) && Decides(ok, ds, args, w)
    ensures w.Ambiguous? <==> v.Ambiguous?
    ensures w.NoMatch? <==> v.NoMatch?
    ensures w.Chosen? ==> w.index < |f| && v == Chosen(f[w.index])
  {
    hide NoExact, NoApplicable, IsChoice, Reordered;
    NoneReordered(ok, cs, ds, f, args);
    match w
    case Chosen(i) =>
      ChoiceInside(ok, ds, args, i);
      Indices(cs, ds, f);
      ChoiceReordered(ok, cs, ds, f, args, i);
      OneVerdict(ok, cs, args, v, Chosen(f[i]));
    case NoMatch =>
      OneVerdict(ok, cs, args, v, NoMatch);
    case Ambiguous =>
      if v.Chosen? {
        ChoiceInside(ok, cs, args, v.index);
        var j := Place(cs, ds, f, v.index);
        Indices(cs, ds, f);
        ChoiceReordered(ok, cs, ds, f, args, j);
        assert false;
      }
  }

  lemma {:induction false} Indices(cs: seq<Candidate>, ds: seq<Candidate>, f: seq<nat>)
    requires Reordered(cs, ds, f)
    ensures |f| == |ds| == |cs|
  {
  }

  lemma {:induction false} ChoiceInside(ok: Assignable, cs: seq<Candidate>, args: seq<Param>, k: int)
    requires IsChoice(ok, cs, args, k)
    ensures 0 <= k < |cs|
  {
  }

  /** The candidates determine the verdict. */
  lemma {:induction false} OneVerdict(ok: Assignable, cs: seq<Candidate>, args: seq<Param>, v: Verdict, w: Verdict)
    requires Decides(ok, cs, args, v) && Decides(ok, cs, args, w)
    ensures v == w
  {
    hide Exact, Applicable, Dominates;
    if v.Chosen? && w.Chosen? { ChoiceIsUnique(ok, cs, args, v.index, w.index); }
  }

  lemma {:induction false} MaximalBack(ok: Assignable, cs: seq<Candidate>, ds: seq<Candidate>, f: seq<nat>, args: seq<Param>)
    requires Reordered(cs, ds, f)
    ensures forall k :: IsMaximal(ok, cs, args, k) ==> exists j :: 0 <= j < |f| && f[j] == k && IsMaximal(ok, ds, args, j)
  {
    hide Applicable, Dominates;
    forall k | IsMaximal(ok, cs, args, k) ensures exists j :: 0 <= j < |f| && f[j] == k && IsMaximal(ok, ds, args, j) {
      var j := Place(cs, ds, f, k);
      MaximalReordered(ok, cs, ds, f, args, j);
    }
  }

  lemma {:induction false} MaximalForth(ok: Assignable, cs: seq<Candidate>, ds: seq<Candidate>, f: seq<nat>, args: seq<Param>)
    requires Reordered(cs, ds, f)
    ensures forall j :: IsMaximal(ok, ds, args, j) ==> 0 <= j < |f| && IsMaximal(ok, cs, args, f[j])
  {
    hide Applicable, Dominates;
    forall j | IsMaximal(ok, ds, args, j) ensures 0 <= j < |f| && IsMaximal(ok, cs, args, f[j]) {
      MaximalReordered(ok, cs, ds, f, args, j);
    }
  }

  // ---------- the chosen candidate is the most specific one ----------

  /** Assignability orders named classes. */
  ghost predicate PartialOrder(ok: Assignable) {
    && (forall a: Param :: Named(a) ==> ok(a, a))
    && (forall a: Param, b: Param, c: Param :: Named(a) && Named(b) && Named(c) && ok(a, b) && ok(b, c) ==> ok(a, c))
    && (forall a: Param, b: Param :: Named(a) && Named(b) && ok(a, b) && ok(b, a) ==> a == b)
  }

  /** Every object parameter names its class. */
  predicate AllNamed(c: Candidate) {
    forall i :: 0 <= i < |c.params| ==> c.params[i].ty == Object ==> c.params[i].cls != ""
  }

  lemma {:induction false} ParamTransitive(ok: Assignable, a: Param, b: Param, c: Param)
    requires PartialOrder(ok) && AtLeastParam(ok, a, b) && AtLeastParam(ok, b, c)
    requires (a.ty == Object ==> a.cls != "") && (b.ty == Object ==> b.cls != "") && (c.ty == Object ==> c.cls != "")
    ensures AtLeastParam(ok, a, c)
    ensures Named(a) && Named(b) && Named(c) && b.cls != c.cls ==> a.cls != c.cls
  {
  }

  lemma {:induction false} AtLeastTransitive(ok: Assignable, a: Candidate, b: Candidate, c: Candidate)
    requires PartialOrder(ok) && AllNamed(a) && AllNamed(b) && AllNamed(c) && AtLeast(ok, a, b) && AtLeast(ok, b, c)
    ensures AtLeast(ok, a, c)
  {
    hide PartialOrder, AtLeastParam;
    forall i | 0 <= i < |c.params| ensures AtLeastParam(ok, a.params[i], c.params[i]) {
      ParamTransitive(ok, a.params[i], b.params[i], c.params[i]);
    }
  }

  lemma {:induction false} DominatesTransitive(ok: Assignable, a: Candidate, b: Candidate, c: Candidate)
    requires PartialOrder(ok) && AllNamed(a) && AllNamed(b) && AllNamed(c) && Dominates(ok, a, b) && Dominates(ok, b, c)
    ensures Dominates(ok, a, c)
  {
    hide PartialOrder, AtLeastParam;
    AtLeastTransitive(ok, a, b, c);
    var i :| 0 <= i < |c.params| && i < |b.params| && Named(b.params[i]) && Named(c.params[i]) && b.params[i].cls != c.params[i].cls;
    NamedToo(ok, a, b, i);
    ParamTransitive(ok, a.params[i], b.params[i], c.params[i]);
  }

  lemma {:induction false} NamedToo(ok: Assignable, a: Candidate, b: Candidate, i: nat)
    requires AllNamed(a) && AtLeast(ok, a, b) && i < |b.params| && Named(b.params[i])
    ensures Named(a.params[i])
  {
  }

  /** The applicable candidates that dominate candidate `k`. */
  ghost function Above(ok: Assignable, cs: seq<Candidate>, args: seq<Param>, k: nat): set<nat>
    requires k < |cs|
  {
    set j: nat | j < |cs| && IsApplicable(ok, cs, args, j) && j != k && Dominates(ok, cs[j], cs[k])
  }

  /** The applicable candidates name the classes of their object parameters; the others do not matter. */
  ghost predicate ApplicableNamed(ok: Assignable, cs: seq<Candidate>, args: seq<Param>) {
    forall k :: IsApplicable(ok, cs, args, k) ==> AllNamed(cs[k])
  }

  lemma {:induction false} AboveShrinks(ok: Assignable, cs: seq<Candidate>, args: seq<Param>, j: nat, k: nat)
    requires PartialOrder(ok) && ApplicableNamed(ok, cs, args) && IsApplicable(ok, cs, args, k) && j in Above(ok, cs, args, k)
    ensures Above(ok, cs, args, j) < Above(ok, cs, args, k)
  {
    hide PartialOrder, Dominates, AllNamed, Applicable;
    forall m | m in Above(ok, cs, args, j) ensures m in Above(ok, cs, args, k) {
      DominatesTransitive(ok, cs[m], cs[j], cs[k]);
      if m == k { NotBothWays(ok, cs[j], cs[k]); assert false; }
    }
  }

  lemma {:induction false} NotBothWays(ok: Assignable, a: Candidate, b: Candidate)
    requires PartialOrder(ok) && Dominates(ok, a, b)
    ensures !Dominates(ok, b, a)
  {
    var i :| 0 <= i < |b.params| && i < |a.params| && Named(a.params[i]) && Named(b.params[i]) && a.params[i].cls != b.params[i].cls;
    assert AtLeastParam(ok, a.params[i], b.params[i]);
  }

  /** Every applicable candidate is, or lies below, a maximal one. */
  lemma {:induction false} BelowMaximal(ok: Assignable, cs: seq<Candidate>, args: seq<Param>, k: nat) returns (m: nat)
    requires PartialOrder(ok) && ApplicableNamed(ok, cs, args) && IsApplicable(ok, cs, args, k)
    ensures IsMaximal(ok, cs, args, m) && (m == k || Dominates(ok, cs[m], cs[k]))
    decreases Above(ok, cs, args, k)
  {
    hide PartialOrder, Dominates, AllNamed, Applicable;
    if IsMaximal(ok, cs, args, k) { return k; }
    var j :| IsApplicable(ok, cs, args, j) && j != k && Dominates(ok, cs[j], cs[k]);
    assert j in Above(ok, cs, args, k);
    AboveShrinks(ok, cs, args, j, k);
    m := BelowMaximal(ok, cs, args, j);
    if m != j { DominatesTransitive(ok, cs[m], cs[j], cs[k]); }
  }

  /** A candidate chosen after widening is at least as specific, in every parameter, as every applicable candidate. */
  lemma {:induction false} ChosenIsGreatest(ok: Assignable, cs: seq<Candidate>, args: seq<Param>, k: nat, j: nat)
    requires PartialOrder(ok) && ApplicableNamed(ok, cs, args)
    requires NoExact(cs, args) && IsChoice(ok, cs, args, k) && IsApplicable(ok, cs, args, j)
    ensures AtLeast(ok, cs[k], cs[j])
  {
    hide PartialOrder, AllNamed, Applicable, AtLeastParam;
    var m := BelowMaximal(ok, cs, args, j);
    if m == j { Reflexive(ok, cs[j]); }
  }

  lemma {:induction false} Reflexive(ok: Assignable, c: Candidate)
    requires PartialOrder(ok)
    ensures AtLeast(ok, c, c)
  {
  }

  // ---------- exactly when the chosen candidate is the most specific one ----------

  /** Applicable candidates, each dominating the next. */
  ghost predicate Descends(ok: Assignable, cs: seq<Candidate>, args: seq<Param>, chain: seq<nat>) {
    && chain != [] && (forall x :: 0 <= x < |chain| ==> IsApplicable(ok, cs, args, chain[x]))
    && (forall x :: 0 < x < |chain| ==> Dominates(ok, cs[chain[x - 1]], cs[chain[x]]))
  }

  /** The ends of the chain name their classes in parameter `i`, but some candidate between them does not. */
  ghost predicate Gap(cs: seq<Candidate>, chain: seq<nat>, i: nat)
    requires chain != [] && forall x :: 0 <= x < |chain| ==> chain[x] < |cs| && i < |cs[chain[x]].params|
  {
    && Named(cs[chain[0]].params[i]) && Named(cs[chain[|chain| - 1]].params[i])
    && exists x :: 0 <= x < |chain| && !Named(cs[chain[x]].params[i])
  }

  lemma {:induction false} SameArity(ok: Assignable, cs: seq<Candidate>, args: seq<Param>, chain: seq<nat>)
    requires Descends(ok, cs, args, chain)
    ensures forall x :: 0 <= x < |chain| ==> chain[x] < |cs| && |cs[chain[x]].params| == |args|
  {
    hide Dominates;
    forall x | 0 <= x < |chain| ensures chain[x] < |cs| && |cs[chain[x]].params| == |args| {
      assert IsApplicable(ok, cs, args, chain[x]);
    }
  }

  lemma {:induction false} FrontDescends(ok: Assignable, cs: seq<Candidate>, args: seq<Param>, chain: seq<nat>)
    requires Descends(ok, cs, args, chain) && |chain| > 1
    ensures Descends(ok, cs, args, chain[..|chain| - 1])
  {
    hide Dominates, Applicable;
    var front := chain[..|chain| - 1];
    forall x | 0 < x < |front| ensures Dominates(ok, cs[front[x - 1]], cs[front[x]]) {
      assert Dominates(ok, cs[chain[x - 1]], cs[chain[x]]);
    }
  }

  lemma {:induction false} LastStep(ok: Assignable, cs: seq<Candidate>, args: seq<Param>, chain: seq<nat>, i: nat)
    requires Descends(ok, cs, args, chain) && |chain| > 1 && i < |args|
    requires forall x :: 0 <= x < |chain| ==> chain[x] < |cs| && |cs[chain[x]].params| == |args|
    ensures AtLeastParam(ok, cs[chain[|chain| - 2]].params[i], cs[chain[|chain| - 1]].params[i])
  {
    hide AtLeastParam, Applicable;
    var n := |chain| - 1;
    assert Dominates(ok, cs[chain[n - 1]], cs[chain[n]]);
  }

  /** Along a chain the types of a parameter are the same, and classes named all the way are assignable. */
  lemma {:induction false} AlongChain(ok: Assignable, cs: seq<Candidate>, args: seq<Param>, chain: seq<nat>, i: nat)
    requires PartialOrder(ok) && Descends(ok, cs, args, chain) && i < |args|
    requires forall x :: 0 <= x < |chain| ==> chain[x] < |cs| && |cs[chain[x]].params| == |args|
    ensures cs[chain[0]].params[i].ty == cs[chain[|chain| - 1]].params[i].ty
    ensures (forall x :: 0 <= x < |chain| ==> Named(cs[chain[x]].params[i])) ==> ok(cs[chain[0]].params[i], cs[chain[|chain| - 1]].params[i])
    decreases |chain|
  {
    if |chain| > 1 {
      var front := chain[..|chain| - 1];
      FrontDescends(ok, cs, args, chain);
      LastStep(ok, cs, args, chain, i);
      AlongChain(ok, cs, args, front, i);
      hide PartialOrder, Descends;
      if forall x :: 0 <= x < |chain| ==> Named(cs[chain[x]].params[i]) {
        assert forall x :: 0 <= x < |front| ==> Named(cs[front[x]].params[i]);
        OkTransitive(ok, cs[chain[0]].params[i], cs[chain[|chain| - 2]].params[i], cs[chain[|chain| - 1]].params[i]);
      }
    } else {
      assert chain[0] == chain[|chain| - 1];
    }
  }

  lemma {:induction false} OkTransitive(ok: Assignable, a: Param, b: Param, c: Param)
    requires PartialOrder(ok) && Named(a) && Named(b) && Named(c) && ok(a, b) && ok(b, c)
    ensures ok(a, c)
  {
  }

  /** The head of a chain is at least as specific as its end exactly if it is so where a class name is missing between. */
  lemma {:induction false} ChainExact(ok: Assignable, cs: seq<Candidate>, args: seq<Param>, chain: seq<nat>)
    requires PartialOrder(ok) && Descends(ok, cs, args, chain)
    requires forall x :: 0 <= x < |chain| ==> chain[x] < |cs| && |cs[chain[x]].params| == |args|
    ensures AtLeast(ok, cs[chain[0]], cs[chain[|chain| - 1]]) <==>
            forall i: nat :: i < |args| && Gap(cs, chain, i) ==> ok(cs[chain[0]].params[i], cs[chain[|chain| - 1]].params[i])
  {
    var a, c := cs[chain[0]], cs[chain[|chain| - 1]];
    hide PartialOrder, Descends;
    forall i: nat | i < |args|
      ensures AtLeastParam(ok, a.params[i], c.params[i]) <==> (Gap(cs, chain, i) ==> ok(a.params[i], c.params[i]))
    {
      AlongChain(ok, cs, args, chain, i);
    }
  }

  /** No candidate dominates itself in a roundabout way. */
  ghost predicate NoLoop(ok: Assignable, cs: seq<Candidate>, args: seq<Param>) {
    forall chain :: Descends(ok, cs, args, chain) && |chain| > 1 ==> chain[0] != chain[|chain| - 1]
  }

  /** The candidates of a chain are all different. */
  ghost predicate AllDifferent(chain: seq<nat>) {
    forall x, y :: 0 <= x < y < |chain| ==> chain[x] != chain[y]
  }

  lemma {:induction false} DifferentBelow(chain: seq<nat>, n: nat)
    requires AllDifferent(chain) && forall x :: 0 <= x < |chain| ==> chain[x] < n
    ensures |chain| <= n
  {
    var used := set x | 0 <= x < |chain| :: chain[x];
    SizeOfRange(chain, used);
    assert used <= Numbers(n);
    SubsetSize(used, Numbers(n));
  }

  lemma {:induction false} SizeOfRange(chain: seq<nat>, used: set<nat>)
    requires AllDifferent(chain) && forall k :: k in used <==> exists x :: 0 <= x < |chain| && chain[x] == k
    ensures |used| == |chain|
    decreases |chain|
  {
    if chain == [] {
      assert used == {};
    } else {
      var n := |chain| - 1;
      var rest := used - {chain[n]};
      forall k ensures k in rest <==> exists x :: 0 <= x < |chain[..n]| && chain[..n][x] == k {
        if k in rest {
          var x :| 0 <= x < |chain| && chain[x] == k;
          assert chain[..n][x] == k;
        }
      }
      SizeOfRange(chain[..n], rest);
      assert used == rest + {chain[n]};
    }
  }

  ghost function Numbers(n: nat): (r: set<nat>)
    ensures |r| == n && forall k: nat :: k in r <==> k < n
  {
    if n == 0 then {} else Numbers(n - 1) + {n - 1}
  }

  lemma {:induction false} SubsetSize(a: set<nat>, b: set<nat>)
    requires a <= b
    ensures |a| <= |b|
  {
    assert b == a + (b - a);
  }

  lemma {:induction false} Extend(ok: Assignable, cs: seq<Candidate>, args: seq<Param>, j: nat, chain: seq<nat>)
    requires NoLoop(ok, cs, args) && Descends(ok, cs, args, chain) && AllDifferent(chain)
    requires IsApplicable(ok, cs, args, j) && IsApplicable(ok, cs, args, chain[0]) && Dominates(ok, cs[j], cs[chain[0]])
    ensures Descends(ok, cs, args, [j] + chain) && AllDifferent([j] + chain)
  {
    hide Dominates, Applicable;
    var more := [j] + chain;
    forall x | 0 < x < |more| ensures Dominates(ok, cs[more[x - 1]], cs[more[x]]) {
      if x > 1 { assert Dominates(ok, cs[chain[x - 1 - 1]], cs[chain[x - 1]]); }
    }
    forall y | 0 <= y < |chain| ensures chain[y] != j {
      var loop := more[..y + 2];
      forall x | 0 < x < |loop| ensures Dominates(ok, cs[loop[x - 1]], cs[loop[x]]) { assert Dominates(ok, cs[more[x - 1]], cs[more[x]]); }
      assert Descends(ok, cs, args, loop);
      assert loop[|loop| - 1] == chain[y];
    }
  }

  /** Going up from an applicable candidate ends at a maximal one. */
  lemma {:induction false} ClimbsToMaximal(ok: Assignable, cs: seq<Candidate>, args: seq<Param>, chain: seq<nat>) returns (r: seq<nat>)
    requires NoLoop(ok, cs, args) && Descends(ok, cs, args, chain) && AllDifferent(chain) && |chain| <= |cs|
    ensures Descends(ok, cs, args, r) && r[|r| - 1] == chain[|chain| - 1] && IsMaximal(ok, cs, args, r[0])
    decreases |cs| - |chain|
  {
    hide Dominates, Applicable, NoLoop;
    assert IsApplicable(ok, cs, args, chain[0]);
    if IsMaximal(ok, cs, args, chain[0]) { return chain; }
    var j: nat :| IsApplicable(ok, cs, args, j) && j != chain[0] && Dominates(ok, cs[j], cs[chain[0]]);
    Extend(ok, cs, args, j, chain);
    var more := [j] + chain;
    forall x | 0 <= x < |more| ensures more[x] < |cs| { assert IsApplicable(ok, cs, args, more[x]); }
    DifferentBelow(more, |cs|);
    r := ClimbsToMaximal(ok, cs, args, more);
  }

  /** Every missing class name that matters for candidate `k` is harmless. */
  ghost predicate GapsHarmless(ok: Assignable, cs: seq<Candidate>, args: seq<Param>, k: nat)
    requires k < |cs| && |cs[k].params| == |args|
  {
    forall chain, i: nat :: Descends(ok, cs, args, chain) && chain[0] == k && i < |args| ==> GapHarmless(ok, cs, args, chain, i)
  }

  ghost predicate GapHarmless(ok: Assignable, cs: seq<Candidate>, args: seq<Param>, chain: seq<nat>, i: nat)
    requires Descends(ok, cs, args, chain) && i < |args|
  {
    SameArity(ok, cs, args, chain);
    Gap(cs, chain, i) ==> ok(cs[chain[0]].params[i], cs[chain[|chain| - 1]].params[i])
  }

  ghost predicate Greatest(ok: Assignable, cs: seq<Candidate>, args: seq<Param>, k: nat)
    requires k < |cs|
  {
    forall j :: IsApplicable(ok, cs, args, j) ==> AtLeast(ok, cs[k], cs[j])
  }

  /** A candidate chosen after widening is at least as specific as every applicable one exactly if it is so in those
      parameters where a chain of dominations from it passes over a missing class name. */
  lemma {:induction false} GreatestExactly(ok: Assignable, cs: seq<Candidate>, args: seq<Param>, k: nat)
    requires PartialOrder(ok) && NoLoop(ok, cs, args) && NoExact(cs, args) && IsChoice(ok, cs, args, k)
    ensures IsApplicable(ok, cs, args, k)
    ensures Greatest(ok, cs, args, k) <==> GapsHarmless(ok, cs, args, k)
  {
    hide PartialOrder, NoLoop, Exact, Applicable, Dominates, AtLeast, Gap;
    assert IsMaximal(ok, cs, args, k);
    assert |cs[k].params| == |args| by { ArityOf(ok, cs, args, k); }
    if Greatest(ok, cs, args, k) {
      forall chain, i: nat | Descends(ok, cs, args, chain) && chain[0] == k && i < |args| ensures GapHarmless(ok, cs, args, chain, i) {
        SameArity(ok, cs, args, chain);
        ChainExact(ok, cs, args, chain);
        assert IsApplicable(ok, cs, args, chain[|chain| - 1]);
      }
    }
    if GapsHarmless(ok, cs, args, k) {
      forall j | IsApplicable(ok, cs, args, j) ensures AtLeast(ok, cs[k], cs[j]) {
        var chain := ClimbsToMaximal(ok, cs, args, [j]);
        assert chain[0] == k;
        SameArity(ok, cs, args, chain);
        forall i: nat | i < |args| && Gap(cs, chain, i) ensures ok(cs[chain[0]].params[i], cs[chain[|chain| - 1]].params[i]) {
          assert GapHarmless(ok, cs, args, chain, i);
        }
        ChainExact(ok, cs, args, chain);
      }
    }
  }

  lemma {:induction false} ArityOf(ok: Assignable, cs: seq<Candidate>, args: seq<Param>, k: nat)
    requires IsApplicable(ok, cs, args, k)
    ensures |cs[k].params| == |args|
  {
  }

  /** With all classes named there is no loop. */
  lemma {:induction false} NamedNeverLoops(ok: Assignable, cs: seq<Candidate>, args: seq<Param>)
    requires PartialOrder(ok) && ApplicableNamed(ok, cs, args)
    ensures NoLoop(ok, cs, args)
  {
    hide PartialOrder, Descends, ApplicableNamed;
    forall chain | Descends(ok, cs, args, chain) && |chain| > 1 ensures chain[0] != chain[|chain| - 1] {
      EndsDominate(ok, cs, args, chain);
    }
  }

  lemma {:induction false} EndsDominate(ok: Assignable, cs: seq<Candidate>, args: seq<Param>, chain: seq<nat>)
    requires PartialOrder(ok) && ApplicableNamed(ok, cs, args) && Descends(ok, cs, args, chain) && |chain| > 1
    ensures chain[0] < |cs| && chain[|chain| - 1] < |cs| && Dominates(ok, cs[chain[0]], cs[chain[|chain| - 1]])
    decreases |chain|
  {
    hide PartialOrder, Dominates, AllNamed, Applicable;
    var n := |chain| - 1;
    assert IsApplicable(ok, cs, args, chain[0]) && IsApplicable(ok, cs, args, chain[n - 1]) && IsApplicable(ok, cs, args, chain[n]);
    assert Dominates(ok, cs[chain[n - 1]], cs[chain[n]]);
    if n > 1 {
      FrontDescends(ok, cs, args, chain);
      EndsDominate(ok, cs, args, chain[..n]);
      DominatesTransitive(ok, cs[chain[0]], cs[chain[n - 1]], cs[chain[n]]);
    }
  }

  // ---------- why the classes must be named ----------

  /** A below B below C, and U below both V and W. */
  predicate Below(a: Param, b: Param) {
    || a == b
    || b.cls == ""
    || (a.ty == b.ty && ((a.cls == "A" && (b.cls == "B" || b.cls == "C")) || (a.cls == "B" && b.cls == "C")
                         || (a.cls == "U" && (b.cls == "V" || b.cls == "W"))))
  }

  const SAMPLE_ARGS := [Param(Object, "A"), Param(Object, "U")]
  const SAMPLE: seq<Candidate> := [
    Candidate("P", [Param(Object, "A"), Param(Object, "V")]),
    Candidate("Q", [Param(Object, "B"), Param(Object, "")]),
    Candidate("R", [Param(Object, "C"), Param(Object, "W")])]

  ghost function SampleOrder(): Assignable {
    (a, b) => Below(a, b)
  }

  lemma {:induction false} BelowOrders()
    ensures PartialOrder(SampleOrder())
  {
  }

  lemma {:induction false} SampleMatches()
    ensures forall k :: 0 <= k < 3 ==> Applicable(SampleOrder(), SAMPLE_ARGS, SAMPLE[k]) && !Exact(SAMPLE_ARGS, SAMPLE[k])
  {
    assert !ExactParam(SAMPLE_ARGS[1], SAMPLE[0].params[1]);
    assert !ExactParam(SAMPLE_ARGS[0], SAMPLE[1].params[0]);
    assert !ExactParam(SAMPLE_ARGS[0], SAMPLE[2].params[0]);
  }

  lemma {:induction false} SampleDominated()
    ensures Dominates(SampleOrder(), SAMPLE[0], SAMPLE[1]) && Dominates(SampleOrder(), SAMPLE[1], SAMPLE[2])
  {
    var p, q, r := SAMPLE[0], SAMPLE[1], SAMPLE[2];
    assert Named(p.params[0]) && Named(q.params[0]) && p.params[0].cls != q.params[0].cls;
    assert Named(r.params[0]) && q.params[0].cls != r.params[0].cls;
  }

  lemma {:induction false} SampleUnrelated()
    ensures !AtLeast(SampleOrder(), SAMPLE[1], SAMPLE[0]) && !AtLeast(SampleOrder(), SAMPLE[2], SAMPLE[0])
    ensures !AtLeast(SampleOrder(), SAMPLE[0], SAMPLE[2])
  {
    var p, q, r := SAMPLE[0], SAMPLE[1], SAMPLE[2];
    assert !AtLeastParam(SampleOrder(), q.params[0], p.params[0]);
    assert !AtLeastParam(SampleOrder(), r.params[0], p.params[0]);
    assert !AtLeastParam(SampleOrder(), p.params[1], r.params[1]);
  }

  /** With an object parameter that names no class the chosen candidate need not be the most specific: here P is chosen
      although it is not at least as specific as the applicable R. */
  lemma {:induction false} UnnamedParameterBreaksIt()
    ensures PartialOrder(SampleOrder()) && NoExact(SAMPLE, SAMPLE_ARGS) && IsChoice(SampleOrder(), SAMPLE, SAMPLE_ARGS, 0)
    ensures IsApplicable(SampleOrder(), SAMPLE, SAMPLE_ARGS, 2) && !AtLeast(SampleOrder(), SAMPLE[0], SAMPLE[2])
  {
    hide Exact, Applicable, AtLeast, PartialOrder, SampleOrder, Differs;
    BelowOrders();
    SampleMatches();
    SampleDominated();
    SampleUnrelated();
    var ok := SampleOrder();
    assert IsApplicable(ok, SAMPLE, SAMPLE_ARGS, 0) && IsApplicable(ok, SAMPLE, SAMPLE_ARGS, 1);
    assert IsMaximal(ok, SAMPLE, SAMPLE_ARGS, 0);
    assert !IsMaximal(ok, SAMPLE, SAMPLE_ARGS, 1) && !IsMaximal(ok, SAMPLE, SAMPLE_ARGS, 2);
  }

  // ---------- what is chosen, told by types and class names ----------

  /** Types other than `Other` carry the name of a class or of an element type; it is given. */
  predicate Identified(p: Param) { p.ty.Other? || p.cls != "" }

  predicate AllIdentified(ps: seq<Param>) { forall i :: 0 <= i < |ps| ==> Identified(ps[i]) }

  /** The same type, and the same identity where the type carries one. */
  predicate SameParam(a: Param, p: Param) { a.ty == p.ty && (!a.ty.Other? ==> a.cls == p.cls) }

  predicate SameTypes(ps: seq<Param>, args: seq<Param>) {
    |ps| == |args| && forall i :: 0 <= i < |args| ==> SameParam(args[i], ps[i])
  }

  lemma {:induction false} ExactMeansSame(args: seq<Param>, c: Candidate)
    requires AllIdentified(args) && AllIdentified(c.params)
    ensures Exact(args, c) <==> SameTypes(c.params, args)
  {
    if |c.params| == |args| {
      forall i | 0 <= i < |args| ensures ExactParam(args[i], c.params[i]) <==> SameParam(args[i], c.params[i]) {
        assert Identified(args[i]) && Identified(c.params[i]);
      }
    }
  }

  /** The call and the candidates give every identity there is to give. */
  ghost predicate EverythingIdentified(cs: seq<Candidate>, args: seq<Param>) {
    AllIdentified(args) && forall k :: 0 <= k < |cs| ==> AllIdentified(cs[k].params)
  }

  /** With all identities given, the only candidate whose parameters are the argument types is chosen, whatever else is in
      the list and whatever can be assigned to what; and where there are several the call is ambiguous. */
  lemma {:induction false} SameTypesWin(ok: Assignable, cs: seq<Candidate>, args: seq<Param>, v: Verdict, k: nat)
    requires EverythingIdentified(cs, args) && Decides(ok, cs, args, v) && k < |cs| && SameTypes(cs[k].params, args)
    ensures (forall j :: 0 <= j < |cs| && j != k ==> !SameTypes(cs[j].params, args)) ==> v == Chosen(k)
    ensures (exists j :: 0 <= j < |cs| && j != k && SameTypes(cs[j].params, args)) ==> v == Ambiguous
  {
    hide Exact, SameTypes, Applicable, IsMaximal, AllIdentified;
    forall j | 0 <= j < |cs| ensures IsExact(cs, args, j) <==> SameTypes(cs[j].params, args) { ExactMeansSame(args, cs[j]); }
    assert IsExact(cs, args, k);
    if forall j :: 0 <= j < |cs| && j != k ==> !SameTypes(cs[j].params, args) {
      OneVerdict(ok, cs, args, v, Chosen(k));
    } else {
      var j :| 0 <= j < |cs| && j != k && SameTypes(cs[j].params, args);
      assert IsExact(cs, args, j);
      OneVerdict(ok, cs, args, v, Ambiguous);
    }
  }

  /** A missing name is a wildcard for the identities of its type, and for nothing else: it matches a parameter of the same type
      whatever that is named, and never one of another type. */
  lemma {:induction false} MissingNameMatches(a: Param, p: Param)
    requires !Identified(a) || !Identified(p)
    ensures ExactParam(a, p) <==> a.ty == p.ty
  {
  }

  /** Where no candidate has the argument types and exactly one takes the arguments, it is chosen; where none does, there is no
      match. */
  lemma {:induction false} OnlyOneTakes(ok: Assignable, cs: seq<Candidate>, args: seq<Param>, v: Verdict)
    requires EverythingIdentified(cs, args) && Decides(ok, cs, args, v)
    requires forall j :: 0 <= j < |cs| ==> !SameTypes(cs[j].params, args)
    ensures forall k: nat :: k < |cs| && TakesArgs(ok, args, cs[k].params) && (forall j :: 0 <= j < |cs| && j != k ==> !TakesArgs(ok, args, cs[j].params))
              ==> v == Chosen(k)
    ensures (forall j :: 0 <= j < |cs| ==> !TakesArgs(ok, args, cs[j].params)) <==> v == NoMatch
  {
    hide Exact, SameTypes, Dominates, AllIdentified, TakesArgs;
    forall j | 0 <= j < |cs| ensures !IsExact(cs, args, j) { ExactMeansSame(args, cs[j]); }
    forall j | 0 <= j < |cs| ensures IsApplicable(ok, cs, args, j) <==> TakesArgs(ok, args, cs[j].params) { TakesMeansApplicable(ok, args, cs[j]); }
    hide Applicable;
    forall k: nat | k < |cs| && TakesArgs(ok, args, cs[k].params) && (forall j :: 0 <= j < |cs| && j != k ==> !TakesArgs(ok, args, cs[j].params))
      ensures v == Chosen(k)
    {
      assert IsMaximal(ok, cs, args, k);
      OneVerdict(ok, cs, args, v, Chosen(k));
    }
    if forall j :: 0 <= j < |cs| ==> !TakesArgs(ok, args, cs[j].params) { OneVerdict(ok, cs, args, v, NoMatch); }
  }

  /** Every argument can be assigned to the parameter in its place. */
  predicate TakesArgs(ok: Assignable, args: seq<Param>, ps: seq<Param>) {
    |ps| == |args| && forall i :: 0 <= i < |args| ==> ok(args[i], ps[i])
  }

  lemma {:induction false} TakesMeansApplicable(ok: Assignable, args: seq<Param>, c: Candidate)
    ensures Applicable(ok, args, c) <==> TakesArgs(ok, args, c.params)
  {
  }

  /** In every place `a` and `b` have the same type, and where both name a class of objects that of `a` is assignable to that of
      `b`. */
  predicate NoLess(ok: Assignable, a: seq<Param>, b: seq<Param>) {
    |a| == |b| && forall i :: 0 <= i < |a| ==> a[i].ty == b[i].ty && (a[i].ty == Object && a[i].cls != "" && b[i].cls != "" ==> ok(a[i], b[i]))
  }

  /** Some place names two different classes of objects. */
  predicate OtherClass(a: seq<Param>, b: seq<Param>) {
    exists i :: 0 <= i < |a| && i < |b| && a[i].ty == b[i].ty == Object && a[i].cls != "" && b[i].cls != "" && a[i].cls != b[i].cls
  }

  lemma {:induction false} DominatesMeans(ok: Assignable, a: Candidate, b: Candidate)
    ensures Dominates(ok, a, b) <==> NoLess(ok, a.params, b.params) && OtherClass(a.params, b.params)
  {
    assert AtLeast(ok, a, b) <==> NoLess(ok, a.params, b.params) by {
      if |a.params| == |b.params| {
        forall i | 0 <= i < |a.params|
          ensures AtLeastParam(ok, a.params[i], b.params[i]) <==>
                  a.params[i].ty == b.params[i].ty
                  && (a.params[i].ty == Object && a.params[i].cls != "" && b.params[i].cls != "" ==> ok(a.params[i], b.params[i]))
        {
        }
      }
    }
  }

  /** Where no candidate has the argument types, a candidate that takes the arguments and is more specific than every other one
      that does is chosen. */
  lemma {:induction false} MostSpecificWins(ok: Assignable, cs: seq<Candidate>, args: seq<Param>, v: Verdict, k: nat)
    requires PartialOrder(ok) && EverythingIdentified(cs, args) && Decides(ok, cs, args, v)
    requires forall j :: 0 <= j < |cs| ==> !SameTypes(cs[j].params, args)
    requires k < |cs| && TakesArgs(ok, args, cs[k].params)
    requires forall j :: 0 <= j < |cs| && j != k && TakesArgs(ok, args, cs[j].params) ==>
               NoLess(ok, cs[k].params, cs[j].params) && OtherClass(cs[k].params, cs[j].params)
    ensures v == Chosen(k)
  {
    hide Exact, SameTypes, AllIdentified, PartialOrder, NoLess, OtherClass, TakesArgs, Dominates, Applicable;
    forall j | 0 <= j < |cs| ensures !IsExact(cs, args, j) { ExactMeansSame(args, cs[j]); }
    forall j | 0 <= j < |cs| ensures IsApplicable(ok, cs, args, j) <==> TakesArgs(ok, args, cs[j].params) { TakesMeansApplicable(ok, args, cs[j]); }
    forall j | IsApplicable(ok, cs, args, j) && j != k ensures Dominates(ok, cs[k], cs[j]) && !Dominates(ok, cs[j], cs[k]) {
      DominatesMeans(ok, cs[k], cs[j]);
      NotBothWays(ok, cs[k], cs[j]);
    }
    assert IsMaximal(ok, cs, args, k);
    OneVerdict(ok, cs, args, v, Chosen(k));
  }

  /** Where several candidates take the arguments and none is more specific than another, the call is ambiguous. */
  lemma {:induction false} IncomparableIsAmbiguous(ok: Assignable, cs: seq<Candidate>, args: seq<Param>, v: Verdict, a: nat, b: nat)
    requires EverythingIdentified(cs, args) && Decides(ok, cs, args, v)
    requires forall j :: 0 <= j < |cs| ==> !SameTypes(cs[j].params, args)
    requires a < |cs| && b < |cs| && a != b && TakesArgs(ok, args, cs[a].params) && TakesArgs(ok, args, cs[b].params)
    requires forall i, j :: 0 <= i < |cs| && 0 <= j < |cs| ==> !(NoLess(ok, cs[i].params, cs[j].params) && OtherClass(cs[i].params, cs[j].params))
    ensures v == Ambiguous
  {
    hide Exact, SameTypes, AllIdentified, NoLess, OtherClass, TakesArgs, Dominates, Applicable;
    forall j | 0 <= j < |cs| ensures !IsExact(cs, args, j) { ExactMeansSame(args, cs[j]); }
    forall i, j | 0 <= i < |cs| && 0 <= j < |cs| ensures !Dominates(ok, cs[i], cs[j]) { DominatesMeans(ok, cs[i], cs[j]); }
    TakesMeansApplicable(ok, args, cs[a]);
    TakesMeansApplicable(ok, args, cs[b]);
    assert IsMaximal(ok, cs, args, a) && IsMaximal(ok, cs, args, b);
    OneVerdict(ok, cs, args, v, Ambiguous);
  }
}

/** Method dispatch tables (src/compiler/dispatch_table.cpp): a slot for every signature, and for every class a table
    that holds what walking up its ancestors would find. */
module DispatchTables {
  import opened Wrappers

  /** A method name with the dispatch types of its parameters. */
  datatype Signature = Signature(name: string, parameters: seq<string>)

  /** A function with the class that owns it, which is empty for a free function. */
  datatype Function = Function(owner: string, isStatic: bool, key: Signature)

  type Parents = map<string, string>

  predicate IsMethod(f: Function) { !f.isStatic && f.owner != "" }

  function Parent(parents: Parents, c: string): string {
    if c in parents then parents[c] else ""
  }

  /** No class is its own ancestor: every parent link goes down in `rank`. */
  ghost predicate Acyclic(parents: Parents, rank: map<string, nat>) {
    forall c :: c in parents && parents[c] != "" ==> c in rank && parents[c] in rank && rank[parents[c]] < rank[c]
  }

  ghost function Rank(rank: map<string, nat>, c: string): nat {
    if c == "" then 0 else if c in rank then rank[c] + 2 else 1
  }

  // ---------- the walk ----------

  /** The last of the first `n` functions that class `c` declares, not statically, with signature `key`. */
  function Declared(fs: seq<Function>, n: nat, c: string, key: Signature): Option<nat>
    requires n <= |fs|
  {
    if n == 0 then None
    else if !fs[n - 1].isStatic && fs[n - 1].owner == c && fs[n - 1].key == key then Some(n - 1)
    else Declared(fs, n - 1, c, key)
  }

  /** What walking up from `c` finds first. */
  ghost function Walk(fs: seq<Function>, parents: Parents, rank: map<string, nat>, c: string, key: Signature): Option<nat>
    requires Acyclic(parents, rank)
    decreases Rank(rank, c)
  {
    if c == "" then None
    else if Declared(fs, |fs|, c, key).Some? then Declared(fs, |fs|, c, key)
    else Walk(fs, parents, rank, Parent(parents, c), key)
  }

  /** The same over an explicit list of classes, nearest first. */
  function WalkChain(fs: seq<Function>, chain: seq<string>, key: Signature): Option<nat> {
    if chain == [] then None
    else if Declared(fs, |fs|, chain[0], key).Some? then Declared(fs, |fs|, chain[0], key)
    else WalkChain(fs, chain[1..], key)
  }

  ghost function Chain(parents: Parents, rank: map<string, nat>, c: string): seq<string>
    requires Acyclic(parents, rank)
    decreases Rank(rank, c)
  {
    if c == "" then [] else [c] + Chain(parents, rank, Parent(parents, c))
  }

  lemma {:induction false} WalkIsChain(fs: seq<Function>, parents: Parents, rank: map<string, nat>, c: string, key: Signature)
    requires Acyclic(parents, rank)
    ensures Walk(fs, parents, rank, c, key) == WalkChain(fs, Chain(parents, rank, c), key)
    decreases Rank(rank, c)
  {
    hide Declared;
    if c != "" {
      var p := Parent(parents, c);
      WalkIsChain(fs, parents, rank, p, key);
      assert ([c] + Chain(parents, rank, p))[1..] == Chain(parents, rank, p);
    }
  }

  // ---------- the compiler's own look-up ----------

  /** The last of the first `n` functions registered for class `c` and signature `key`, static or not: the index does not
      record which. */
  function Registered(fs: seq<Function>, n: nat, c: string, key: Signature): Option<nat>
    requires n <= |fs|
  {
    if n == 0 then None
    else if fs[n - 1].owner == c && fs[n - 1].key == key then Some(n - 1)
    else Registered(fs, n - 1, c, key)
  }

  type FunctionIndex = map<(string, Signature), nat>

  ghost predicate Indexes(fs: seq<Function>, n: nat, index: FunctionIndex)
    requires n <= |fs|
  {
    forall c, key :: Registered(fs, n, c, key) == if (c, key) in index then Some(index[(c, key)]) else None
  }

  /** Every function is registered under its owner and signature; a later one replaces an earlier. */
  method RegisterFunctions(fs: seq<Function>) returns (index: FunctionIndex)
    ensures Indexes(fs, |fs|, index)
  {
    index := map[];
    for i := 0 to |fs|
      invariant Indexes(fs, i, index)
    {
      index := index[(fs[i].owner, fs[i].key) := i];
    }
  }

  /** The first registration that walking up from `c` meets. */
  ghost function IndexWalk(fs: seq<Function>, parents: Parents, rank: map<string, nat>, c: string, key: Signature): Option<nat>
    requires Acyclic(parents, rank)
    decreases Rank(rank, c)
  {
    if c == "" then None
    else if Registered(fs, |fs|, c, key).Some? then Registered(fs, |fs|, c, key)
    else IndexWalk(fs, parents, rank, Parent(parents, c), key)
  }

  /** `resolveFunctionIndex`: walk up until the index has an entry. */
  method ResolveFunctionIndex(fs: seq<Function>, index: FunctionIndex, parents: Parents, c: string, key: Signature, ghost rank: map<string, nat>)
    returns (r: Option<nat>)
    requires Acyclic(parents, rank) && Indexes(fs, |fs|, index)
    ensures r == IndexWalk(fs, parents, rank, c, key)
  {
    hide Registered, Acyclic;
    var cur := c;
    while cur != ""
      invariant IndexWalk(fs, parents, rank, c, key) == IndexWalk(fs, parents, rank, cur, key)
      decreases Rank(rank, cur)
    {
      assert Registered(fs, |fs|, cur, key) == if (cur, key) in index then Some(index[(cur, key)]) else None;
      if (cur, key) in index { return Some(index[(cur, key)]); }
      RankFalls(parents, rank, cur);
      cur := Parent(parents, cur);
    }
    return None;
  }

  /** The nearest class on the chain that registers `key`, if any, registered a method last. */
  ghost predicate NearestIsMethod(fs: seq<Function>, parents: Parents, rank: map<string, nat>, c: string, key: Signature)
    requires Acyclic(parents, rank)
    decreases Rank(rank, c)
  {
    if c == "" then true
    else if Registered(fs, |fs|, c, key).Some? then
      RegisteredIs(fs, |fs|, c, key);
      !fs[Registered(fs, |fs|, c, key).value].isStatic
    else NearestIsMethod(fs, parents, rank, Parent(parents, c), key)
  }

  lemma {:induction false} RegisteredIs(fs: seq<Function>, n: nat, c: string, key: Signature)
    requires n <= |fs|
    ensures var r := Registered(fs, n, c, key);
            && (r.Some? ==> r.value < n && fs[r.value].owner == c && fs[r.value].key == key)
            && (r.None? ==> Declared(fs, n, c, key).None?)
            && (r.Some? && !fs[r.value].isStatic ==> Declared(fs, n, c, key) == r)
  {
    if n > 0 { RegisteredIs(fs, n - 1, c, key); }
  }

  lemma {:induction false} DeclaredIsMethod(fs: seq<Function>, n: nat, c: string, key: Signature)
    requires n <= |fs| && Declared(fs, n, c, key).Some?
    ensures var i := Declared(fs, n, c, key).value; i < n && !fs[i].isStatic
  {
    if !(!fs[n - 1].isStatic && fs[n - 1].owner == c && fs[n - 1].key == key) { DeclaredIsMethod(fs, n - 1, c, key); }
  }

  lemma {:induction false} WalkFindsMethods(fs: seq<Function>, parents: Parents, rank: map<string, nat>, c: string, key: Signature)
    requires Acyclic(parents, rank) && Walk(fs, parents, rank, c, key).Some?
    ensures var i := Walk(fs, parents, rank, c, key).value; i < |fs| && !fs[i].isStatic
    decreases Rank(rank, c)
  {
    hide Declared;
    if Declared(fs, |fs|, c, key).Some? {
      DeclaredIsMethod(fs, |fs|, c, key);
    } else {
      WalkFindsMethods(fs, parents, rank, Parent(parents, c), key);
    }
  }

  /** The compiler's walk and the walk the tables are built from agree exactly when the nearest registration on the chain is
      not static, or there is none. */
  lemma {:induction false} WalksAgree(fs: seq<Function>, parents: Parents, rank: map<string, nat>, c: string, key: Signature)
    requires Acyclic(parents, rank)
    ensures IndexWalk(fs, parents, rank, c, key) == Walk(fs, parents, rank, c, key) <==> NearestIsMethod(fs, parents, rank, c, key)
    decreases Rank(rank, c)
  {
    hide Declared, Registered;
    if c != "" {
      RegisteredIs(fs, |fs|, c, key);
      var r := Registered(fs, |fs|, c, key);
      if r.None? {
        WalksAgree(fs, parents, rank, Parent(parents, c), key);
      } else if Walk(fs, parents, rank, c, key).Some? {
        WalkFindsMethods(fs, parents, rank, c, key);
      }
    }
  }

  /** Class B below A: A has a method f, B a static f of the same signature. The compiler's walk from B gives the static
      function, the table of B holds the method. */
  lemma {:induction false} StaticHidesMethod(key: Signature)
    ensures var fs := [Function("A", false, key), Function("B", true, key)];
            var parents := map["B" := "A"];
            var rank: map<string, nat> := map["A" := 0, "B" := 1];
            && Acyclic(parents, rank)
            && IndexWalk(fs, parents, rank, "B", key) == Some(1)
            && Walk(fs, parents, rank, "B", key) == Some(0)
            && !NearestIsMethod(fs, parents, rank, "B", key)
  {
    var fs := [Function("A", false, key), Function("B", true, key)];
    var parents := map["B" := "A"];
    var rank: map<string, nat> := map["A" := 0, "B" := 1];
    assert Acyclic(parents, rank);
    assert Registered(fs, 2, "B", key) == Some(1);
    assert Declared(fs, 0, "B", key) == None && Declared(fs, 1, "B", key) == None && Declared(fs, 2, "B", key) == None;
    assert Declared(fs, 1, "A", key) == Some(0) && Declared(fs, 2, "A", key) == Some(0);
    assert Walk(fs, parents, rank, "A", key) == Some(0);
  }

  lemma {:induction false} RankFalls(parents: Parents, rank: map<string, nat>, c: string)
    requires Acyclic(parents, rank) && c != ""
    ensures Rank(rank, Parent(parents, c)) < Rank(rank, c)
  {
  }

  // ---------- slots ----------

  type Slots = map<Signature, nat>

  /** Every method signature among the first `n` functions has a slot of its own, and the slots are 0, 1, 2 and so on. */
  ghost predicate SlotsFor(fs: seq<Function>, n: nat, slots: Slots)
    requires n <= |fs|
  {
    && (forall i :: 0 <= i < n && IsMethod(fs[i]) ==> fs[i].key in slots)
    && (forall key :: key in slots ==> Uses(fs, n, key))
    && Numbered(slots)
  }

  ghost predicate Uses(fs: seq<Function>, n: nat, key: Signature)
    requires n <= |fs|
  {
    exists i :: 0 <= i < n && IsMethod(fs[i]) && fs[i].key == key
  }

  ghost predicate Numbered(slots: Slots) {
    && (forall key :: key in slots ==> slots[key] < |slots|)
    && (forall a, b :: a in slots && b in slots && slots[a] == slots[b] ==> a == b)
  }

  lemma {:induction false} NumberedMore(slots: Slots, key: Signature)
    requires Numbered(slots) && key !in slots
    ensures Numbered(slots[key := |slots|])
  {
    var more := slots[key := |slots|];
    assert |more| == |slots| + 1 by { assert more.Keys == slots.Keys + {key}; }
  }

  lemma {:induction false} UsesMore(fs: seq<Function>, n: nat, key: Signature)
    requires n < |fs|
    ensures Uses(fs, n, key) ==> Uses(fs, n + 1, key)
    ensures IsMethod(fs[n]) && fs[n].key == key ==> Uses(fs, n + 1, key)
  {
  }

  method AssignSlots(fs: seq<Function>) returns (slots: Slots)
    ensures SlotsFor(fs, |fs|, slots)
  {
    slots := map[];
    for i := 0 to |fs|
      invariant SlotsFor(fs, i, slots)
    {
      hide SlotsFor;
      var f := fs[i];
      if f.isStatic || f.owner == "" { SlotKept(fs, i, slots); continue; }
      SlotAdded(fs, i, slots);
      if f.key !in slots { slots := slots[f.key := |slots|]; }
    }
  }

  lemma {:induction false} SlotAdded(fs: seq<Function>, i: nat, slots: Slots)
    requires i < |fs| && IsMethod(fs[i]) && SlotsFor(fs, i, slots)
    ensures var key := fs[i].key; SlotsFor(fs, i + 1, if key in slots then slots else slots[key := |slots|])
  {
    hide Uses, Numbered;
    var key := fs[i].key;
    if key !in slots { NumberedMore(slots, key); }
    forall k | k in slots || k == key ensures Uses(fs, i + 1, k) { UsesMore(fs, i, k); }
  }

  lemma {:induction false} SlotKept(fs: seq<Function>, i: nat, slots: Slots)
    requires i < |fs| && !IsMethod(fs[i]) && SlotsFor(fs, i, slots)
    ensures SlotsFor(fs, i + 1, slots)
  {
    hide Uses, Numbered;
    forall k | k in slots ensures Uses(fs, i + 1, k) { UsesMore(fs, i, k); }
  }

  /** The slots are dense: each number below the count is the slot of some signature. */
  lemma {:induction false} SlotsAreDense(fs: seq<Function>, slots: Slots, s: nat)
    requires SlotsFor(fs, |fs|, slots) && s < |slots|
    ensures exists key :: key in slots && slots[key] == s
  {
    var used := set key | key in slots :: slots[key];
    ImageSize(slots, slots.Keys);
    var all := UpTo(|slots|);
    assert used <= all && |used| == |slots.Keys| == |slots| == |all|;
    SameSize(used, all);
    assert s in used;
  }

  ghost function UpTo(n: nat): (r: set<nat>)
    ensures |r| == n && forall k: nat :: k in r <==> k < n
  {
    if n == 0 then {} else UpTo(n - 1) + {n - 1}
  }

  lemma {:induction false} SameSize(a: set<nat>, b: set<nat>)
    requires a <= b && |a| == |b|
    ensures a == b
  {
    assert |b| == |a| + |b - a| by { assert b == a + (b - a); }
  }

  /** An injective table has as many slots as signatures. */
  lemma {:induction false} ImageSize(slots: Slots, keys: set<Signature>)
    requires keys <= slots.Keys && forall a, b :: a in slots && b in slots && slots[a] == slots[b] ==> a == b
    ensures |set key | key in keys :: slots[key]| == |keys|
    decreases keys
  {
    if keys != {} {
      var k :| k in keys;
      ImageSize(slots, keys - {k});
      assert (set key | key in keys :: slots[key]) == (set key | key in keys - {k} :: slots[key]) + {slots[k]};
      assert slots[k] !in (set key | key in keys - {k} :: slots[key]);
    }
  }

  // ---------- one class ----------

  /** The chain of a class and its ancestors, nearest first. */
  method Ancestors(parents: Parents, c: string, ghost rank: map<string, nat>) returns (chain: seq<string>)
    requires Acyclic(parents, rank)
    ensures chain == Chain(parents, rank, c)
  {
    hide Acyclic, Parent;
    chain := [];
    var cur := c;
    while cur != ""
      invariant chain + Chain(parents, rank, cur) == Chain(parents, rank, c)
      decreases Rank(rank, cur)
    {
      RankFalls(parents, rank, cur);
      chain := chain + [cur];
      assert chain + Chain(parents, rank, Parent(parents, cur)) == chain[..|chain| - 1] + ([cur] + Chain(parents, rank, Parent(parents, cur)));
      cur := Parent(parents, cur);
    }
    assert chain + [] == chain;
  }

  /** Slot by slot, `table` holds what the classes of `chain` declare, the nearest winning. */
  ghost predicate Holds(fs: seq<Function>, slots: Slots, chain: seq<string>, table: seq<Option<nat>>) {
    |table| == |slots| && forall key :: key in slots && slots[key] < |table| ==> table[slots[key]] == WalkChain(fs, chain, key)
  }

  /** The same after the first `n` functions of the class `c` were entered on top. */
  ghost predicate Entered(fs: seq<Function>, slots: Slots, c: string, n: nat, below: seq<string>, table: seq<Option<nat>>)
    requires n <= |fs|
  {
    && |table| == |slots|
    && forall key :: key in slots && slots[key] < |table| ==>
         table[slots[key]] == if Declared(fs, n, c, key).Some? then Declared(fs, n, c, key) else WalkChain(fs, below, key)
  }

  /** Enter the methods of `c`, overwriting what its ancestors put there. */
  method EnterClass(fs: seq<Function>, slots: Slots, c: string, table: array<Option<nat>>, ghost below: seq<string>)
    requires SlotsFor(fs, |fs|, slots) && c != "" && Holds(fs, slots, below, table[..])
    modifies table
    ensures Holds(fs, slots, [c] + below, table[..])
  {
    hide WalkChain;
    for i := 0 to |fs|
      invariant Entered(fs, slots, c, i, below, table[..])
    {
      var f := fs[i];
      if f.isStatic || f.owner != c { continue; }
      assert IsMethod(f) && f.key in slots;
      table[slots[f.key]] := Some(i);
    }
    EnteredAll(fs, slots, c, below, table[..]);
  }

  lemma {:induction false} EnteredAll(fs: seq<Function>, slots: Slots, c: string, below: seq<string>, table: seq<Option<nat>>)
    requires Entered(fs, slots, c, |fs|, below, table)
    ensures Holds(fs, slots, [c] + below, table)
  {
    hide Declared;
    assert ([c] + below)[1..] == below;
  }

  /** `buildForClass`: from the root of the hierarchy down to the class. */
  method BuildForClass(fs: seq<Function>, slots: Slots, parents: Parents, c: string, ghost rank: map<string, nat>)
    returns (vtable: seq<Option<nat>>)
    requires Acyclic(parents, rank) && SlotsFor(fs, |fs|, slots)
    ensures |vtable| == |slots|
    ensures forall key :: key in slots ==> vtable[slots[key]] == Walk(fs, parents, rank, c, key)
  {
    hide Acyclic;
    var table := new Option<nat>[|slots|](_ => None);
    var chain := Ancestors(parents, c, rank);
    ChainNames(parents, rank, c);
    var j := |chain|;
    assert chain[j..] == [];
    while j > 0
      invariant j <= |chain| && Holds(fs, slots, chain[j..], table[..])
    {
      j := j - 1;
      assert chain[j..] == [chain[j]] + chain[j + 1..];
      EnterClass(fs, slots, chain[j], table, chain[j + 1..]);
    }
    assert chain[0..] == chain;
    vtable := table[..];
    forall key | key in slots ensures vtable[slots[key]] == Walk(fs, parents, rank, c, key) {
      WalkIsChain(fs, parents, rank, c, key);
    }
  }

  lemma {:induction false} ChainNames(parents: Parents, rank: map<string, nat>, c: string)
    requires Acyclic(parents, rank)
    ensures forall i :: 0 <= i < |Chain(parents, rank, c)| ==> Chain(parents, rank, c)[i] != ""
    decreases Rank(rank, c)
  {
    if c != "" { ChainNames(parents, rank, Parent(parents, c)); }
  }

  // ---------- all classes ----------

  datatype Tables = Tables(methodSlots: Slots, classVTables: map<string, seq<Option<nat>>>)

  ghost function Classes(fs: seq<Function>, parents: Parents): set<string> {
    (set f | f in fs && IsMethod(f) :: f.owner) + parents.Keys
  }

  /** Every class has a table, and every slot of it holds exactly what walking up from the class finds. */
  ghost predicate Right(fs: seq<Function>, parents: Parents, rank: map<string, nat>, t: Tables)
    requires Acyclic(parents, rank)
  {
    && SlotsFor(fs, |fs|, t.methodSlots)
    && t.classVTables.Keys == Classes(fs, parents)
    && forall c :: c in t.classVTables ==> Correct(fs, parents, rank, t.methodSlots, c, t.classVTables[c])
  }

  ghost predicate Correct(fs: seq<Function>, parents: Parents, rank: map<string, nat>, slots: Slots, c: string, vtable: seq<Option<nat>>)
    requires Acyclic(parents, rank)
  {
    |vtable| == |slots| && forall key :: key in slots && slots[key] < |vtable| ==> vtable[slots[key]] == Walk(fs, parents, rank, c, key)
  }

  method CollectClasses(fs: seq<Function>, parents: Parents) returns (classes: set<string>)
    ensures classes == Classes(fs, parents)
  {
    classes := {};
    for i := 0 to |fs|
      invariant forall c :: c in classes <==> exists k :: 0 <= k < i && IsMethod(fs[k]) && fs[k].owner == c
    {
      if !fs[i].isStatic && fs[i].owner != "" { classes := classes + {fs[i].owner}; }
    }
    forall c ensures c in classes <==> c in (set f | f in fs && IsMethod(f) :: f.owner) {}
    classes := classes + parents.Keys;
  }

  /** `buildDispatchTables`. */
  method BuildDispatchTables(fs: seq<Function>, parents: Parents, ghost rank: map<string, nat>) returns (t: Tables)
    requires Acyclic(parents, rank)
    ensures Right(fs, parents, rank, t)
  {
    hide Acyclic, Correct, SlotsFor, Classes;
    var slots := AssignSlots(fs);
    var classes := CollectClasses(fs, parents);
    var tables: map<string, seq<Option<nat>>> := map[];
    var left := classes;
    while left != {}
      invariant left <= classes && tables.Keys == classes - left
      invariant forall c :: c in tables ==> Correct(fs, parents, rank, slots, c, tables[c])
      decreases left
    {
      var c :| c in left;
      var vtable := BuildForClass(fs, slots, parents, c, rank);
      IsCorrect(fs, parents, rank, slots, c, vtable);
      tables := tables[c := vtable];
      left := left - {c};
    }
    t := Tables(slots, tables);
  }

  lemma {:induction false} IsCorrect(fs: seq<Function>, parents: Parents, rank: map<string, nat>, slots: Slots, c: string, vtable: seq<Option<nat>>)
    requires Acyclic(parents, rank) && |vtable| == |slots| && SlotsFor(fs, |fs|, slots)
    requires forall key :: key in slots ==> vtable[slots[key]] == Walk(fs, parents, rank, c, key)
    ensures Correct(fs, parents, rank, slots, c, vtable)
  {
    hide Walk;
  }

  /** A slot of a finished table against the compiler's walk. */
  lemma {:induction false} SlotAgrees(fs: seq<Function>, parents: Parents, rank: map<string, nat>, t: Tables, c: string, key: Signature)
    requires Acyclic(parents, rank) && Right(fs, parents, rank, t) && c in t.classVTables && key in t.methodSlots
    ensures t.methodSlots[key] < |t.classVTables[c]|
    ensures t.classVTables[c][t.methodSlots[key]] == IndexWalk(fs, parents, rank, c, key) <==> NearestIsMethod(fs, parents, rank, c, key)
  {
    hide Walk, IndexWalk, NearestIsMethod;
    assert Correct(fs, parents, rank, t.methodSlots, c, t.classVTables[c]);
    WalksAgree(fs, parents, rank, c, key);
  }
}

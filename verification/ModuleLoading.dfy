/** Loading a program and its imports (src/compiler/module_loader.cpp with the marks of src/compiler/module_graph.cpp): a
    depth-first walk that succeeds exactly on import graphs without cycles and without missing modules. */
module ModuleLoading {
  import opened Wrappers

  /** The imports each module declares; none where the module cannot be found or does not parse. */
  type Files = string -> Option<seq<string>>

  predicate Imports(files: Files, a: string, b: string) {
    files(a).Some? && b in files(a).value
  }

  ghost predicate IsPath(files: Files, p: seq<string>) {
    p != [] && forall k :: 0 <= k < |p| - 1 ==> Imports(files, p[k], p[k + 1])
  }

  ghost predicate Reaches(files: Files, a: string, b: string) {
    exists p :: IsPath(files, p) && p[0] == a && p[|p| - 1] == b
  }

  /** Following imports from `a` leads back to `a`. */
  ghost predicate OnCycle(files: Files, a: string) {
    exists p :: IsPath(files, p) && |p| >= 2 && p[0] == a && p[|p| - 1] == a
  }

  lemma {:induction false} ReachesSelf(files: Files, a: string)
    ensures Reaches(files, a, a)
  {
    assert IsPath(files, [a]) && [a][0] == a && [a][|[a]| - 1] == a;
  }

  lemma {:induction false} PathSnoc(files: Files, p: seq<string>, b: string)
    requires IsPath(files, p) && Imports(files, p[|p| - 1], b)
    ensures IsPath(files, p + [b])
  {
    var q := p + [b];
    forall k | 0 <= k < |q| - 1 ensures Imports(files, q[k], q[k + 1]) {
      if k < |p| - 1 { assert q[k] == p[k] && q[k + 1] == p[k + 1]; }
    }
  }

  lemma {:induction false} PathSuffix(files: Files, p: seq<string>, i: nat)
    requires IsPath(files, p) && i < |p|
    ensures IsPath(files, p[i..])
  {
    forall k | 0 <= k < |p[i..]| - 1 ensures Imports(files, p[i..][k], p[i..][k + 1]) {
      assert Imports(files, p[i + k], p[i + k + 1]);
    }
  }

  lemma {:induction false} PathReaches(files: Files, p: seq<string>, i: nat)
    requires IsPath(files, p) && i < |p|
    ensures Reaches(files, p[0], p[i])
  {
    var q := p[..i + 1];
    forall k | 0 <= k < |q| - 1 ensures Imports(files, q[k], q[k + 1]) {
      assert Imports(files, p[k], p[k + 1]);
    }
    assert IsPath(files, q) && q[0] == p[0] && q[|q| - 1] == p[i];
  }

  // ---------- what a finished order says ----------

  /** Every module of `order` exists and imports only modules that come earlier. */
  ghost predicate Layered(files: Files, order: seq<string>) {
    && (forall i :: 0 <= i < |order| ==> files(order[i]).Some?)
    && (forall i, b :: 0 <= i < |order| && Imports(files, order[i], b) ==> b in order[..i])
  }

  ghost predicate NoRepeats(s: seq<string>) {
    forall i, j :: 0 <= i < j < |s| ==> s[i] != s[j]
  }

  lemma {:induction false} LayeredSnoc(files: Files, order: seq<string>, a: string)
    requires Layered(files, order) && files(a).Some? && forall b :: Imports(files, a, b) ==> b in order
    ensures Layered(files, order + [a])
  {
    var more := order + [a];
    forall i, b | 0 <= i < |more| && Imports(files, more[i], b) ensures b in more[..i] {
      if i < |order| {
        assert more[..i] == order[..i] && Imports(files, order[i], b);
      } else {
        assert more[..i] == order;
      }
    }
  }

  /** A path that starts in the order stays in it and goes strictly back. */
  lemma {:induction false} GoesBack(files: Files, order: seq<string>, p: seq<string>, i: nat, k: nat) returns (j: nat)
    requires Layered(files, order) && IsPath(files, p) && i < |order| && order[i] == p[0] && k < |p|
    ensures j <= i && order[j] == p[k] && (k > 0 ==> j < i)
  {
    if k == 0 { return i; }
    var m := GoesBack(files, order, p, i, k - 1);
    assert Imports(files, p[k - 1], p[k - 1 + 1]);
    assert Imports(files, order[m], p[k]);
    assert p[k] in order[..m];
    j :| 0 <= j < |order[..m]| && order[..m][j] == p[k];
  }

  /** Nothing in a layered order without repetitions is on a cycle. */
  lemma {:induction false} LayeredHasNoCycle(files: Files, order: seq<string>, a: string)
    requires Layered(files, order) && NoRepeats(order) && a in order
    ensures !OnCycle(files, a)
  {
    if OnCycle(files, a) {
      var p :| IsPath(files, p) && |p| >= 2 && p[0] == a && p[|p| - 1] == a;
      var i :| 0 <= i < |order| && order[i] == a;
      var j := GoesBack(files, order, p, i, |p| - 1);
      assert false;
    }
  }

  lemma {:induction false} LayeredHoldsReachable(files: Files, order: seq<string>, a: string, b: string)
    requires Layered(files, order) && a in order && Reaches(files, a, b)
    ensures b in order && files(b).Some?
  {
    var p :| IsPath(files, p) && p[0] == a && p[|p| - 1] == b;
    var i :| 0 <= i < |order| && order[i] == a;
    var j := GoesBack(files, order, p, i, |p| - 1);
  }

  /** What can be loaded: everything reachable exists, and nothing reachable is on a cycle. */
  ghost predicate Loadable(files: Files, entry: string) {
    forall m :: Reaches(files, entry, m) ==> files(m).Some? && !OnCycle(files, m)
  }

  // ---------- the order of loading ----------

  /** The import tree below `name`, read in pre-order: a module, then the trees of its imports in the order it lists them.
      None if the tree is higher than `height` or a module is missing. */
  ghost function Tree(files: Files, name: string, height: nat): Option<seq<string>>
    decreases height, 0
  {
    if height == 0 || files(name).None? then None else
    var below := Trees(files, files(name).value, height - 1);
    if below.None? then None else Some([name] + below.value)
  }

  ghost function Trees(files: Files, names: seq<string>, height: nat): Option<seq<string>>
    decreases height, 1 + |names|
  {
    if names == [] then Some([]) else
    var before, last := Trees(files, names[..|names| - 1], height), Tree(files, names[|names| - 1], height);
    if before.None? || last.None? then None else Some(before.value + last.value)
  }

  /** `known`, then what else occurs in `s`, each at its first occurrence. */
  ghost function Adds(known: seq<string>, s: seq<string>): seq<string>
    decreases |s|
  {
    if s == [] then known else Adds(if s[0] in known then known else known + [s[0]], s[1..])
  }

  lemma {:induction false} AddsConcat(known: seq<string>, a: seq<string>, b: seq<string>)
    ensures Adds(known, a + b) == Adds(Adds(known, a), b)
    decreases |a|
  {
    if a == [] {
      assert a + b == b;
    } else {
      assert (a + b)[0] == a[0] && (a + b)[1..] == a[1..] + b;
      AddsConcat(if a[0] in known then known else known + [a[0]], a[1..], b);
    }
  }

  /** An element is added at the end exactly if it is neither known nor met before. */
  lemma {:induction false} AddsLast(known: seq<string>, s: seq<string>, x: string)
    ensures Adds(known, s + [x]) == if x in known || x in s then Adds(known, s) else Adds(known, s) + [x]
  {
    AddsConcat(known, s, [x]);
    assert [x][1..] == [];
    AddsHolds(known, s, x);
  }

  lemma {:induction false} AddsHolds(known: seq<string>, s: seq<string>, x: string)
    ensures x in Adds(known, s) <==> x in known || x in s
    decreases |s|
  {
    if s != [] { AddsHolds(if s[0] in known then known else known + [s[0]], s[1..], x); }
  }

  lemma {:induction false} AddsNothing(known: seq<string>, s: seq<string>)
    requires forall x :: x in s ==> x in known
    ensures Adds(known, s) == known
  {
    if s != [] { AddsNothing(known, s[1..]); }
  }

  /** Loading `name` onto `known` gave `merged`: the first occurrences in the import tree below `name`, however high a tree is
      looked at. */
  ghost predicate InTreeOrder(files: Files, known: seq<string>, name: string, merged: seq<string>) {
    forall height: nat :: Tree(files, name, height).Some? ==> merged == Adds(known, Tree(files, name, height).value)
  }

  ghost predicate InTreesOrder(files: Files, known: seq<string>, names: seq<string>, merged: seq<string>) {
    forall height: nat :: Trees(files, names, height).Some? ==> merged == Adds(known, Trees(files, names, height).value)
  }

  /** The modules merged are those of the import tree of the entry, in pre-order, each where it first occurs. */
  ghost predicate InPreOrder(files: Files, entry: string, merged: seq<string>) {
    InTreeOrder(files, [], entry, merged) && exists height: nat :: Tree(files, entry, height).Some?
  }

  lemma {:induction false} NoTrees(files: Files, known: seq<string>)
    ensures InTreesOrder(files, known, [], known)
  {
  }

  lemma {:induction false} OneMoreTree(files: Files, known: seq<string>, names: seq<string>, i: nat, before: seq<string>, merged: seq<string>)
    requires i < |names| && InTreesOrder(files, known, names[..i], before) && InTreeOrder(files, before, names[i], merged)
    ensures InTreesOrder(files, known, names[..i + 1], merged)
  {
    hide Adds, Tree;
    var more := names[..i + 1];
    assert more[..|more| - 1] == names[..i] && more[|more| - 1] == names[i];
    forall height: nat | Trees(files, more, height).Some? ensures merged == Adds(known, Trees(files, more, height).value) {
      AddsConcat(known, Trees(files, names[..i], height).value, Tree(files, names[i], height).value);
    }
  }

  lemma {:induction false} TreeFromTrees(files: Files, known: seq<string>, name: string, merged: seq<string>)
    requires files(name).Some? && name !in known && InTreesOrder(files, known + [name], files(name).value, merged)
    ensures InTreeOrder(files, known, name, merged)
  {
    hide Trees;
    forall height: nat | Tree(files, name, height).Some? ensures merged == Adds(known, Tree(files, name, height).value) {
      var below := Trees(files, files(name).value, height - 1);
      assert Adds(known, [name]) == Adds(known + [name], []) == known + [name];
      AddsConcat(known, [name], below.value);
    }
  }

  lemma {:induction false} TreeReached(files: Files, name: string, height: nat, x: string)
    requires Tree(files, name, height).Some? && x in Tree(files, name, height).value
    ensures Reaches(files, name, x)
    decreases height, 0
  {
    hide Reaches;
    if x == name {
      ReachesSelf(files, name);
    } else {
      var b := TreesReached(files, files(name).value, height - 1, x);
      StepThenReaches(files, name, b, x);
    }
  }

  lemma {:induction false} TreesReached(files: Files, names: seq<string>, height: nat, x: string) returns (b: string)
    requires Trees(files, names, height).Some? && x in Trees(files, names, height).value
    ensures b in names && Reaches(files, b, x)
    decreases height, 1 + |names|
  {
    hide Reaches;
    b := names[|names| - 1];
    if x in Tree(files, b, height).value {
      TreeReached(files, b, height, x);
    } else {
      b := TreesReached(files, names[..|names| - 1], height, x);
    }
  }

  lemma {:induction false} StepThenReaches(files: Files, a: string, b: string, c: string)
    requires Imports(files, a, b) && Reaches(files, b, c)
    ensures Reaches(files, a, c)
  {
    var p :| IsPath(files, p) && p[0] == b && p[|p| - 1] == c;
    var q := [a] + p;
    forall k | 0 <= k < |q| - 1 ensures Imports(files, q[k], q[k + 1]) {
      if k > 0 { assert Imports(files, p[k - 1], p[k - 1 + 1]); }
    }
    assert IsPath(files, q) && q[0] == a && q[|q| - 1] == c;
  }

  /** The tree below a finished module holds nothing new. */
  lemma {:induction false} FinishedTree(files: Files, finished: seq<string>, merged: seq<string>, name: string)
    requires Layered(files, finished) && name in finished && forall m :: m in finished ==> m in merged
    ensures InTreeOrder(files, merged, name, merged)
  {
    hide Tree, Layered, Reaches;
    forall height: nat | Tree(files, name, height).Some? ensures merged == Adds(merged, Tree(files, name, height).value) {
      forall x | x in Tree(files, name, height).value ensures x in merged {
        TreeReached(files, name, height, x);
        LayeredHoldsReachable(files, finished, name, x);
      }
      AddsNothing(merged, Tree(files, name, height).value);
    }
  }

  lemma {:induction false} TreeExists(files: Files, order: seq<string>, i: nat, height: nat)
    requires Layered(files, order) && i < |order| && i < height
    ensures Tree(files, order[i], height).Some?
    decreases height, 0
  {
    hide Layered;
    var names := files(order[i]).value by { assert files(order[i]).Some? by { LayeredAt(files, order, i); } }
    forall b | b in names ensures b in order[..i] { ImportsEarlier(files, order, i, b); }
    TreesExist(files, order, i, names, height - 1);
    LayeredAt(files, order, i);
  }

  lemma {:induction false} LayeredAt(files: Files, order: seq<string>, i: nat)
    requires Layered(files, order) && i < |order|
    ensures files(order[i]).Some?
  {
  }

  lemma {:induction false} ImportsEarlier(files: Files, order: seq<string>, i: nat, b: string)
    requires Layered(files, order) && i < |order| && Imports(files, order[i], b)
    ensures b in order[..i]
  {
  }

  lemma {:induction false} TreesExist(files: Files, order: seq<string>, i: nat, names: seq<string>, height: nat)
    requires Layered(files, order) && i < |order| && i <= height && forall b :: b in names ==> b in order[..i]
    ensures Trees(files, names, height).Some?
    decreases height, 1 + |names|
  {
    hide Layered;
    if names != [] {
      var last := names[|names| - 1];
      assert last in order[..i];
      var j :| 0 <= j < i && order[..i][j] == last;
      TreeExists(files, order, j, height);
      TreesExist(files, order, i, names[..|names| - 1], height);
    }
  }

  // ---------- the loader ----------

  datatype Outcome = Loaded | Missing(name: string) | Circular(name: string)

  /** A failure is never reported without a reason. */
  ghost predicate Witnessed(files: Files, entry: string, o: Outcome) {
    match o
    case Loaded => true
    case Missing(m) => Reaches(files, entry, m) && files(m).None?
    case Circular(m) => Reaches(files, entry, m) && OnCycle(files, m)
  }

  class ModuleLoader {
    const files: Files
    /** The modules merged so far, in order; the marks of the module graph. */
    var merged: seq<string>
    var resolved: set<string>
    var loading: set<string>
    /** The modules being loaded, outermost first, and those finished, in that order. */
    ghost var stack: seq<string>
    ghost var finished: seq<string>

    constructor (files: Files)
      ensures this.files == files && merged == [] && resolved == {} && loading == {} && stack == [] && finished == []
    {
      this.files, merged, resolved, loading := files, [], {}, {};
      stack, finished := [], [];
    }

    /** The marks agree with the ghost stack; `unmerged` is being loaded but not merged yet. */
    ghost predicate Marks(unmerged: Option<string>)
      reads this
    {
      && (forall m :: m in loading <==> m in stack)
      && (forall m :: m in resolved ==> m in stack || m in finished)
      && (forall m :: m in finished ==> m in resolved)
      && (forall m :: m in merged <==> (m in stack && unmerged != Some(m)) || m in finished)
      && (forall m :: m in stack ==> m !in finished)
      && NoRepeats(merged) && NoRepeats(finished) && NoRepeats(stack) && Layered(files, finished)
    }

    /** The stack leads from the entry to the module being loaded. */
    ghost predicate Chain(entry: string)
      reads this
    {
      stack != [] && stack[0] == entry && IsPath(files, stack) && (forall m :: m in finished ==> Reaches(files, entry, m))
    }

    /** `loadInto`: merge the module, then its imports that are not loaded yet, in order. */
    method LoadInto(name: string, ghost entry: string, ghost all: set<string>) returns (r: Outcome)
      requires Marks(Some(name)) && Chain(entry) && stack[|stack| - 1] == name
      requires name in all && resolved <= all && forall a, b :: a in all && Imports(files, a, b) ==> b in all
      modifies this
      ensures r.Loaded? ==> Marks(None) && Chain(entry) && stack == old(stack) && resolved >= old(resolved) && resolved <= all
      ensures r.Loaded? ==> files(name).Some? && (forall b :: Imports(files, name, b) ==> b in finished)
      ensures r.Loaded? ==> InTreeOrder(files, old(merged), name, merged)
      ensures Witnessed(files, entry, r)
      decreases all - resolved
    {
      hide Layered, IsPath, NoRepeats, Witnessed, Reaches, OnCycle, InTreeOrder, InTreesOrder;
      if files(name).None? {
        StackReached(entry, |stack| - 1);
        IsMissing(files, entry, name);
        return Missing(name);
      }
      MergeFresh(merged, name);
      merged := merged + [name];
      assert Marks(None);
      var imports := files(name).value;
      NoTrees(files, merged);
      assert imports[..0] == [];
      for i := 0 to |imports|
        invariant Marks(None) && Chain(entry) && stack == old(stack) && old(resolved) <= resolved <= all
        invariant forall j :: 0 <= j < i ==> imports[j] in finished
        invariant InTreesOrder(files, old(merged) + [name], imports[..i], merged)
      {
        var imp := imports[i];
        assert Imports(files, name, imp);
        if imp in loading {
          ClosesCycle(entry, imp);
          return Circular(imp);
        }
        ghost var before, left := merged, all - resolved;
        if imp in resolved {
          FinishedTree(files, finished, merged, imp);
          OneMoreTree(files, old(merged) + [name], imports, i, before, merged);
          continue;
        }
        NotYet(imp);
        Begin(entry, imp);
        assert all - resolved < left by { assert imp in left && imp !in all - resolved; }
        r := LoadInto(imp, entry, all);
        if !r.Loaded? { return; }
        End(entry, imp, old(stack));
        OneMoreTree(files, old(merged) + [name], imports, i, before, merged);
      }
      assert imports[..|imports|] == imports;
      TreeFromTrees(files, old(merged), name, merged);
      r := Loaded;
      IsLoaded(files, entry);
    }

    /** `recordResolved` and `beginLoading`. */
    method Begin(ghost entry: string, imp: string)
      requires Marks(None) && Chain(entry) && Imports(files, stack[|stack| - 1], imp) && imp !in stack && imp !in finished
      modifies this`resolved, this`loading, this`stack
      ensures Marks(Some(imp)) && Chain(entry) && stack == old(stack) + [imp] && resolved == old(resolved) + {imp}
    {
      hide Layered, IsPath, Reaches;
      PathSnoc(files, stack, imp);
      resolved := resolved + {imp};
      loading := loading + {imp};
      stack := stack + [imp];
    }

    /** `endLoading`: everything the module imports is finished, so the module is. */
    method End(ghost entry: string, imp: string, ghost outer: seq<string>)
      requires Marks(None) && Chain(entry) && stack == outer + [imp] && outer != [] && imp in resolved
      requires files(imp).Some? && forall b :: Imports(files, imp, b) ==> b in finished
      modifies this`loading, this`stack, this`finished
      ensures Marks(None) && Chain(entry) && stack == outer && finished == old(finished) + [imp]
    {
      hide Layered, IsPath, Reaches;
      StackReached(entry, |stack| - 1);
      LayeredSnoc(files, finished, imp);
      PathFront(files, stack);
      assert stack[..|stack| - 1] == outer;
      assert imp !in outer;
      loading := loading - {imp};
      stack := outer;
      finished := finished + [imp];
    }

    lemma StackReached(entry: string, i: nat)
      requires Chain(entry) && i < |stack|
      ensures Reaches(files, entry, stack[i])
    {
      PathReaches(files, stack, i);
    }

    lemma NotYet(imp: string)
      requires Marks(None) && imp !in loading && imp !in resolved
      ensures imp !in stack && imp !in finished
    {
    }

    /** Importing a module that is still being loaded closes a cycle through it. */
    lemma ClosesCycle(entry: string, imp: string)
      requires Marks(None) && Chain(entry) && imp in loading && Imports(files, stack[|stack| - 1], imp)
      ensures Witnessed(files, entry, Circular(imp))
    {
      hide IsPath, Layered, Reaches;
      var i :| 0 <= i < |stack| && stack[i] == imp;
      StackReached(entry, i);
      PathSuffix(files, stack, i);
      PathSnoc(files, stack[i..], imp);
      var p := stack[i..] + [imp];
      assert IsPath(files, p) && |p| >= 2 && p[0] == imp && p[|p| - 1] == imp;
    }

    /** With everything the entry imports finished, the program is loaded. */
    lemma WholeProgram(entry: string)
      requires Marks(None) && Chain(entry) && stack == [entry] && InTreeOrder(files, [], entry, merged)
      requires files(entry).Some? && forall b :: Imports(files, entry, b) ==> b in finished
      ensures Loadable(files, entry) && NoRepeats(merged) && merged != [] && merged[0] == entry
      ensures (forall m :: m in merged <==> Reaches(files, entry, m)) && InPreOrder(files, entry, merged) && loading == {entry}
    {
      hide Reaches, Layered, IsPath, InTreeOrder;
      var order := finished + [entry];
      LayeredSnoc(files, finished, entry);
      assert stack[0] == entry && entry in stack;
      MergeFresh(finished, entry);
      assert order[|finished|] == entry;
      Complete(files, entry, order);
      TreeExists(files, order, |finished|, |finished| + 1);
      EntryFirst(files, entry, merged, |finished| + 1);
      forall m | m in merged ensures Reaches(files, entry, m) { if m !in finished { ReachesSelf(files, entry); } }
    }

    /** `load`: succeeds exactly when the program can be loaded; then every reachable module is merged once, in the
        pre-order of the import lists. A failure names a reachable module that is missing or on a cycle. */
    method Load(entry: string, ghost all: set<string>) returns (r: Outcome)
      requires merged == [] && resolved == {} && loading == {} && stack == [] && finished == []
      requires entry in all && forall a, b :: a in all && Imports(files, a, b) ==> b in all
      modifies this
      ensures r.Loaded? <==> Loadable(files, entry)
      ensures Witnessed(files, entry, r)
      ensures r.Loaded? ==> NoRepeats(merged) && merged != [] && merged[0] == entry
      ensures r.Loaded? ==> forall m :: m in merged <==> Reaches(files, entry, m)
      ensures r.Loaded? ==> InPreOrder(files, entry, merged) && loading == {}
    {
      loading := loading + {entry};
      stack := [entry];
      r := LoadInto(entry, entry, all);
      hide Reaches, Layered, IsPath, InTreeOrder, NoRepeats, Witnessed, Loadable;
      if r.Loaded? {
        WholeProgram(entry);
        loading := loading - {entry};
      } else {
        NotLoadable(files, entry, r);
      }
    }
  }

  /** Whatever is loaded first comes first. */
  lemma {:induction false} EntryFirst(files: Files, entry: string, merged: seq<string>, height: nat)
    requires InTreeOrder(files, [], entry, merged) && Tree(files, entry, height).Some?
    ensures merged != [] && merged[0] == entry
  {
    var t := Tree(files, entry, height).value;
    assert t[0] == entry && merged == Adds([] + [entry], t[1..]);
    KnownStays([] + [entry], t[1..]);
  }

  lemma {:induction false} KnownStays(known: seq<string>, s: seq<string>)
    ensures known <= Adds(known, s)
    decreases |s|
  {
    if s != [] { KnownStays(if s[0] in known then known else known + [s[0]], s[1..]); }
  }

  lemma {:induction false} MergeFresh(merged: seq<string>, name: string)
    requires NoRepeats(merged) && name !in merged
    ensures NoRepeats(merged + [name])
  {
  }

  lemma {:induction false} PathFront(files: Files, p: seq<string>)
    requires IsPath(files, p) && |p| >= 2
    ensures IsPath(files, p[..|p| - 1])
  {
    var q := p[..|p| - 1];
    forall k | 0 <= k < |q| - 1 ensures Imports(files, q[k], q[k + 1]) { assert Imports(files, p[k], p[k + 1]); }
  }

  lemma {:induction false} IsMissing(files: Files, entry: string, name: string)
    requires Reaches(files, entry, name) && files(name).None?
    ensures Witnessed(files, entry, Missing(name))
  {
  }

  lemma {:induction false} IsLoaded(files: Files, entry: string)
    ensures Witnessed(files, entry, Loaded)
  {
  }

  lemma {:induction false} Complete(files: Files, entry: string, order: seq<string>)
    requires Layered(files, order) && NoRepeats(order) && entry in order
    ensures Loadable(files, entry) && forall m :: Reaches(files, entry, m) ==> m in order
  {
    hide Layered, NoRepeats, Reaches, OnCycle;
    forall m | Reaches(files, entry, m) ensures m in order && files(m).Some? && !OnCycle(files, m) {
      LayeredHoldsReachable(files, order, entry, m);
      LayeredHasNoCycle(files, order, m);
    }
  }

  lemma {:induction false} NotLoadable(files: Files, entry: string, o: Outcome)
    requires Witnessed(files, entry, o) && !o.Loaded?
    ensures !Loadable(files, entry)
  {
    hide Reaches, OnCycle;
  }
}

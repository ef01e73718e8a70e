/** In an unchanged world the lock is a faithful cache of the resolver: a lock written from a resolution is accepted,
    and gives that very resolution back. */
module LockReuse {
  import opened Wrappers
  import opened PackageWorld
  import opened Fingerprints
  import opened PackageResolver
  import opened PackageLock

  /** Every commit the resolver fetched is still in the cache. */
  ghost predicate AllCached(w: World, deps: seq<Resolved<Dir>>) {
    forall k :: 0 <= k < |deps| && deps[k].kind == Git ==> w.cached(deps[k].name, deps[k].resolvedRef)
  }

  predicate DepOk(dep: Dep) {
    ValidName(dep.name) && (dep.kind == Path ==> dep.ref == "")
  }

  lemma {:induction false} FromParsed(dir: Dir, m: Manifest, e: Edge)
    requires Parsed(m) && e in EdgesFrom(dir, m)
    ensures DepOk(e.dep) && e.from == dir && Declares(m, e.dep.name)
  {
    hide ValidName;
    var i :| 0 <= i < |EdgesFrom(dir, m)| && EdgesFrom(dir, m)[i] == e;
    assert e.dep == m.deps[i];
  }

  lemma {:induction false} Declared(dir: Dir, m: Manifest, i: nat)
    requires i < |m.deps|
    ensures Edge(dir, m.deps[i]) in EdgesFrom(dir, m)
  {
    assert EdgesFrom(dir, m)[i] == Edge(dir, m.deps[i]);
  }

  /** Every reachable declaration was made by a manifest that parses. */
  lemma {:induction false} ReachableDep(w: World, root: Manifest, e: Edge)
    requires Parsed(root) && Reachable(w, root, e)
    ensures DepOk(e.dep)
  {
    hide Find, Package, Parsed, EdgesFrom, DepOk;
    var p: seq<Edge> :| IsChain(w, root, p) && p[|p| - 1] == e;
    if |p| == 1 {
      FromParsed(Project, root, e);
    } else {
      var k := |p| - 2;
      assert Follows(w, p[k], p[k + 1]);
      var id := Find(w, p[k]).value;
      PackageParsed(w, p[k].dep.name, id);
      FromParsed(DirFor(p[k].dep.name, id), Package(w, p[k].dep.name, id).value, e);
    }
  }

  lemma {:induction false} PackageParsed(w: World, name: string, id: Identity)
    ensures Package(w, name, id).Some? ==> Parsed(Package(w, name, id).value) && Load(w, DirFor(name, id)) == Package(w, name, id)
  {
    hide Parsed;
  }

  // ---------- entries ----------

  /** An entry that declaration `e` made is fresh and rebuilds to itself, provided the root does not override `e`. */
  lemma {:induction false} FreshFromEdge(w: World, root: Manifest, e: Edge)
    requires EdgeOk(w, e) && DepOk(e.dep)
    requires var decl := Declaration(root.deps, e.dep.name); decl.Some? ==> e == Edge(Project, decl.value)
    requires e.dep.kind == Git ==> w.cached(e.dep.name, Entry(w, e).resolvedRef)
    ensures var d := Entry(w, e);
            && EntryFresh(w, root, d) && Rebuilt(w, root, d) == d
            && LockedManifest(w, root, d) == Package(w, e.dep.name, Find(w, e).value)
  {
    hide ValidName, Parsed, Load, Declaration;
    LockedWhere(w, root, e);
    PackageParsed(w, e.dep.name, Find(w, e).value);
  }

  lemma {:induction false} LockedWhere(w: World, root: Manifest, e: Edge)
    requires EdgeOk(w, e)
    requires var decl := Declaration(root.deps, e.dep.name); decl.Some? ==> e == Edge(Project, decl.value)
    requires e.dep.kind == Git ==> w.cached(e.dep.name, Entry(w, e).resolvedRef)
    ensures LockedDir(w, root, Entry(w, e)) == Some(DirFor(e.dep.name, Find(w, e).value))
  {
    hide Package, Declaration;
  }

  /** The declaration that counts for entry `k`: the root's own where there is one. */
  lemma {:induction false} Source(w: World, root: Manifest, deps: seq<Resolved<Dir>>, ids: seq<Identity>, k: nat) returns (e: Edge)
    requires Parsed(root) && Resolution(w, root, deps, ids) && k < |deps|
    ensures Reachable(w, root, e) && EdgeOk(w, e) && deps[k] == Entry(w, e) && DepOk(e.dep)
    ensures var decl := Declaration(root.deps, e.dep.name); decl.Some? ==> e == Edge(Project, decl.value)
  {
    hide Reachable, EdgeOk, Parsed, Find, Package, DepOk;
    var decl := Declaration(root.deps, deps[k].name);
    if decl.Some? {
      e := Edge(Project, decl.value);
      var i :| 0 <= i < |root.deps| && root.deps[i] == decl.value;
      Declared(Project, root, i);
      assert PackageResolver.Listed(w, deps, e);
      var j :| 0 <= j < |deps| && deps[j] == Entry(w, e);
      SameName(deps, j, k);
      RootReachable(w, root, e);
    } else {
      assert Asked(w, root, deps[k]);
      e :| Reachable(w, root, e) && EdgeOk(w, e) && deps[k] == Entry(w, e);
    }
    ReachableDep(w, root, e);
  }

  lemma {:induction false} OwnEntryFresh(w: World, root: Manifest, deps: seq<Resolved<Dir>>, ids: seq<Identity>, k: nat)
    requires Parsed(root) && Resolution(w, root, deps, ids) && AllCached(w, deps) && k < |deps|
    ensures EntryFresh(w, root, deps[k]) && Rebuilt(w, root, deps[k]) == deps[k]
  {
    hide Reachable, EdgeOk, Parsed, Find, Package, DepOk, Resolution, EntryFresh, Declaration, LockedManifest, Rebuilt;
    var e := Source(w, root, deps, ids, k);
    FreshFromEdge(w, root, e);
  }

  lemma {:induction false} Standing(w: World, root: Manifest, deps: seq<Resolved<Dir>>, ids: seq<Identity>, e: Edge) returns (k: nat)
    requires Resolution(w, root, deps, ids) && Reachable(w, root, e)
    ensures StandsFor(w, deps, ids, e, k) && UniqueNames(deps)
  {
    hide Reachable, Asked, UniqueNames, StandsFor;
    assert Covered(w, deps, ids, e);
    k :| StandsFor(w, deps, ids, e, k);
  }

  /** A reachable declaration meets the entry of its name: the same package in the same place. */
  lemma {:induction false} Meets(w: World, root: Manifest, deps: seq<Resolved<Dir>>, ids: seq<Identity>, e: Edge) returns (k: nat)
    requires Parsed(root) && Resolution(w, root, deps, ids) && AllCached(w, deps) && Reachable(w, root, e)
    ensures k < |deps| && deps[k].name == e.dep.name && EdgeOk(w, e)
    ensures LockedManifest(w, root, deps[k]) == Package(w, e.dep.name, Find(w, e).value)
    ensures ByName(deps, e.dep.name) == Some(deps[k])
  {
    hide Reachable, Parsed, Find, Package, DepOk, EntryFresh, Declaration, LockedManifest, Rebuilt, ByName, AllCached, Resolution;
    hide DepsFingerprint, UniqueNames;
    k := Standing(w, root, deps, ids, e);
    NameAt(deps, k);
    var f := Source(w, root, deps, ids, k);
    var j := Standing(w, root, deps, ids, f);
    SameName(deps, j, k);
    if deps[k].kind == Git { CachedAt(w, deps, k); }
    FreshFromEdge(w, root, f);
  }

  lemma {:induction false} CachedAt(w: World, deps: seq<Resolved<Dir>>, k: nat)
    requires AllCached(w, deps) && k < |deps| && deps[k].kind == Git
    ensures w.cached(deps[k].name, deps[k].resolvedRef)
  {
  }

  // ---------- names ----------

  /** A name the locked manifests lead to is the name of a reachable declaration. */
  lemma {:induction false} NamedEdge(w: World, root: Manifest, deps: seq<Resolved<Dir>>, ids: seq<Identity>, p: seq<string>, k: nat)
    returns (e: Edge)
    requires Parsed(root) && Resolution(w, root, deps, ids) && AllCached(w, deps) && NameChain(w, root, deps, p) && k < |p|
    ensures Reachable(w, root, e) && e.dep.name == p[k]
  {
    hide Reachable, Parsed, Find, Package, Resolution, LockedManifest, ByName, AllCached, EdgeOk;
    if k == 0 {
      var i :| 0 <= i < |root.deps| && root.deps[i].name == p[0];
      e := Edge(Project, root.deps[i]);
      Declared(Project, root, i);
      RootReachable(w, root, e);
    } else {
      var f := NamedEdge(w, root, deps, ids, p, k - 1);
      assert Names(w, root, deps, p[k - 1], p[k - 1 + 1]);
      var j := Meets(w, root, deps, ids, f);
      var m := LockedManifest(w, root, deps[j]).value;
      var i :| 0 <= i < |m.deps| && m.deps[i].name == p[k];
      e := NextEdge(w, root, f, m, i);
    }
  }

  lemma {:induction false} NextEdge(w: World, root: Manifest, f: Edge, m: Manifest, i: nat) returns (e: Edge)
    requires EdgeOk(w, f) && Reachable(w, root, f) && Package(w, f.dep.name, Find(w, f).value) == Some(m) && i < |m.deps|
    ensures Reachable(w, root, e) && e.dep == m.deps[i]
  {
    hide Reachable, Find, Package, EdgesFrom;
    var dir := DirFor(f.dep.name, Find(w, f).value);
    e := Edge(dir, m.deps[i]);
    Declared(dir, m, i);
    ReachableNext(w, root, f, e);
  }

  /** The name of a reachable declaration is one the locked manifests lead to. */
  lemma {:induction false} EdgeNamed(w: World, root: Manifest, deps: seq<Resolved<Dir>>, ids: seq<Identity>, p: seq<Edge>, k: nat)
    requires Parsed(root) && Resolution(w, root, deps, ids) && AllCached(w, deps) && IsChain(w, root, p) && k < |p|
    ensures NameReached(w, root, deps, p[k].dep.name) && Reachable(w, root, p[k])
  {
    hide Reachable, Parsed, Find, Package, Resolution, LockedManifest, ByName, AllCached, NameReached, Declares, EdgesFrom;
    if k == 0 {
      FromParsed(Project, root, p[0]);
      RootReached(w, root, deps, p[0].dep.name);
      RootReachable(w, root, p[0]);
    } else {
      EdgeNamed(w, root, deps, ids, p, k - 1);
      assert Follows(w, p[k - 1], p[k - 1 + 1]);
      ReachableNext(w, root, p[k - 1], p[k]);
      var j := Meets(w, root, deps, ids, p[k - 1]);
      var id := Find(w, p[k - 1]).value;
      PackageParsed(w, p[k - 1].dep.name, id);
      FromParsed(DirFor(p[k - 1].dep.name, id), Package(w, p[k - 1].dep.name, id).value, p[k]);
      NextReached(w, root, deps, p[k - 1].dep.name, p[k].dep.name);
    }
  }

  lemma {:induction false} ReachedIsListed(w: World, root: Manifest, deps: seq<Resolved<Dir>>, ids: seq<Identity>, n: string)
    requires Parsed(root) && Resolution(w, root, deps, ids) && AllCached(w, deps) && NameReached(w, root, deps, n)
    ensures PackageLock.Listed(deps, n)
  {
    hide Parsed, Find, Package, Resolution, LockedManifest, ByName, AllCached, Reachable, Names, Declares;
    var p :| NameChain(w, root, deps, p) && p[|p| - 1] == n;
    var e := NamedEdge(w, root, deps, ids, p, |p| - 1);
    var k := Meets(w, root, deps, ids, e);
  }

  lemma {:induction false} ListedIsReached(w: World, root: Manifest, deps: seq<Resolved<Dir>>, ids: seq<Identity>, n: string)
    requires Parsed(root) && Resolution(w, root, deps, ids) && AllCached(w, deps) && PackageLock.Listed(deps, n)
    ensures NameReached(w, root, deps, n)
  {
    hide Parsed, Find, Package, Resolution, ByName, AllCached, Follows, RootEdges, NameReached, EdgeOk, DepOk, Declaration, Entry;
    var k := NameIndex(deps, n);
    var e := Source(w, root, deps, ids, k);
    EntryName(w, e);
    var p: seq<Edge> :| IsChain(w, root, p) && p[|p| - 1] == e;
    EdgeNamed(w, root, deps, ids, p, |p| - 1);
  }

  lemma {:induction false} EntryName(w: World, e: Edge)
    requires EdgeOk(w, e)
    ensures Entry(w, e).name == e.dep.name
  {
  }

  lemma {:induction false} OwnRootMatch(w: World, root: Manifest, deps: seq<Resolved<Dir>>, ids: seq<Identity>, i: nat)
    requires Parsed(root) && Resolution(w, root, deps, ids) && i < |root.deps|
    ensures RootMatch(root.deps[i], deps)
  {
    hide Reachable, Parsed, Find, Package, ByName;
    var e := Edge(Project, root.deps[i]);
    Declared(Project, root, i);
    assert PackageResolver.Listed(w, deps, e);
    var j :| 0 <= j < |deps| && deps[j] == Entry(w, e);
    NameAt(deps, j);
  }

  /** The lock written from a resolution is fresh, and every entry rebuilds to itself. */
  lemma {:induction false} OwnLockIsFresh(w: World, root: Manifest, deps: seq<Resolved<Dir>>, ids: seq<Identity>)
    requires Parsed(root) && Resolution(w, root, deps, ids) && AllCached(w, deps)
    ensures Fresh(w, root, LockFile(ManifestFingerprint(root), deps))
    ensures RebuiltAs(w, root, deps, deps)
  {
    hide Parsed, AllCached, EntryFresh, Rebuilt, NameReached, PackageLock.Listed, ManifestFingerprint, RootMatch, Reachable, Covered, Asked;
    forall i | 0 <= i < |deps| ensures EntryFresh(w, root, deps[i]) && Rebuilt(w, root, deps[i]) == deps[i] {
      OwnEntryFresh(w, root, deps, ids, i);
    }
    forall i | 0 <= i < |root.deps| ensures RootMatch(root.deps[i], deps) { OwnRootMatch(w, root, deps, ids, i); }
    forall n ensures NameReached(w, root, deps, n) <==> PackageLock.Listed(deps, n) {
      if NameReached(w, root, deps, n) { ReachedIsListed(w, root, deps, ids, n); }
      if PackageLock.Listed(deps, n) { ListedIsReached(w, root, deps, ids, n); }
    }
  }

  lemma {:induction false} RebuiltOnce(w: World, root: Manifest, deps: seq<Resolved<Dir>>, a: seq<Resolved<Dir>>, b: seq<Resolved<Dir>>)
    requires RebuiltAs(w, root, deps, a) && RebuiltAs(w, root, deps, b)
    ensures a == b
  {
    hide Rebuilt, EntryFresh;
  }

  /** `ensureInstalled`: reuse a fresh lock unless an update is asked for, else resolve and write a new lock. */
  method EnsureInstalled(w: World, root: Manifest, lock: Option<LockFile<Dir>>, update: bool, ghost all: set<Identity>)
    returns (r: Option<seq<Resolved<Dir>>>, written: Option<LockFile<Dir>>, ghost ids: seq<Identity>)
    requires Parsed(root) && FiniteWorld(w, root, all)
    ensures !update && lock.Some? && Fresh(w, root, lock.value) ==> r.Some? && RebuiltAs(w, root, lock.value.deps, r.value)
    ensures r.None? ==> written.None?
    ensures !update && lock.Some? && Fresh(w, root, lock.value) ==>
              written == if VersionMoved(lock.value.deps, r.value) then Some(LockFile(ManifestFingerprint(root), r.value)) else None
    ensures !(!update && lock.Some? && Fresh(w, root, lock.value)) ==>
              && (r.Some? <==> Consistent(w, root))
              && (r.Some? ==> Resolution(w, root, r.value, ids) && written == Some(LockFile(ManifestFingerprint(root), r.value)))
  {
    ids, written := [], None;
    hide Parsed, FiniteWorld, Fresh, RebuiltAs, Consistent, Resolution, ManifestFingerprint, VersionMoved;
    if !update && lock.Some? {
      r, written := TryUseLock(w, root, lock.value);
      if r.Some? { return r, written, []; }
    }
    r, ids := ResolveAll(w, root, all);
    if r.Some? { written := Some(LockFile(ManifestFingerprint(root), r.value)); }
  }

  /** Installing again in an unchanged world reuses the lock just written and gives the same list. */
  method InstallTwice(w: World, root: Manifest, ghost all: set<Identity>) returns (first: Option<seq<Resolved<Dir>>>, second: Option<seq<Resolved<Dir>>>)
    requires Parsed(root) && FiniteWorld(w, root, all)
    requires forall deps, ids :: Resolution(w, root, deps, ids) ==> AllCached(w, deps)
    ensures first.Some? <==> Consistent(w, root)
    ensures first == second
  {
    hide Parsed, FiniteWorld, Fresh, Consistent, Resolution, ManifestFingerprint, RebuiltAs, AllCached;
    ghost var ids, ids2;
    var written, written2;
    first, written, ids := EnsureInstalled(w, root, None, false, all);
    second, written2, ids2 := EnsureInstalled(w, root, written, false, all);
    if first.Some? {
      OwnLockIsFresh(w, root, first.value, ids);
      RebuiltOnce(w, root, first.value, first.value, second.value);
    }
  }
}

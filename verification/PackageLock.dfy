/** Reusing a lock (zlpkg/commands.cpp): when `tryUseLock` accepts one, what it then returns, and that a lock written
    from a resolution is accepted and gives that resolution back. */
module PackageLock {
  import opened Wrappers
  import opened PackageWorld
  import opened Fingerprints
  import opened PackageResolver

  function Declaration(deps: seq<Dep>, name: string): (r: Option<Dep>)
    ensures r.Some? ==> r.value in deps && r.value.name == name
  {
    if deps == [] then None else if deps[0].name == name then Some(deps[0]) else Declaration(deps[1..], name)
  }

  function ByName(deps: seq<Resolved<Dir>>, name: string): (r: Option<Resolved<Dir>>)
    ensures r.Some? ==> r.value in deps && r.value.name == name
    ensures r.None? ==> forall d :: d in deps ==> d.name != name
  {
    if deps == [] then None else if deps[0].name == name then Some(deps[0]) else ByName(deps[1..], name)
  }

  // ---------- one entry ----------

  /** Where a locked package is looked for: a root path dependency where the manifest says, another path dependency
      where the lock says, a git dependency in the verified cache entry of its commit. */
  function LockedDir(w: World, root: Manifest, d: Resolved<Dir>): Option<Dir> {
    var decl := Declaration(root.deps, d.name);
    match d.kind
    case Path => if decl.Some? then w.locate(Project, decl.value.source) else Some(d.dir)
    case Git => if w.cached(d.name, d.resolvedRef) then Some(Cache(d.name, d.resolvedRef)) else None
  }

  function LockedManifest(w: World, root: Manifest, d: Resolved<Dir>): Option<Manifest> {
    var dir := LockedDir(w, root, d);
    if dir.None? then None else Load(w, dir.value)
  }

  /** An entry that still describes what is there. */
  predicate EntryFresh(w: World, root: Manifest, d: Resolved<Dir>) {
    var decl := Declaration(root.deps, d.name);
    var m := LockedManifest(w, root, d);
    && ValidName(d.name)
    && m.Some? && m.value.name == d.name
    && (decl.Some? && decl.value.version != "" ==> m.value.version == decl.value.version)
    && d.depsFingerprint != "" && DepsFingerprint(m.value) == d.depsFingerprint
  }

  /** The entry as `tryUseLock` rebuilds it; the declaration in the root manifest wins over the lock. */
  function Rebuilt(w: World, root: Manifest, d: Resolved<Dir>): Resolved<Dir>
    requires EntryFresh(w, root, d)
  {
    var decl := Declaration(root.deps, d.name);
    var m := LockedManifest(w, root, d).value;
    Resolved(d.name, d.kind,
             if decl.Some? then decl.value.source else d.source,
             if d.kind == Path then "" else if decl.Some? then decl.value.ref else d.declaredRef,
             if d.kind == Path then "local" else d.resolvedRef,
             m.version, d.depsFingerprint, LockedDir(w, root, d).value)
  }

  // ---------- names ----------

  /** The package locked as `a` declares a dependency named `b`. */
  ghost predicate Names(w: World, root: Manifest, deps: seq<Resolved<Dir>>, a: string, b: string) {
    var d := ByName(deps, a);
    d.Some? && LockedManifest(w, root, d.value).Some? && Declares(LockedManifest(w, root, d.value).value, b)
  }

  ghost predicate Declares(m: Manifest, name: string) {
    exists i :: 0 <= i < |m.deps| && m.deps[i].name == name
  }

  ghost predicate NameChain(w: World, root: Manifest, deps: seq<Resolved<Dir>>, p: seq<string>) {
    && p != [] && Declares(root, p[0])
    && forall k :: 0 <= k < |p| - 1 ==> Names(w, root, deps, p[k], p[k + 1])
  }

  /** The manifests of the locked packages lead from the root to `name`. */
  ghost predicate NameReached(w: World, root: Manifest, deps: seq<Resolved<Dir>>, name: string) {
    exists p :: NameChain(w, root, deps, p) && p[|p| - 1] == name
  }

  lemma {:induction false} RootReached(w: World, root: Manifest, deps: seq<Resolved<Dir>>, name: string)
    requires Declares(root, name)
    ensures NameReached(w, root, deps, name)
  {
    assert NameChain(w, root, deps, [name]) && [name][|[name]| - 1] == name;
  }

  lemma {:induction false} NextReached(w: World, root: Manifest, deps: seq<Resolved<Dir>>, a: string, b: string)
    requires NameReached(w, root, deps, a) && Names(w, root, deps, a, b)
    ensures NameReached(w, root, deps, b)
  {
    hide Names, Declares;
    var p :| NameChain(w, root, deps, p) && p[|p| - 1] == a;
    var q := p + [b];
    forall k | 0 <= k < |q| - 1 ensures Names(w, root, deps, q[k], q[k + 1]) {
      if k < |p| - 1 { assert q[k] == p[k] && q[k + 1] == p[k + 1]; }
    }
    assert NameChain(w, root, deps, q) && q[|q| - 1] == b;
  }

  lemma {:induction false} ClosedNames(w: World, root: Manifest, deps: seq<Resolved<Dir>>, names: set<string>, p: seq<string>, k: nat)
    requires forall n :: Declares(root, n) ==> n in names
    requires forall a, b :: a in names && Names(w, root, deps, a, b) ==> b in names
    requires NameChain(w, root, deps, p) && k < |p|
    ensures p[k] in names
  {
    hide Names, Declares;
    if k > 0 {
      ClosedNames(w, root, deps, names, p, k - 1);
      assert Names(w, root, deps, p[k - 1], p[k - 1 + 1]);
    }
  }

  // ---------- when a lock is fresh ----------

  ghost predicate MatchesRoot(root: Manifest, deps: seq<Resolved<Dir>>) {
    forall i :: 0 <= i < |root.deps| ==> RootMatch(root.deps[i], deps)
  }

  /** The lock has an entry with the same kind, source and ref as the declaration. */
  predicate RootMatch(dep: Dep, deps: seq<Resolved<Dir>>) {
    var d := ByName(deps, dep.name);
    d.Some? && d.value.kind == dep.kind && d.value.source == dep.source && d.value.declaredRef == dep.ref
  }

  ghost predicate AllFresh(w: World, root: Manifest, deps: seq<Resolved<Dir>>) {
    forall i :: 0 <= i < |deps| ==> EntryFresh(w, root, deps[i])
  }

  ghost predicate Listed(deps: seq<Resolved<Dir>>, name: string) {
    ByName(deps, name).Some?
  }

  /** A lock that may be used: written for this manifest, one entry a name, the root's declarations unchanged, every
      entry still what it was, and listing exactly the names the locked packages lead to. */
  ghost predicate Fresh(w: World, root: Manifest, lock: LockFile<Dir>) {
    && lock.manifestSha == ManifestFingerprint(root)
    && UniqueNames(lock.deps)
    && MatchesRoot(root, lock.deps)
    && AllFresh(w, root, lock.deps)
    && forall n :: NameReached(w, root, lock.deps, n) <==> Listed(lock.deps, n)
  }

  /** The texts of these declarations do not collide: equal hashes come from equal texts. */
  ghost predicate NoCollision(a: seq<Dep>, b: seq<Dep>)
    requires AreBytes(DepsText(a)) && AreBytes(DepsText(b))
  {
    Fnv(OFFSET, DepsText(a)) == Fnv(OFFSET, DepsText(b)) ==> DepsText(a) == DepsText(b)
  }

  /** A fresh entry is one whose package declares what it declared when the lock was written: the same dependencies in the same
      order, with their kinds, sources, refs and versions. */
  lemma {:induction false} FreshMeansUnchanged(w: World, root: Manifest, d: Resolved<Dir>, before: Manifest)
    requires EntryFresh(w, root, d) && d.depsFingerprint == DepsFingerprint(before)
    requires var now := LockedManifest(w, root, d).value;
             && PlainDeps(before.deps) && PlainDeps(now.deps)
             && (AreBytes(DepsText(before.deps)) && AreBytes(DepsText(now.deps)) ==> NoCollision(before.deps, now.deps))
    ensures LockedManifest(w, root, d).value.deps == before.deps
  {
    hide DepsText, PlainDeps, DepsFingerprint, Fnv;
    var now := LockedManifest(w, root, d).value;
    SameFingerprint(before, now);
    DepsTextDetermines(before.deps, now.deps);
  }

  /** And the root manifest is the one the lock was written for. */
  lemma {:induction false} FreshForThisRoot(w: World, root: Manifest, lock: LockFile<Dir>, before: Manifest)
    requires Fresh(w, root, lock) && lock.manifestSha == ManifestFingerprint(before)
    requires Plain(root.name) && Plain(root.version) && PlainDeps(root.deps)
    requires Plain(before.name) && Plain(before.version) && PlainDeps(before.deps)
    requires AreBytes(ManifestText(before)) && AreBytes(ManifestText(root)) ==>
               (Fnv(OFFSET, ManifestText(before)) == Fnv(OFFSET, ManifestText(root)) ==> ManifestText(before) == ManifestText(root))
    ensures root == before
  {
    hide ManifestText, PlainDeps, Plain, Fnv, Hex, ManifestFingerprint;
    FingerprintsAreFnv(root);
    FingerprintsAreFnv(before);
    var x, y := Fnv(OFFSET, ManifestText(before)), Fnv(OFFSET, ManifestText(root));
    HexReads(x as int);
    HexReads(y as int);
    NumberDetermines(x, y);
    ManifestTextDetermines(before, root);
  }

  // ---------- tryUseLock ----------

  method CheckUnique(deps: seq<Resolved<Dir>>) returns (ok: bool)
    ensures ok <==> UniqueNames(deps)
  {
    var names: set<string> := {};
    for i := 0 to |deps|
      invariant forall n :: n in names <==> exists k :: 0 <= k < i && deps[k].name == n
      invariant forall a, b :: 0 <= a < b < i ==> deps[a].name != deps[b].name
    {
      if deps[i].name in names { return false; }
      names := names + {deps[i].name};
    }
    return true;
  }

  method CheckRoot(root: Manifest, deps: seq<Resolved<Dir>>) returns (ok: bool)
    ensures ok <==> MatchesRoot(root, deps)
  {
    hide RootMatch;
    for i := 0 to |root.deps|
      invariant forall k :: 0 <= k < i ==> RootMatch(root.deps[k], deps)
    {
      if !RootMatch(root.deps[i], deps) { return false; }
    }
    return true;
  }

  /** `out` is the lock's entries, each rebuilt. */
  ghost predicate RebuiltAs(w: World, root: Manifest, deps: seq<Resolved<Dir>>, out: seq<Resolved<Dir>>) {
    |out| == |deps| && forall i :: 0 <= i < |deps| ==> EntryFresh(w, root, deps[i]) && out[i] == Rebuilt(w, root, deps[i])
  }

  /** `manifests` holds the manifest of every locked package. */
  ghost predicate Gathered(w: World, root: Manifest, deps: seq<Resolved<Dir>>, manifests: map<string, Manifest>) {
    && (forall n :: Listed(deps, n) ==> n in manifests)
    && (forall n :: n in manifests ==> Listed(deps, n) && LockedManifest(w, root, ByName(deps, n).value) == Some(manifests[n]))
  }

  function DeclaredNames(m: Manifest): seq<string> {
    seq(|m.deps|, i requires 0 <= i < |m.deps| => m.deps[i].name)
  }

  lemma {:induction false} NamesDeclared(m: Manifest)
    ensures forall n :: n in DeclaredNames(m) <==> Declares(m, n)
  {
    forall n ensures n in DeclaredNames(m) <==> Declares(m, n) {
      if Declares(m, n) {
        var i :| 0 <= i < |m.deps| && m.deps[i].name == n;
        assert DeclaredNames(m)[i] == n;
      }
    }
  }

  /** A live package moved to another version under a lock that is still fresh. */
  ghost predicate VersionMoved(deps: seq<Resolved<Dir>>, out: seq<Resolved<Dir>>) {
    exists i :: 0 <= i < |deps| && i < |out| && out[i].packageVersion != deps[i].packageVersion
  }

  method RebuildAll(w: World, root: Manifest, deps: seq<Resolved<Dir>>)
    returns (r: Option<seq<Resolved<Dir>>>, manifests: map<string, Manifest>, changed: bool)
    requires UniqueNames(deps)
    ensures r.Some? <==> AllFresh(w, root, deps)
    ensures r.Some? ==> (changed <==> VersionMoved(deps, r.value))
    ensures r.Some? ==> RebuiltAs(w, root, deps, r.value) && Gathered(w, root, deps, manifests)
  {
    hide EntryFresh, LockedManifest, LockedDir, ByName, Declaration;
    var out: seq<Resolved<Dir>> := [];
    manifests, changed := map[], false;
    for i := 0 to |deps|
      invariant |out| == i
      invariant changed <==> VersionMoved(deps, out)
      invariant forall k :: 0 <= k < i ==> EntryFresh(w, root, deps[k]) && out[k] == Rebuilt(w, root, deps[k])
      invariant forall k :: 0 <= k < i ==> deps[k].name in manifests && LockedManifest(w, root, deps[k]) == Some(manifests[deps[k].name])
      invariant forall n :: n in manifests ==> exists k :: 0 <= k < i && deps[k].name == n
    {
      var d := deps[i];
      if !EntryFresh(w, root, d) { return None, manifests, changed; }
      FreshHasManifest(w, root, d);
      manifests := manifests[d.name := LockedManifest(w, root, d).value];
      var rd := Rebuilt(w, root, d);
      MovedMore(deps, out, rd);
      if rd.packageVersion != d.packageVersion { changed := true; }
      out := out + [rd];
    }
    forall n | Listed(deps, n) ensures n in manifests {
      var k := NameIndex(deps, n);
    }
    forall n | n in manifests ensures Listed(deps, n) && LockedManifest(w, root, ByName(deps, n).value) == Some(manifests[n]) {
      var k :| 0 <= k < |deps| && deps[k].name == n;
      NameAt(deps, k);
    }
    return Some(out), manifests, changed;
  }

  lemma {:induction false} MovedMore(deps: seq<Resolved<Dir>>, out: seq<Resolved<Dir>>, rd: Resolved<Dir>)
    requires |out| < |deps|
    ensures VersionMoved(deps, out + [rd]) <==> VersionMoved(deps, out) || rd.packageVersion != deps[|out|].packageVersion
  {
    var more := out + [rd];
    assert more[|out|] == rd;
    if VersionMoved(deps, out) {
      var i :| 0 <= i < |deps| && i < |out| && out[i].packageVersion != deps[i].packageVersion;
      assert more[i] == out[i];
    }
  }

  lemma {:induction false} FreshHasManifest(w: World, root: Manifest, d: Resolved<Dir>)
    requires EntryFresh(w, root, d)
    ensures LockedManifest(w, root, d).Some?
  {
  }

  lemma {:induction false} NameIndex(deps: seq<Resolved<Dir>>, n: string) returns (k: nat)
    requires Listed(deps, n)
    ensures k < |deps| && deps[k].name == n && ByName(deps, n) == Some(deps[k])
  {
    if deps[0].name == n { k := 0; } else { var j := NameIndex(deps[1..], n); k := j + 1; }
  }

  lemma {:induction false} NameAt(deps: seq<Resolved<Dir>>, k: nat)
    requires UniqueNames(deps) && k < |deps|
    ensures ByName(deps, deps[k].name) == Some(deps[k])
  {
    if k > 0 {
      assert deps[0].name != deps[k].name;
      assert deps[1..][k - 1] == deps[k];
      NameAt(deps[1..], k - 1);
    }
  }

  /** Follow the names from the root; stop at one the lock does not have, and look for entries never reached. */
  method CheckReached(w: World, root: Manifest, deps: seq<Resolved<Dir>>, manifests: map<string, Manifest>) returns (ok: bool)
    requires UniqueNames(deps)
    requires Gathered(w, root, deps, manifests)
    ensures ok <==> forall n :: NameReached(w, root, deps, n) <==> Listed(deps, n)
  {
    hide LockedManifest, NameReached, ByName, Names, Listed, Declares;
    var reached: set<string> := {};
    var stack := DeclaredNames(root);
    NamesDeclared(root);
    forall n | Declares(root, n) ensures NameReached(w, root, deps, n) { RootReached(w, root, deps, n); }
    while stack != []
      invariant reached <= manifests.Keys
      invariant forall n :: n in reached || n in stack ==> NameReached(w, root, deps, n)
      invariant forall n :: Declares(root, n) ==> n in reached || n in stack
      invariant forall a, b :: a in reached && Names(w, root, deps, a, b) ==> b in reached || b in stack
      decreases manifests.Keys - reached, |stack|
    {
      var name := stack[|stack| - 1];
      assert name in stack;
      TopOff(stack);
      stack := stack[..|stack| - 1];
      if name in reached { continue; }
      if name !in manifests { return false; }
      ghost var was := reached;
      reached := reached + {name};
      var m := manifests[name];
      var subs := DeclaredNames(m);
      NamesDeclared(m);
      SubNames(w, root, deps, name, m);
      forall n | n in subs ensures NameReached(w, root, deps, n) { NextReached(w, root, deps, name, n); }
      stack := stack + subs;
      assert manifests.Keys - reached < manifests.Keys - was by { assert name in manifests.Keys - was; }
    }
    forall n | NameReached(w, root, deps, n) ensures n in reached { ReachedHeld(w, root, deps, reached, n); }
    for i := 0 to |deps|
      invariant forall k :: 0 <= k < i ==> deps[k].name in reached
    {
      if deps[i].name !in reached { NameListed(deps, i); return false; }
    }
    forall n | Listed(deps, n) ensures n in reached { var k := NameIndex(deps, n); }
    return true;
  }

  lemma {:induction false} TopOff(stack: seq<string>)
    requires stack != []
    ensures forall n :: n in stack <==> n in stack[..|stack| - 1] || n == stack[|stack| - 1]
  {
    assert stack == stack[..|stack| - 1] + [stack[|stack| - 1]];
  }

  lemma {:induction false} SubNames(w: World, root: Manifest, deps: seq<Resolved<Dir>>, name: string, m: Manifest)
    requires Listed(deps, name) && LockedManifest(w, root, ByName(deps, name).value) == Some(m)
    ensures forall n :: Names(w, root, deps, name, n) <==> Declares(m, n)
  {
    hide LockedManifest, ByName, Declares;
  }

  lemma {:induction false} ReachedHeld(w: World, root: Manifest, deps: seq<Resolved<Dir>>, reached: set<string>, n: string)
    requires forall x :: Declares(root, x) ==> x in reached
    requires forall a, b :: a in reached && Names(w, root, deps, a, b) ==> b in reached
    requires NameReached(w, root, deps, n)
    ensures n in reached
  {
    hide Names, Declares;
    var p :| NameChain(w, root, deps, p) && p[|p| - 1] == n;
    ClosedNames(w, root, deps, reached, p, |p| - 1);
  }

  lemma {:induction false} NameListed(deps: seq<Resolved<Dir>>, i: nat)
    requires UniqueNames(deps) && i < |deps|
    ensures Listed(deps, deps[i].name)
  {
    NameAt(deps, i);
  }

  /** `tryUseLock`: the lock is used exactly when it is fresh, and every entry is rebuilt from the world. A lock whose
      packages moved to other versions is rewritten with what they are now. */
  method TryUseLock(w: World, root: Manifest, lock: LockFile<Dir>) returns (r: Option<seq<Resolved<Dir>>>, rewritten: Option<LockFile<Dir>>)
    ensures r.Some? <==> Fresh(w, root, lock)
    ensures r.Some? ==> RebuiltAs(w, root, lock.deps, r.value)
    ensures rewritten == if r.Some? && VersionMoved(lock.deps, r.value) then Some(LockFile(ManifestFingerprint(root), r.value)) else None
  {
    hide UniqueNames, MatchesRoot, NameReached, ManifestFingerprint, EntryFresh, LockedManifest, Listed, ByName, VersionMoved;
    if lock.manifestSha != ManifestFingerprint(root) { return None, None; }
    var unique := CheckUnique(lock.deps);
    if !unique { return None, None; }
    var matching := CheckRoot(root, lock.deps);
    if !matching { return None, None; }
    var out, manifests, changed := RebuildAll(w, root, lock.deps);
    if out.None? { return None, None; }
    var closed := CheckReached(w, root, lock.deps, manifests);
    if !closed { return None, None; }
    return out, if changed then Some(LockFile(ManifestFingerprint(root), out.value)) else None;
  }

  // ---------- a rewritten lock ----------

  /** Rebuilding changes nothing that decides freshness, so rebuilding again gives the same entry. */
  lemma {:induction false} RebuiltEntry(w: World, root: Manifest, d: Resolved<Dir>)
    requires EntryFresh(w, root, d)
    ensures var e := Rebuilt(w, root, d);
            && e.name == d.name && LockedManifest(w, root, e) == LockedManifest(w, root, d)
            && EntryFresh(w, root, e) && Rebuilt(w, root, e) == e
  {
    hide Declaration, Load, ValidName, DepsFingerprint;
  }

  lemma {:induction false} RebuiltByName(w: World, root: Manifest, deps: seq<Resolved<Dir>>, out: seq<Resolved<Dir>>, n: string)
    requires RebuiltAs(w, root, deps, out) && UniqueNames(deps)
    ensures Listed(out, n) <==> Listed(deps, n)
    ensures Listed(deps, n) ==> EntryFresh(w, root, ByName(deps, n).value) && ByName(out, n).value == Rebuilt(w, root, ByName(deps, n).value)
  {
    hide EntryFresh, Rebuilt, ByName;
    RebuiltUnique(w, root, deps, out);
    if Listed(deps, n) {
      var k := NameIndex(deps, n);
      RebuiltEntry(w, root, deps[k]);
      NameAt(out, k);
    } else if Listed(out, n) {
      var k := NameIndex(out, n);
      RebuiltEntry(w, root, deps[k]);
      NameAt(deps, k);
    }
  }

  lemma {:induction false} RebuiltUnique(w: World, root: Manifest, deps: seq<Resolved<Dir>>, out: seq<Resolved<Dir>>)
    requires RebuiltAs(w, root, deps, out) && UniqueNames(deps)
    ensures UniqueNames(out)
  {
    hide EntryFresh, Rebuilt;
    forall i, j | 0 <= i < j < |out| ensures out[i].name != out[j].name {
      RebuiltEntry(w, root, deps[i]);
      RebuiltEntry(w, root, deps[j]);
    }
  }

  lemma {:induction false} RebuiltNames(w: World, root: Manifest, deps: seq<Resolved<Dir>>, out: seq<Resolved<Dir>>, a: string, b: string)
    requires RebuiltAs(w, root, deps, out) && UniqueNames(deps)
    ensures Names(w, root, out, a, b) <==> Names(w, root, deps, a, b)
  {
    hide EntryFresh, Rebuilt, ByName, LockedManifest, Declares;
    RebuiltByName(w, root, deps, out, a);
    if Listed(deps, a) { RebuiltEntry(w, root, ByName(deps, a).value); }
  }

  lemma {:induction false} RebuiltReached(w: World, root: Manifest, deps: seq<Resolved<Dir>>, out: seq<Resolved<Dir>>, n: string)
    requires RebuiltAs(w, root, deps, out) && UniqueNames(deps)
    ensures NameReached(w, root, out, n) <==> NameReached(w, root, deps, n)
  {
    hide EntryFresh, Rebuilt, Names, Declares, RebuiltAs;
    forall a, b ensures Names(w, root, out, a, b) <==> Names(w, root, deps, a, b) { RebuiltNames(w, root, deps, out, a, b); }
  }

  lemma {:induction false} RebuiltRootMatch(w: World, root: Manifest, deps: seq<Resolved<Dir>>, out: seq<Resolved<Dir>>, i: nat)
    requires Parsed(root) && RebuiltAs(w, root, deps, out) && UniqueNames(deps) && i < |root.deps| && RootMatch(root.deps[i], deps)
    ensures RootMatch(root.deps[i], out)
  {
    hide EntryFresh, ByName, LockedManifest, RebuiltAs, ValidName;
    var dep := root.deps[i];
    RebuiltByName(w, root, deps, out, dep.name);
    DeclarationAt(root.deps, i);
  }

  lemma {:induction false} DeclarationAt(deps: seq<Dep>, i: nat)
    requires i < |deps| && forall a, b :: 0 <= a < b < |deps| ==> deps[a].name != deps[b].name
    ensures Declaration(deps, deps[i].name) == Some(deps[i])
  {
    if i > 0 {
      assert deps[0].name != deps[i].name;
      assert deps[1..][i - 1] == deps[i];
      DeclarationAt(deps[1..], i - 1);
    }
  }

  /** The lock that is written when versions moved is fresh, and the next use returns it unchanged. */
  lemma {:induction false} RewrittenIsFresh(w: World, root: Manifest, lock: LockFile<Dir>, out: seq<Resolved<Dir>>)
    requires Parsed(root) && Fresh(w, root, lock) && RebuiltAs(w, root, lock.deps, out)
    ensures Fresh(w, root, LockFile(ManifestFingerprint(root), out)) && RebuiltAs(w, root, out, out)
  {
    hide EntryFresh, Rebuilt, Listed, NameReached, RootMatch, ManifestFingerprint, Parsed;
    RebuiltUnique(w, root, lock.deps, out);
    forall i | 0 <= i < |out| ensures EntryFresh(w, root, out[i]) && Rebuilt(w, root, out[i]) == out[i] {
      RebuiltEntry(w, root, lock.deps[i]);
    }
    forall i | 0 <= i < |root.deps| ensures RootMatch(root.deps[i], out) { RebuiltRootMatch(w, root, lock.deps, out, i); }
    forall n ensures NameReached(w, root, out, n) <==> Listed(out, n) {
      RebuiltReached(w, root, lock.deps, out, n);
      RebuiltByName(w, root, lock.deps, out, n);
    }
  }
}

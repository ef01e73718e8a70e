/** Packages as zlpkg sees them: manifests, dependency declarations, and a fixed world of directories and git
    commits that the resolver (zlpkg/resolver.cpp) reads. */
module PackageWorld {
  import opened Wrappers

  datatype Kind = Git | Path

  datatype Dep = Dep(name: string, kind: Kind, source: string, ref: string, version: string)

  datatype Manifest = Manifest(name: string, version: string, deps: seq<Dep>)

  /** A directory: the project's own, some other one, or the cache entry of a commit under a package name. */
  datatype Dir = Project | Disk(path: string) | Cache(name: string, sha: string)

  datatype Identity = PathId(dir: Dir) | GitId(url: string, sha: string)

  /** `locate` finds the directory a relative path names, `fetch` the commit a git reference names, `tree` and
      `commit` what is read there, and `cached` says whether a cache entry verifies. */
  datatype World = World(
    locate: (Dir, string) -> Option<Dir>,
    fetch: (string, string) -> Option<string>,
    project: Option<Manifest>,
    tree: string -> Option<Manifest>,
    commit: string -> Option<Manifest>,
    cached: (string, string) -> bool)

  /** A resolved dependency; `D` is how its directory is named. */
  datatype Resolved<+D> = Resolved(name: string, kind: Kind, source: string, declaredRef: string, resolvedRef: string,
                                   packageVersion: string, depsFingerprint: string, dir: D)

  /** A lock: the fingerprint of the manifest it was written for, and what that resolved to. */
  datatype LockFile<+D> = LockFile(manifestSha: string, deps: seq<Resolved<D>>)

  // ---------- manifests ----------

  predicate NameChar(c: char) {
    'a' <= c <= 'z' || 'A' <= c <= 'Z' || '0' <= c <= '9' || c == '.' || c == '_' || c == '-'
  }

  predicate ValidName(name: string) {
    && 0 < |name| <= 100 && name[0] != '.' && name[0] != '-'
    && (forall i :: 0 <= i < |name| ==> NameChar(name[i]))
    && (forall i :: 0 <= i < |name| - 1 ==> !(name[i] == '.' && name[i + 1] == '.'))
  }

  /** What every manifest that parses satisfies: valid names, no dependency twice, no ref on a path dependency. */
  predicate Parsed(m: Manifest) {
    && ValidName(m.name)
    && (forall i :: 0 <= i < |m.deps| ==> ValidName(m.deps[i].name) && (m.deps[i].kind == Path ==> m.deps[i].ref == ""))
    && (forall i, j :: 0 <= i < j < |m.deps| ==> m.deps[i].name != m.deps[j].name)
  }

  function Contents(w: World, dir: Dir): Option<Manifest> {
    match dir
    case Project => w.project
    case Disk(path) => w.tree(path)
    case Cache(_, sha) => w.commit(sha)
  }

  /** The manifest in `dir`, if there is one and it parses. */
  function Load(w: World, dir: Dir): (r: Option<Manifest>)
    ensures r.Some? ==> Parsed(r.value)
  {
    var m := Contents(w, dir);
    if m.Some? && Parsed(m.value) then m else None
  }

  // ---------- dependency edges ----------

  /** A declaration together with the directory whose manifest makes it. */
  datatype Edge = Edge(from: Dir, dep: Dep)

  function Find(w: World, e: Edge): Option<Identity> {
    match e.dep.kind
    case Path =>
      var d := w.locate(e.from, e.dep.source);
      if d.Some? then Some(PathId(d.value)) else None
    case Git =>
      var sha := w.fetch(e.dep.source, e.dep.ref);
      if sha.Some? then Some(GitId(e.dep.source, sha.value)) else None
  }

  function DirFor(name: string, id: Identity): Dir {
    match id
    case PathId(d) => d
    case GitId(_, sha) => Cache(name, sha)
  }

  function RefFor(id: Identity): string {
    match id
    case PathId(_) => "local"
    case GitId(_, sha) => sha
  }

  /** The package that identity `id` holds under `name`. */
  function Package(w: World, name: string, id: Identity): Option<Manifest> {
    var m := Load(w, DirFor(name, id));
    if m.Some? && m.value.name == name then m else None
  }

  /** What a package is does not depend on the name it is asked for by; so one identity has one name. */
  lemma {:induction false} OneName(w: World, a: string, b: string, id: Identity)
    requires Package(w, a, id).Some? && Package(w, b, id).Some?
    ensures a == b
  {
  }

  predicate EdgeOk(w: World, e: Edge) {
    && Find(w, e).Some?
    && Package(w, e.dep.name, Find(w, e).value).Some?
    && (e.dep.version == "" || Package(w, e.dep.name, Find(w, e).value).value.version == e.dep.version)
  }

  function EdgesFrom(dir: Dir, m: Manifest): (es: seq<Edge>)
    ensures |es| == |m.deps|
  {
    seq(|m.deps|, i requires 0 <= i < |m.deps| => Edge(dir, m.deps[i]))
  }

  /** The edges that the package `id`, taken under `name`, declares. */
  function SubEdges(w: World, name: string, id: Identity): seq<Edge> {
    var m := Package(w, name, id);
    if m.Some? then EdgesFrom(DirFor(name, id), m.value) else []
  }

  function RootEdges(root: Manifest): seq<Edge> {
    EdgesFrom(Project, root)
  }

  predicate Follows(w: World, e: Edge, next: Edge) {
    Find(w, e).Some? && next in SubEdges(w, e.dep.name, Find(w, e).value)
  }

  ghost predicate IsChain(w: World, root: Manifest, p: seq<Edge>) {
    p != [] && p[0] in RootEdges(root) && forall k :: 0 <= k < |p| - 1 ==> Follows(w, p[k], p[k + 1])
  }

  /** Some chain of declarations leads from the root manifest to `e`. */
  ghost predicate Reachable(w: World, root: Manifest, e: Edge) {
    exists p :: IsChain(w, root, p) && p[|p| - 1] == e
  }

  lemma {:induction false} RootReachable(w: World, root: Manifest, e: Edge)
    requires e in RootEdges(root)
    ensures Reachable(w, root, e)
  {
    assert IsChain(w, root, [e]) && [e][|[e]| - 1] == e;
  }

  lemma {:induction false} ReachableNext(w: World, root: Manifest, e: Edge, next: Edge)
    requires Reachable(w, root, e) && Follows(w, e, next)
    ensures Reachable(w, root, next)
  {
    var p :| IsChain(w, root, p) && p[|p| - 1] == e;
    var q := p + [next];
    forall k | 0 <= k < |q| - 1 ensures Follows(w, q[k], q[k + 1]) {
      if k < |p| - 1 { assert q[k] == p[k] && q[k + 1] == p[k + 1]; }
    }
    assert IsChain(w, root, q) && q[|q| - 1] == next;
  }

  /** A set of edges that holds the root's and is closed under `Follows` holds every reachable edge. */
  lemma {:induction false} ClosedHolds(w: World, root: Manifest, es: set<Edge>, p: seq<Edge>, k: nat)
    requires forall e :: e in RootEdges(root) ==> e in es
    requires forall e, f :: e in es && Follows(w, e, f) ==> f in es
    requires IsChain(w, root, p) && k < |p|
    ensures p[k] in es
  {
    if k > 0 {
      ClosedHolds(w, root, es, p, k - 1);
      assert Follows(w, p[k - 1], p[k - 1 + 1]);
    }
  }

  /** A dependency graph that can be resolved: every declaration finds a package of the right name and version, and
      one name never stands for two packages. */
  ghost predicate Consistent(w: World, root: Manifest) {
    && (forall e :: Reachable(w, root, e) ==> EdgeOk(w, e))
    && (forall e, f :: Reachable(w, root, e) && Reachable(w, root, f) && e.dep.name == f.dep.name ==> Find(w, e) == Find(w, f))
  }

  /** Only packages in `all` can be reached. */
  ghost predicate FiniteWorld(w: World, root: Manifest, all: set<Identity>) {
    forall e :: Reachable(w, root, e) && Find(w, e).Some? ==> Find(w, e).value in all
  }
}

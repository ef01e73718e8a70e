/** The breadth-first resolver of zlpkg/resolver.cpp: it succeeds exactly on consistent dependency graphs, and then
    lists every reachable package once. */
module PackageResolver {
  import opened Wrappers
  import opened Sequences
  import opened PackageWorld
  import opened Fingerprints

  /** The record that declaration `e` makes when it is the first of its name. */
  function Entry(w: World, e: Edge): Resolved<Dir>
    requires EdgeOk(w, e)
  {
    var id := Find(w, e).value;
    var m := Package(w, e.dep.name, id).value;
    Resolved(e.dep.name, e.dep.kind, e.dep.source, e.dep.ref, RefFor(id), m.version, DepsFingerprint(m),
             DirFor(e.dep.name, id))
  }

  /** A path declaration is good if the directory it names from where it stands holds a package of its name and version; the entry
      records that directory and no commit. */
  lemma {:induction false} PathEntry(w: World, e: Edge, path: string, m: Manifest)
    requires e.dep.kind == Path && w.locate(e.from, e.dep.source) == Some(Disk(path)) && w.tree(path) == Some(m) && Parsed(m)
    ensures EdgeOk(w, e) <==> m.name == e.dep.name && (e.dep.version == "" || e.dep.version == m.version)
    ensures EdgeOk(w, e) ==>
              Entry(w, e) == Resolved(m.name, Path, e.dep.source, e.dep.ref, "local", m.version, DepsFingerprint(m), Disk(path))
    ensures EdgeOk(w, e) ==> forall f :: Follows(w, e, f) <==> f.from == Disk(path) && f.dep in m.deps
  {
    hide Parsed;
    if EdgeOk(w, e) { FollowsAre(w, e, Disk(path), m); }
  }

  /** A git declaration is good if the commit fetched for it holds a package of its name and version; the entry records the commit and
      its place in the cache. */
  lemma {:induction false} GitEntry(w: World, e: Edge, sha: string, m: Manifest)
    requires e.dep.kind == Git && w.fetch(e.dep.source, e.dep.ref) == Some(sha) && w.commit(sha) == Some(m) && Parsed(m)
    ensures EdgeOk(w, e) <==> m.name == e.dep.name && (e.dep.version == "" || e.dep.version == m.version)
    ensures EdgeOk(w, e) ==>
              Entry(w, e) == Resolved(m.name, Git, e.dep.source, e.dep.ref, sha, m.version, DepsFingerprint(m), Cache(m.name, sha))
    ensures EdgeOk(w, e) ==> forall f :: Follows(w, e, f) <==> f.from == Cache(m.name, sha) && f.dep in m.deps
  {
    hide Parsed;
    if EdgeOk(w, e) { FollowsAre(w, e, Cache(m.name, sha), m); }
  }

  lemma {:induction false} FollowsAre(w: World, e: Edge, dir: Dir, m: Manifest)
    requires EdgeOk(w, e) && DirFor(e.dep.name, Find(w, e).value) == dir && Package(w, e.dep.name, Find(w, e).value) == Some(m)
    ensures forall f :: Follows(w, e, f) <==> f.from == dir && f.dep in m.deps
  {
    hide Package, Find, DirFor;
    forall f ensures Follows(w, e, f) <==> f.from == dir && f.dep in m.deps {
      if f.from == dir && f.dep in m.deps {
        var k :| 0 <= k < |m.deps| && m.deps[k] == f.dep;
        assert EdgesFrom(dir, m)[k] == f;
      }
    }
  }

  /** A declaration whose package cannot be found, has no manifest that parses, or has another name is not good. */
  lemma {:induction false} BadEntries(w: World, e: Edge, path: string, sha: string)
    ensures e.dep.kind == Path && w.locate(e.from, e.dep.source) == None ==> !EdgeOk(w, e)
    ensures e.dep.kind == Git && w.fetch(e.dep.source, e.dep.ref) == None ==> !EdgeOk(w, e)
    ensures e.dep.kind == Path && w.locate(e.from, e.dep.source) == Some(Disk(path)) && (w.tree(path) == None || !Parsed(w.tree(path).value)) ==>
              !EdgeOk(w, e)
    ensures e.dep.kind == Git && w.fetch(e.dep.source, e.dep.ref) == Some(sha) && (w.commit(sha) == None || !Parsed(w.commit(sha).value)) ==>
              !EdgeOk(w, e)
  {
    hide Parsed;
  }

  /** Valid names, one character at a time: letters, digits, '.', '_' and '-', at most a hundred, neither '.' nor '-' first, and no two
      dots in a row. */
  lemma {:induction false} NamesGrow(a: string, c: char)
    ensures !ValidName("")
    ensures ValidName([c]) <==> NameChar(c) && c != '.' && c != '-'
    ensures a != "" ==> (ValidName(a + [c]) <==> ValidName(a) && |a| < 100 && NameChar(c) && !(c == '.' && a[|a| - 1] == '.'))
    ensures NameChar(c) <==>
              c in "abcdefghijklmnopqrstuvwxyz" || c in "ABCDEFGHIJKLMNOPQRSTUVWXYZ" || c in "0123456789" || c in "._-"
  {
    CharRange('a', "abcdefghijklmnopqrstuvwxyz", c);
    CharRange('A', "ABCDEFGHIJKLMNOPQRSTUVWXYZ", c);
    CharRange('0', "0123456789", c);
    if a != "" { NameGrows(a, c); }
  }

  lemma {:induction false} NameGrows(a: string, c: char)
    requires a != ""
    ensures ValidName(a + [c]) <==> ValidName(a) && |a| < 100 && NameChar(c) && !(c == '.' && a[|a| - 1] == '.')
  {
    hide NameChar;
    var b := a + [c];
    assert forall i :: 0 <= i < |a| ==> b[i] == a[i];
    if ValidName(b) {
      assert NameChar(b[|a|]) && !(b[|a| - 1] == '.' && b[|a| - 1 + 1] == '.');
      forall i | 0 <= i < |a| ensures NameChar(a[i]) { assert NameChar(b[i]); }
      forall i | 0 <= i < |a| - 1 ensures !(a[i] == '.' && a[i + 1] == '.') { assert !(b[i] == '.' && b[i + 1] == '.'); }
    }
  }

  /** Manifests that parse, one dependency at a time: a valid name not declared before, and no ref beside a path. */
  lemma {:induction false} ManifestsGrow(name: string, version: string, deps: seq<Dep>, d: Dep)
    ensures Parsed(Manifest(name, version, [])) <==> ValidName(name)
    ensures Parsed(Manifest(name, version, deps + [d])) <==>
              && Parsed(Manifest(name, version, deps)) && ValidName(d.name)
              && (d.kind == Git || d.ref == "") && forall i :: 0 <= i < |deps| ==> deps[i].name != d.name
  {
    hide ValidName;
    var more := deps + [d];
    assert forall i :: 0 <= i < |deps| ==> more[i] == deps[i];
    assert more[|deps|] == d;
    if Parsed(Manifest(name, version, more)) {
      forall i | 0 <= i < |deps| ensures deps[i].name != d.name { assert more[i].name != more[|deps|].name; }
    }
  }

  // ---------- what the loop keeps ----------

  /** Entry `k` was made by declaration number `j`, the first of its name. */
  ghost predicate MadeBy(w: World, seen: seq<Edge>, r: Resolved<Dir>, id: Identity, j: nat) {
    && j < |seen| && EdgeOk(w, seen[j]) && r == Entry(w, seen[j]) && Find(w, seen[j]) == Some(id)
    && forall i :: 0 <= i < j ==> seen[i].dep.name != r.name
  }

  ghost predicate Made(w: World, seen: seq<Edge>, r: Resolved<Dir>, id: Identity) {
    exists j: nat :: MadeBy(w, seen, r, id, j)
  }

  /** The declaration `e` was found good, and entry `k` stands for it. */
  ghost predicate StandsFor(w: World, results: seq<Resolved<Dir>>, ids: seq<Identity>, e: Edge, k: nat) {
    EdgeOk(w, e) && k < |results| && k < |ids| && results[k].name == e.dep.name && Some(ids[k]) == Find(w, e)
  }

  ghost predicate Covered(w: World, results: seq<Resolved<Dir>>, ids: seq<Identity>, e: Edge) {
    exists k: nat :: StandsFor(w, results, ids, e, k)
  }

  ghost predicate UniqueNames(results: seq<Resolved<Dir>>) {
    forall i, j :: 0 <= i < j < |results| ==> results[i].name != results[j].name
  }

  /** The entries, their identities, and the declarations they come from. */
  ghost predicate Entries(w: World, seen: seq<Edge>, results: seq<Resolved<Dir>>, ids: seq<Identity>) {
    && |ids| == |results|
    && UniqueNames(results)
    && (forall k :: 0 <= k < |results| ==> Made(w, seen, results[k], ids[k]))
    && (forall e :: e in seen ==> Covered(w, results, ids, e))
  }

  /** The declarations seen and still queued: all reachable, the root's first, and closed. */
  ghost predicate Frontier(w: World, root: Manifest, seen: seq<Edge>, queue: seq<Edge>) {
    && RootEdges(root) <= seen + queue
    && (forall e :: e in seen || e in queue ==> Reachable(w, root, e))
    && (forall e, f :: e in seen && Follows(w, e, f) ==> f in seen || f in queue)
  }

  // ---------- facts about entries ----------

  lemma {:induction false} MadeFacts(w: World, seen: seq<Edge>, r: Resolved<Dir>, id: Identity)
    requires Made(w, seen, r, id)
    ensures Package(w, r.name, id).Some? && r.packageVersion == Package(w, r.name, id).value.version
    ensures r.dir == DirFor(r.name, id) && r.resolvedRef == RefFor(id)
    ensures exists e :: e in seen && e.dep.name == r.name
  {
    var j: nat :| MadeBy(w, seen, r, id, j);
    assert seen[j] in seen && seen[j].dep.name == r.name;
  }

  lemma {:induction false} MadeLater(w: World, seen: seq<Edge>, e: Edge, r: Resolved<Dir>, id: Identity)
    requires Made(w, seen, r, id)
    ensures Made(w, seen + [e], r, id)
  {
    hide Entry, EdgeOk;
    var j: nat :| MadeBy(w, seen, r, id, j);
    assert MadeBy(w, seen + [e], r, id, j);
  }

  /** A new name comes with a new identity, so its dependencies are always descended into. */
  lemma {:induction false} FreshIdentity(w: World, seen: seq<Edge>, results: seq<Resolved<Dir>>, ids: seq<Identity>, name: string, id: Identity)
    requires Entries(w, seen, results, ids) && Package(w, name, id).Some?
    requires forall k :: 0 <= k < |results| ==> results[k].name != name
    ensures id !in ids
  {
    hide Package;
    if id in ids {
      var k :| 0 <= k < |ids| && ids[k] == id;
      MadeFacts(w, seen, results[k], ids[k]);
      OneName(w, results[k].name, name, id);
      assert false;
    }
  }

  lemma {:induction false} CoveredLater(w: World, results: seq<Resolved<Dir>>, ids: seq<Identity>, r: Resolved<Dir>, id: Identity, e: Edge)
    requires Covered(w, results, ids, e) && |ids| == |results|
    ensures Covered(w, results + [r], ids + [id], e)
  {
    var k: nat :| StandsFor(w, results, ids, e, k);
    assert StandsFor(w, results + [r], ids + [id], e, k);
  }

  /** A repeat of a known name with the same identity and a version that agrees. */
  lemma {:induction false} RepeatKeeps(w: World, seen: seq<Edge>, results: seq<Resolved<Dir>>, ids: seq<Identity>, e: Edge, k: nat)
    requires Entries(w, seen, results, ids)
    requires k < |results| && results[k].name == e.dep.name && Find(w, e) == Some(ids[k])
    ensures EdgeOk(w, e) <==> e.dep.version == "" || results[k].packageVersion == e.dep.version
    ensures EdgeOk(w, e) ==> Entries(w, seen + [e], results, ids)
  {
    hide Package, Find, Entry, UniqueNames, Made, Covered;
    MadeFacts(w, seen, results[k], ids[k]);
    if EdgeOk(w, e) {
      forall i | 0 <= i < |results| ensures Made(w, seen + [e], results[i], ids[i]) {
        MadeLater(w, seen, e, results[i], ids[i]);
      }
      IsCovered(w, results, ids, e, k);
      forall f | f in seen + [e] ensures Covered(w, results, ids, f) {
        if f !in seen { assert f == e; }
      }
    }
  }

  lemma {:induction false} IsCovered(w: World, results: seq<Resolved<Dir>>, ids: seq<Identity>, e: Edge, k: nat)
    requires StandsFor(w, results, ids, e, k)
    ensures Covered(w, results, ids, e)
  {
  }

  /** The first good declaration of a name. */
  lemma {:induction false} NewKeeps(w: World, seen: seq<Edge>, results: seq<Resolved<Dir>>, ids: seq<Identity>, e: Edge)
    requires Entries(w, seen, results, ids) && EdgeOk(w, e)
    requires forall k :: 0 <= k < |results| ==> results[k].name != e.dep.name
    ensures Entries(w, seen + [e], results + [Entry(w, e)], ids + [Find(w, e).value])
  {
    hide Package, Find, Made, Covered;
    var r, id := Entry(w, e), Find(w, e).value;
    var results2, ids2 := results + [r], ids + [id];
    NewMade(w, seen, results, ids, e);
    forall i | 0 <= i < |results2| ensures Made(w, seen + [e], results2[i], ids2[i]) {
      if i < |results| { MadeLater(w, seen, e, results[i], ids[i]); }
    }
    IsCovered(w, results2, ids2, e, |results|);
    forall f | f in seen + [e] ensures Covered(w, results2, ids2, f) {
      if f in seen { CoveredLater(w, results, ids, r, id, f); } else { assert f == e; }
    }
  }

  lemma {:induction false} SeenCovered(w: World, seen: seq<Edge>, results: seq<Resolved<Dir>>, ids: seq<Identity>, i: nat)
    requires Entries(w, seen, results, ids) && i < |seen|
    ensures exists k :: 0 <= k < |results| && results[k].name == seen[i].dep.name
  {
    hide EdgeOk, Find, Made;
    assert seen[i] in seen && Covered(w, results, ids, seen[i]);
    var k: nat :| StandsFor(w, results, ids, seen[i], k);
  }

  lemma {:induction false} NewMade(w: World, seen: seq<Edge>, results: seq<Resolved<Dir>>, ids: seq<Identity>, e: Edge)
    requires Entries(w, seen, results, ids) && EdgeOk(w, e)
    requires forall k :: 0 <= k < |results| ==> results[k].name != e.dep.name
    ensures Made(w, seen + [e], Entry(w, e), Find(w, e).value)
  {
    hide Made, Find, Package, Entries;
    var all := seen + [e];
    forall i | 0 <= i < |seen| ensures all[i].dep.name != e.dep.name {
      SeenCovered(w, seen, results, ids, i);
    }
    assert MadeBy(w, all, Entry(w, e), Find(w, e).value, |seen|);
    FromMadeBy(w, all, Entry(w, e), Find(w, e).value, |seen|);
  }

  lemma {:induction false} FromMadeBy(w: World, seen: seq<Edge>, r: Resolved<Dir>, id: Identity, j: nat)
    requires MadeBy(w, seen, r, id, j)
    ensures Made(w, seen, r, id)
  {
  }

  /** Taking the front declaration off the queue, and queueing what its package declares if that is new. */
  lemma {:induction false} FrontierMoves(w: World, root: Manifest, seen: seq<Edge>, queue: seq<Edge>, more: seq<Edge>)
    requires queue != [] && Frontier(w, root, seen, queue)
    requires forall f :: f in more ==> Follows(w, queue[0], f)
    requires forall f :: Follows(w, queue[0], f) ==> f in more || f in seen || f in queue
    ensures Frontier(w, root, seen + [queue[0]], queue[1..] + more)
  {
    hide Follows, Reachable;
    var e := queue[0];
    var seen2, queue2 := seen + [e], queue[1..] + more;
    assert seen2 + queue2 == seen + queue + more;
    assert queue == [e] + queue[1..];
    forall f | f in more ensures Reachable(w, root, f) { ReachableNext(w, root, e, f); }
  }

  /** All a repeat declares is already known: the first declaration with its identity made the same edges. */
  lemma {:induction false} RepeatFollows(w: World, root: Manifest, seen: seq<Edge>, queue: seq<Edge>, results: seq<Resolved<Dir>>,
                                         ids: seq<Identity>, e: Edge, k: nat, f: Edge)
    requires Entries(w, seen, results, ids) && Frontier(w, root, seen, queue)
    requires k < |results| && results[k].name == e.dep.name && Find(w, e) == Some(ids[k]) && Follows(w, e, f)
    ensures f in seen || f in queue
  {
    hide Reachable, SubEdges;
    assert Made(w, seen, results[k], ids[k]);
    var j: nat :| MadeBy(w, seen, results[k], ids[k], j);
    assert seen[j] in seen && Follows(w, seen[j], f);
  }

  // ---------- the outcome ----------

  /** Some reachable declaration makes the entry `r`. */
  ghost predicate Asked(w: World, root: Manifest, r: Resolved<Dir>) {
    exists e {:trigger Reachable(w, root, e)} :: Reachable(w, root, e) && EdgeOk(w, e) && r == Entry(w, e)
  }

  /** The entry that `e` itself makes is in the list. */
  ghost predicate Listed(w: World, results: seq<Resolved<Dir>>, e: Edge) {
    EdgeOk(w, e) && Entry(w, e) in results
  }

  /** What a successful resolution is: names and identities are unique, every reachable declaration is good and meets
      its entry, every entry is asked for, and the root's own declarations are the ones recorded for its names. */
  ghost predicate Resolution(w: World, root: Manifest, results: seq<Resolved<Dir>>, ids: seq<Identity>) {
    && |ids| == |results|
    && UniqueNames(results)
    && (forall i, j :: 0 <= i < j < |ids| ==> ids[i] != ids[j])
    && (forall e :: Reachable(w, root, e) ==> Covered(w, results, ids, e))
    && (forall k :: 0 <= k < |results| ==> Asked(w, root, results[k]))
    && (forall e :: e in RootEdges(root) ==> Listed(w, results, e))
  }

  lemma {:induction false} AllSeen(w: World, root: Manifest, seen: seq<Edge>, e: Edge)
    requires Frontier(w, root, seen, []) && Reachable(w, root, e)
    ensures e in seen
  {
    hide Follows;
    var p :| IsChain(w, root, p) && p[|p| - 1] == e;
    var es := set f | f in seen;
    assert seen + [] == seen;
    forall f | f in RootEdges(root) ensures f in es {
      var i :| 0 <= i < |RootEdges(root)| && RootEdges(root)[i] == f;
      assert seen[i] == f;
    }
    ClosedHolds(w, root, es, p, |p| - 1);
  }

  lemma {:induction false} SuccessIsConsistent(w: World, root: Manifest, seen: seq<Edge>, results: seq<Resolved<Dir>>, ids: seq<Identity>)
    requires Entries(w, seen, results, ids) && Frontier(w, root, seen, [])
    ensures Consistent(w, root)
  {
    hide Frontier, Reachable, EdgeOk, Find, Made;
    forall e | Reachable(w, root, e) ensures EdgeOk(w, e) {
      AllSeen(w, root, seen, e);
      assert Covered(w, results, ids, e);
    }
    forall e, f | Reachable(w, root, e) && Reachable(w, root, f) && e.dep.name == f.dep.name ensures Find(w, e) == Find(w, f) {
      AllSeen(w, root, seen, e);
      AllSeen(w, root, seen, f);
      var j: nat :| StandsFor(w, results, ids, e, j);
      var k: nat :| StandsFor(w, results, ids, f, k);
      assert j == k by { SameName(results, j, k); }
    }
  }

  lemma {:induction false} SameName(results: seq<Resolved<Dir>>, j: nat, k: nat)
    requires UniqueNames(results) && j < |results| && k < |results| && results[j].name == results[k].name
    ensures j == k
  {
  }

  lemma {:induction false} DistinctIdentities(w: World, seen: seq<Edge>, results: seq<Resolved<Dir>>, ids: seq<Identity>, i: nat, j: nat)
    requires Entries(w, seen, results, ids) && i < j < |ids|
    ensures ids[i] != ids[j]
  {
    hide Package;
    MadeFacts(w, seen, results[i], ids[i]);
    MadeFacts(w, seen, results[j], ids[j]);
    if ids[i] == ids[j] { OneName(w, results[i].name, results[j].name, ids[i]); assert false; }
  }

  /** First come, first served: a name the root declares carries the root's own declaration. */
  lemma {:induction false} RootsOwnEntry(w: World, root: Manifest, seen: seq<Edge>, results: seq<Resolved<Dir>>, ids: seq<Identity>, i: nat)
    requires Entries(w, seen, results, ids) && Frontier(w, root, seen, []) && Parsed(root) && i < |root.deps|
    ensures var e := RootEdges(root)[i]; EdgeOk(w, e) && Entry(w, e) in results
  {
    hide Reachable, Follows, EdgeOk, Find, Entry;
    var e := RootEdges(root)[i];
    assert seen + [] == seen;
    assert seen[i] == e;
    assert Covered(w, results, ids, e);
    var k: nat :| StandsFor(w, results, ids, e, k);
    assert Made(w, seen, results[k], ids[k]);
    var j: nat :| MadeBy(w, seen, results[k], ids[k], j);
    MadeName(w, seen, results[k], ids[k], j);
    assert j <= i;
    assert RootEdges(root)[j] == seen[j] && seen[j].dep == root.deps[j];
    assert results[k] in results;
  }

  lemma {:induction false} MadeName(w: World, seen: seq<Edge>, r: Resolved<Dir>, id: Identity, j: nat)
    requires MadeBy(w, seen, r, id, j)
    ensures r.name == seen[j].dep.name
  {
  }

  lemma {:induction false} SuccessIsResolution(w: World, root: Manifest, seen: seq<Edge>, results: seq<Resolved<Dir>>, ids: seq<Identity>)
    requires Entries(w, seen, results, ids) && Frontier(w, root, seen, []) && Parsed(root)
    ensures Resolution(w, root, results, ids)
  {
    hide Reachable, EdgeOk, Find, Entry, Package, RootEdges;
    forall i, j | 0 <= i < j < |ids| ensures ids[i] != ids[j] { DistinctIdentities(w, seen, results, ids, i, j); }
    forall e | Reachable(w, root, e) ensures Covered(w, results, ids, e) { AllSeen(w, root, seen, e); }
    forall k | 0 <= k < |results| ensures Asked(w, root, results[k]) {
      assert Made(w, seen, results[k], ids[k]);
      var j: nat :| MadeBy(w, seen, results[k], ids[k], j);
      assert seen[j] in seen;
    }
    forall e | e in RootEdges(root) ensures Listed(w, results, e) {
      var i :| 0 <= i < |RootEdges(root)| && RootEdges(root)[i] == e;
      RootCount(root);
      RootsOwnEntry(w, root, seen, results, ids, i);
    }
  }

  lemma {:induction false} RootCount(root: Manifest)
    ensures |RootEdges(root)| == |root.deps|
  {
  }

  /** Two declarations of one name that lead to different places. */
  lemma {:induction false} ConflictIsInconsistent(w: World, root: Manifest, seen: seq<Edge>, results: seq<Resolved<Dir>>, ids: seq<Identity>,
                                                  e: Edge, k: nat)
    requires Entries(w, seen, results, ids) && Reachable(w, root, e)
    requires forall f :: f in seen ==> Reachable(w, root, f)
    requires k < |results| && results[k].name == e.dep.name && Find(w, e) != Some(ids[k])
    ensures !Consistent(w, root)
  {
    hide Reachable, EdgeOk, Find, Entry;
    assert Made(w, seen, results[k], ids[k]);
    var j: nat :| MadeBy(w, seen, results[k], ids[k], j);
    MadeName(w, seen, results[k], ids[k], j);
    assert seen[j] in seen;
  }

  // ---------- the loop ----------

  /** The look-up tables agree with the list. */
  ghost predicate Tables(results: seq<Resolved<Dir>>, ids: seq<Identity>, indexByName: map<string, nat>,
                         versions: map<Identity, string>, descended: set<Identity>) {
    && |ids| == |results|
    && (forall k :: 0 <= k < |results| ==> results[k].name in indexByName && indexByName[results[k].name] == k)
    && (forall n :: n in indexByName ==> indexByName[n] < |results| && results[indexByName[n]].name == n)
    && (forall k :: 0 <= k < |ids| ==> ids[k] in versions && versions[ids[k]] == results[k].packageVersion)
    && (forall id :: id in descended <==> id in ids)
  }

  lemma {:induction false} TablesGrow(results: seq<Resolved<Dir>>, ids: seq<Identity>, indexByName: map<string, nat>,
                                      versions: map<Identity, string>, descended: set<Identity>, r: Resolved<Dir>, id: Identity)
    requires Tables(results, ids, indexByName, versions, descended) && r.name !in indexByName && id !in ids
    ensures Tables(results + [r], ids + [id], indexByName[r.name := |results|], versions[id := r.packageVersion], descended + {id})
  {
  }

  lemma {:induction false} QueueStarts(w: World, root: Manifest)
    ensures Frontier(w, root, [], RootEdges(root)) && Entries(w, [], [], [])
  {
    forall e | e in RootEdges(root) ensures Reachable(w, root, e) { RootReachable(w, root, e); }
    assert [] + RootEdges(root) == RootEdges(root);
  }

  lemma {:induction false} BadEdge(w: World, root: Manifest, e: Edge)
    requires Reachable(w, root, e) && !EdgeOk(w, e)
    ensures !Consistent(w, root)
  {
  }

  /** `resolveAll`. In a world where only finitely many packages can be reached it terminates; it succeeds exactly when
      the dependency graph is consistent. */
  method ResolveAll(w: World, root: Manifest, ghost all: set<Identity>) returns (r: Option<seq<Resolved<Dir>>>, ghost ids: seq<Identity>)
    requires Parsed(root) && FiniteWorld(w, root, all)
    ensures r.Some? <==> Consistent(w, root)
    ensures r.Some? ==> Resolution(w, root, r.value, ids)
  {
    hide Frontier, Entries, Tables, Reachable, Find, Package, Consistent, Resolution, FiniteWorld, Follows, Parsed, EdgeOk, SubEdges;
    var results: seq<Resolved<Dir>> := [];
    var track: seq<Identity> := [];
    var indexByName: map<string, nat> := map[];
    var versions: map<Identity, string> := map[];
    var descended: set<Identity> := {};
    var queue := RootEdges(root);
    ghost var seen: seq<Edge> := [];
    ids := [];
    QueueStarts(w, root);
    assert Tables([], [], map[], map[], {}) by { EmptyTables(); }
    while queue != []
      invariant Frontier(w, root, seen, queue) && Entries(w, seen, results, track)
      invariant Tables(results, track, indexByName, versions, descended) && descended <= all
      decreases all - descended, |queue|
    {
      var e := queue[0];
      ghost var before := queue;
      FrontReachable(w, root, seen, queue);
      queue := queue[1..];
      var found := Find(w, e);
      if found.None? {
        assert !EdgeOk(w, e) by { NotFound(w, e); }
        BadEdge(w, root, e);
        return None, ids;
      }
      var identity := found.value;
      if e.dep.name in indexByName {
        var k := indexByName[e.dep.name];
        TableAt(results, track, indexByName, versions, descended, e.dep.name);
        if track[k] != identity {
          SeenReachable(w, root, seen, before);
          ConflictIsInconsistent(w, root, seen, results, track, e, k);
          return None, ids;
        }
        RepeatKeeps(w, seen, results, track, e, k);
        if e.dep.version != "" && versions[track[k]] != e.dep.version {
          BadEdge(w, root, e);
          return None, ids;
        }
        forall f | Follows(w, e, f) ensures f in seen || f in before {
          RepeatFollows(w, root, seen, before, results, track, e, k, f);
        }
        FrontierMoves(w, root, seen, before, []);
        assert before[1..] + [] == before[1..];
        seen := seen + [e];
        continue;
      }
      var dir := DirFor(e.dep.name, identity);
      var manifest := Load(w, dir);
      LoadedEdge(w, e, identity);
      if manifest.None? || manifest.value.name != e.dep.name || (e.dep.version != "" && manifest.value.version != e.dep.version) {
        BadEdge(w, root, e);
        return None, ids;
      }
      var rd := Resolved(e.dep.name, e.dep.kind, e.dep.source, e.dep.ref, RefFor(identity), manifest.value.version,
                         DepsFingerprint(manifest.value), dir);
      NewName(results, track, indexByName, versions, descended, e.dep.name);
      FreshIdentity(w, seen, results, track, e.dep.name, identity);
      NewKeeps(w, seen, results, track, e);
      TablesGrow(results, track, indexByName, versions, descended, rd, identity);
      assert identity !in descended by { DescendedAre(results, track, indexByName, versions, descended, identity); }
      indexByName := indexByName[e.dep.name := |results|];
      track := track + [identity];
      versions := versions[identity := rd.packageVersion];
      results := results + [rd];
      if identity !in descended {
        descended := descended + {identity};
        queue := queue + EdgesFrom(dir, manifest.value);
      }
      assert forall f :: Follows(w, e, f) <==> f in EdgesFrom(dir, manifest.value);
      FrontierMoves(w, root, seen, before, EdgesFrom(dir, manifest.value));
      InWorld(w, root, all, e);
      seen := seen + [e];
    }
    SuccessIsConsistent(w, root, seen, results, track);
    SuccessIsResolution(w, root, seen, results, track);
    return Some(results), track;
  }

  lemma {:induction false} EmptyTables()
    ensures Tables([], [], map[], map[], {})
  {
  }

  lemma {:induction false} FrontReachable(w: World, root: Manifest, seen: seq<Edge>, queue: seq<Edge>)
    requires Frontier(w, root, seen, queue) && queue != []
    ensures Reachable(w, root, queue[0])
  {
    hide Reachable;
    assert queue[0] in queue;
  }

  lemma {:induction false} SeenReachable(w: World, root: Manifest, seen: seq<Edge>, queue: seq<Edge>)
    requires Frontier(w, root, seen, queue)
    ensures forall f :: f in seen ==> Reachable(w, root, f)
  {
    hide Reachable;
  }

  lemma {:induction false} NotFound(w: World, e: Edge)
    requires Find(w, e).None?
    ensures !EdgeOk(w, e)
  {
  }

  lemma {:induction false} TableAt(results: seq<Resolved<Dir>>, ids: seq<Identity>, indexByName: map<string, nat>,
                                   versions: map<Identity, string>, descended: set<Identity>, name: string)
    requires Tables(results, ids, indexByName, versions, descended) && name in indexByName
    ensures var k := indexByName[name];
            && k < |results| == |ids| && results[k].name == name
            && ids[k] in versions && versions[ids[k]] == results[k].packageVersion
  {
  }

  lemma {:induction false} NewName(results: seq<Resolved<Dir>>, ids: seq<Identity>, indexByName: map<string, nat>,
                                   versions: map<Identity, string>, descended: set<Identity>, name: string)
    requires Tables(results, ids, indexByName, versions, descended) && name !in indexByName
    ensures forall k :: 0 <= k < |results| ==> results[k].name != name
  {
  }

  lemma {:induction false} DescendedAre(results: seq<Resolved<Dir>>, ids: seq<Identity>, indexByName: map<string, nat>,
                                        versions: map<Identity, string>, descended: set<Identity>, id: Identity)
    requires Tables(results, ids, indexByName, versions, descended) && id !in ids
    ensures id !in descended
  {
  }

  lemma {:induction false} InWorld(w: World, root: Manifest, all: set<Identity>, e: Edge)
    requires FiniteWorld(w, root, all) && Reachable(w, root, e) && Find(w, e).Some?
    ensures Find(w, e).value in all
  {
  }

  /** Reading the manifest decides whether a located declaration is good, and what it declares in turn. */
  lemma {:induction false} LoadedEdge(w: World, e: Edge, id: Identity)
    requires Find(w, e) == Some(id)
    ensures var m := Load(w, DirFor(e.dep.name, id));
            && (EdgeOk(w, e) <==> m.Some? && m.value.name == e.dep.name && (e.dep.version == "" || m.value.version == e.dep.version))
            && (EdgeOk(w, e) ==> && Package(w, e.dep.name, id) == m
                                 && Entry(w, e) == Resolved(e.dep.name, e.dep.kind, e.dep.source, e.dep.ref, RefFor(id), m.value.version,
                                                            DepsFingerprint(m.value), DirFor(e.dep.name, id))
                                 && forall f :: Follows(w, e, f) <==> f in EdgesFrom(DirFor(e.dep.name, id), m.value))
  {
    hide DirFor, Load, EdgesFrom;
  }
}

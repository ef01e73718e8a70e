/** The whole way of a lock: resolve, write the lock as text, read the text, and use the lock. */
module LockEndToEnd {
  import opened Wrappers
  import opened PackageWorld
  import opened Fingerprints
  import opened PackageResolver
  import opened PackageLock
  import opened LockReuse
  import LockFormat

  /** How directories are written, and read back. */
  datatype Paths = Paths(show: Dir -> string, read: string -> Dir)

  ghost predicate Faithful(paths: Paths) {
    forall d :: paths.read(paths.show(d)) == d
  }

  function ToText(paths: Paths, d: Resolved<Dir>): Resolved<string> {
    Resolved(d.name, d.kind, d.source, d.declaredRef, d.resolvedRef, d.packageVersion, d.depsFingerprint, paths.show(d.dir))
  }

  function FromText(paths: Paths, d: Resolved<string>): Resolved<Dir> {
    Resolved(d.name, d.kind, d.source, d.declaredRef, d.resolvedRef, d.packageVersion, d.depsFingerprint, paths.read(d.dir))
  }

  function AllToText(paths: Paths, lock: LockFile<Dir>): (r: LockFile<string>)
    ensures |r.deps| == |lock.deps|
  {
    LockFile(lock.manifestSha, seq(|lock.deps|, i requires 0 <= i < |lock.deps| => ToText(paths, lock.deps[i])))
  }

  function AllFromText(paths: Paths, lock: LockFile<string>): (r: LockFile<Dir>)
    ensures |r.deps| == |lock.deps|
  {
    LockFile(lock.manifestSha, seq(|lock.deps|, i requires 0 <= i < |lock.deps| => FromText(paths, lock.deps[i])))
  }

  lemma {:induction false} TextAndBack(paths: Paths, lock: LockFile<Dir>)
    requires Faithful(paths)
    ensures AllFromText(paths, AllToText(paths, lock)) == lock
  {
    var back := AllFromText(paths, AllToText(paths, lock));
    forall i | 0 <= i < |lock.deps| ensures back.deps[i] == lock.deps[i] {
      assert paths.read(paths.show(lock.deps[i].dir)) == lock.deps[i].dir;
    }
  }

  /** Every resolved package has a valid name. */
  lemma {:induction false} NamesAreValid(w: World, root: Manifest, deps: seq<Resolved<Dir>>, ids: seq<Identity>, paths: Paths, sha: string)
    requires Parsed(root) && Resolution(w, root, deps, ids)
    ensures LockFormat.NamesFit(AllToText(paths, LockFile(sha, deps)).deps)
  {
    hide Parsed, Resolution, Reachable, EdgeOk, ValidName, Find, Package, DepsFingerprint;
    forall i | 0 <= i < |deps| ensures ValidName(deps[i].name) {
      var e := Source(w, root, deps, ids, i);
    }
  }

  /** A lock on disk: its text. */
  method Save(paths: Paths, lock: LockFile<Dir>) returns (text: string)
    ensures text == LockFormat.TextOf(AllToText(paths, lock))
  {
    text := LockFormat.WriteLockFile(AllToText(paths, lock));
  }

  method LoadLock(paths: Paths, text: string) returns (lock: Option<LockFile<Dir>>)
    ensures var r := LockFormat.ReadText(text); lock == if r.Some? then Some(AllFromText(paths, r.value)) else None
  {
    var back := LockFormat.ReadLockFile(text);
    return if back.Some? then Some(AllFromText(paths, back.value)) else None;
  }

  /** Install, with the lock written to a file; then install again from the text in that file. In an unchanged world the
      text is read without error, the lock is accepted, nothing is resolved again, and the list is the same. */
  method InstallThroughText(w: World, root: Manifest, paths: Paths, ghost all: set<Identity>)
    returns (first: Option<seq<Resolved<Dir>>>, text: Option<string>, second: Option<seq<Resolved<Dir>>>)
    requires Parsed(root) && FiniteWorld(w, root, all) && Faithful(paths)
    requires forall deps, ids :: Resolution(w, root, deps, ids) ==> AllCached(w, deps)
    ensures first.Some? <==> Consistent(w, root)
    ensures text.Some? <==> first.Some?
    ensures first == second
    ensures first.Some? ==> Fresh(w, root, LockFile(ManifestFingerprint(root), first.value))
    ensures first.Some? ==> text.value == LockFormat.TextOf(AllToText(paths, LockFile(ManifestFingerprint(root), first.value)))
  {
    hide Parsed, FiniteWorld, Fresh, Consistent, Resolution, ManifestFingerprint, RebuiltAs, AllCached, Faithful;
    hide AllToText, AllFromText, LockFormat.TextOf, LockFormat.ReadText, LockFormat.NamesFit;
    ghost var ids, ids2;
    var written, written2;
    first, written, ids := EnsureInstalled(w, root, None, false, all);
    if first.None? { return None, None, None; }
    var saved := Save(paths, written.value);
    text := Some(saved);
    NamesAreValid(w, root, first.value, ids, paths, ManifestFingerprint(root));
    LockFormat.RoundTrip(AllToText(paths, written.value));
    TextAndBack(paths, written.value);
    var lock := LoadLock(paths, saved);
    assert lock == Some(written.value);
    OwnLockIsFresh(w, root, first.value, ids);
    second, written2, ids2 := EnsureInstalled(w, root, lock, false, all);
    RebuiltOnce(w, root, first.value, first.value, second.value);
  }
}

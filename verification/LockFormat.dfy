/** The text of a lock file (zlpkg/lockfile.cpp): writing it, reading it, and the round trip. */
module LockFormat {
  import opened Wrappers
  import opened PackageWorld
  import opened LockText

  /** An entry as the file holds it: its directory is text. */
  type LockEntry = Resolved<string>

  // ---------- writing ----------

  const TITLE := "# zlpkg.lock - " + ("generated by " + ("`zlpkg install`" + (". Do not edit " + "by hand.")))
  const ADVICE := "# Run `zlpkg " + ("install " + ("--update` to " + ("re-resolve and " + ("rewrite this " + "file."))))
  const HEADER: seq<string> := [TITLE, ADVICE]

  ghost predicate IsComment(line: string) {
    line != "" && line[0] == '#' && line[|line| - 1] == '.' && NoNewline(line)
  }

  lemma {:induction false} TitleIsComment()
    ensures IsComment(TITLE)
  {
    var a, b, c, d, e := "# zlpkg.lock - ", "generated by ", "`zlpkg install`", ". Do not edit ", "by hand.";
    assert NoNewline(a) && NoNewline(b) && NoNewline(c) && NoNewline(d) && NoNewline(e);
    assert a[0] == '#' && e[|e| - 1] == '.';
    hide NoNewline;
    Pieces(d, e);
    Pieces(c, d + e);
    Pieces(b, c + (d + e));
    Pieces(a, b + (c + (d + e)));
  }

  lemma {:induction false} AdviceIsComment()
    ensures IsComment(ADVICE)
  {
    var a, b, c, d, e, f := "# Run `zlpkg ", "install ", "--update` to ", "re-resolve and ", "rewrite this ", "file.";
    assert NoNewline(a) && NoNewline(b) && NoNewline(c) && NoNewline(d) && NoNewline(e) && NoNewline(f);
    assert a[0] == '#' && f[|f| - 1] == '.';
    hide NoNewline;
    Pieces(e, f);
    Pieces(d, e + f);
    Pieces(c, d + (e + f));
    Pieces(b, c + (d + (e + f)));
    Pieces(a, b + (c + (d + (e + f))));
  }

  lemma {:induction false} Pieces(a: string, b: string)
    requires a != "" && b != ""
    ensures a + b != "" && (a + b)[0] == a[0] && (a + b)[|a + b| - 1] == b[|b| - 1]
    ensures NoNewline(a) && NoNewline(b) ==> NoNewline(a + b)
  {
  }

  function KindText(kind: Kind): string {
    if kind == Git then "git" else "path"
  }

  function SectionLine(name: string): string {
    ['['] + ("dependency." + name) + [']']
  }

  /** The fields of an entry in the order they are written; an empty declared ref is left out. */
  function EntryFields(d: LockEntry): seq<(string, string)> {
    [("kind", KindText(d.kind)), ("source", d.source), ("ref", d.resolvedRef), ("package_version", d.packageVersion),
     ("deps_sha", d.depsFingerprint)]
      + (if d.declaredRef == "" then [] else [("declared_ref", d.declaredRef)])
      + [("dir", d.dir)]
  }

  function FieldLines(fields: seq<(string, string)>): (r: seq<string>)
    ensures |r| == |fields|
  {
    seq(|fields|, i requires 0 <= i < |fields| => FieldLine(fields[i].0, fields[i].1))
  }

  function EntryLines(d: LockEntry): seq<string> {
    ["", SectionLine(d.name)] + FieldLines(EntryFields(d))
  }

  function DepLines(deps: seq<LockEntry>): seq<string> {
    if deps == [] then [] else EntryLines(deps[0]) + DepLines(deps[1..])
  }

  function MetaLines(sha: string): seq<string> {
    ["", "[meta]"] + FieldLines([("version", "1"), ("manifest_sha", sha)])
  }

  function LockLines(lock: LockFile<string>): seq<string> {
    HEADER + (MetaLines(lock.manifestSha) + DepLines(lock.deps))
  }

  function TextOf(lock: LockFile<string>): string {
    Join(LockLines(lock))
  }

  /** `writeLockFile`: the entries one after the other. */
  method WriteLockFile(lock: LockFile<string>) returns (text: string)
    ensures text == TextOf(lock)
  {
    hide Join, EntryLines, MetaLines;
    text := Join(HEADER) + Join(MetaLines(lock.manifestSha));
    ghost var start := HEADER + MetaLines(lock.manifestSha);
    JoinConcat(HEADER, MetaLines(lock.manifestSha));
    assert lock.deps[0..] == lock.deps;
    ghost var done: seq<string> := [];
    assert start + [] == start;
    for i := 0 to |lock.deps|
      invariant text == Join(start + done) && done + DepLines(lock.deps[i..]) == DepLines(lock.deps)
    {
      var d := lock.deps[i];
      assert lock.deps[i..][0] == d && lock.deps[i..][1..] == lock.deps[i + 1..];
      text := text + Join(EntryLines(d));
      JoinConcat(start + done, EntryLines(d));
      assert start + done + EntryLines(d) == start + (done + EntryLines(d));
      assert done + (EntryLines(d) + DepLines(lock.deps[i + 1..])) == done + EntryLines(d) + DepLines(lock.deps[i + 1..]);
      done := done + EntryLines(d);
    }
    assert done + [] == done;
    assert start + DepLines(lock.deps) == LockLines(lock);
  }

  // ---------- reading ----------

  /** What the reader holds between lines. */
  datatype Reader = Reader(inMeta: bool, hasCurrent: bool, lock: LockFile<string>)

  const EMPTY_ENTRY := Resolved("", Path, "", "", "", "", "", "")

  function SetField(d: LockEntry, key: string, value: string): LockEntry {
    if key == "kind" then d.(kind := if value == "git" then Git else Path)
    else if key == "source" then d.(source := value)
    else if key == "ref" then d.(resolvedRef := value)
    else if key == "package_version" then d.(packageVersion := value)
    else if key == "deps_sha" then d.(depsFingerprint := value)
    else if key == "declared_ref" then d.(declaredRef := value)
    else if key == "dir" then d.(dir := value)
    else d
  }

  predicate StartsWith(s: string, prefix: string) {
    prefix <= s
  }

  function ReadSection(r: Reader, section: string): Option<Reader> {
    if section == "meta" then Some(Reader(true, false, r.lock))
    else if !StartsWith(section, "dependency.") then None
    else Some(Reader(false, true, r.lock.(deps := r.lock.deps + [EMPTY_ENTRY.(name := section[11..])])))
  }

  function ReadField(r: Reader, key: string, value: string): Option<Reader> {
    if r.inMeta then
      if key == "version" then (if value == "1" then Some(r) else None)
      else if key == "manifest_sha" then Some(r.(lock := r.lock.(manifestSha := value)))
      else Some(r)
    else if !r.hasCurrent || r.lock.deps == [] then None
    else
      var n := |r.lock.deps| - 1;
      Some(r.(lock := r.lock.(deps := r.lock.deps[n := SetField(r.lock.deps[n], key, value)])))
  }

  /** One line of input; none where the source throws. */
  function ReadLine(r: Reader, raw: string): Option<Reader> {
    var line := Trim(raw);
    if line == "" || line[0] == '#' then Some(r)
    else if |line| >= 2 && line[0] == '[' && line[|line| - 1] == ']' then ReadSection(r, line[1..|line| - 1])
    else
      var f := Field(line);
      if f.None? then None else ReadField(r, f.value.0, f.value.1)
  }

  function ReadLines(r: Reader, lines: seq<string>): Option<Reader>
    decreases |lines|
  {
    if lines == [] then Some(r) else
    var next := ReadLine(r, lines[0]);
    if next.None? then None else ReadLines(next.value, lines[1..])
  }

  const START := Reader(false, false, LockFile("", []))

  function ReadText(text: string): Option<LockFile<string>> {
    var r := ReadLines(START, Lines(text));
    if r.None? then None else Some(r.value.lock)
  }

  /** `readLockFile`: line by line, stopping at the first bad one. */
  method ReadLockFile(text: string) returns (lock: Option<LockFile<string>>)
    ensures lock == ReadText(text)
  {
    hide ReadLine;
    var lines := Lines(text);
    var r := START;
    assert lines[0..] == lines;
    for i := 0 to |lines|
      invariant ReadLines(START, lines) == ReadLines(r, lines[i..])
    {
      assert lines[i..][0] == lines[i] && lines[i..][1..] == lines[i + 1..];
      var next := ReadLine(r, lines[i]);
      if next.None? { return None; }
      r := next.value;
    }
    return Some(r.lock);
  }

  // ---------- the round trip ----------

  lemma {:induction false} ReadConcat(r: Reader, a: seq<string>, b: seq<string>)
    ensures ReadLines(r, a + b) == var m := ReadLines(r, a); if m.None? then None else ReadLines(m.value, b)
    decreases |a|
  {
    hide ReadLine;
    if a == [] {
      assert a + b == b;
    } else {
      assert (a + b)[0] == a[0] && (a + b)[1..] == a[1..] + b;
      var next := ReadLine(r, a[0]);
      if next.Some? { ReadConcat(next.value, a[1..], b); }
    }
  }

  lemma {:induction false} ReadFieldLine(r: Reader, key: string, value: string)
    requires PlainKey(key)
    ensures ReadLine(r, FieldLine(key, value)) == ReadField(r, key, value)
  {
    hide Trim, FieldLine, Field, ReadField, PlainKey;
    FieldLineIsPlain(key, value);
    FieldOfFieldLine(key, value);
  }

  ghost predicate PlainKeys(fields: seq<(string, string)>) {
    forall i :: 0 <= i < |fields| ==> PlainKey(fields[i].0)
  }

  /** Reading the fields of an entry sets them one after the other. */
  function SetAll(d: LockEntry, fields: seq<(string, string)>): LockEntry
    decreases |fields|
  {
    if fields == [] then d else SetAll(SetField(d, fields[0].0, fields[0].1), fields[1..])
  }

  lemma {:induction false} ReadFields(sha: string, deps: seq<LockEntry>, d: LockEntry, fields: seq<(string, string)>)
    requires PlainKeys(fields)
    ensures ReadLines(Reader(false, true, LockFile(sha, deps + [d])), FieldLines(fields))
         == Some(Reader(false, true, LockFile(sha, deps + [SetAll(d, fields)])))
    decreases |fields|
  {
    hide ReadLine, SetField, FieldLine;
    if fields != [] {
      var r := Reader(false, true, LockFile(sha, deps + [d]));
      var lines := FieldLines(fields);
      assert lines[1..] == FieldLines(fields[1..]) && lines[0] == FieldLine(fields[0].0, fields[0].1);
      ReadFieldLine(r, fields[0].0, fields[0].1);
      var d2 := SetField(d, fields[0].0, fields[0].1);
      assert (deps + [d])[|deps| := d2] == deps + [d2];
      ReadFields(sha, deps, d2, fields[1..]);
    }
  }

  lemma {:induction false} SetAllFields(d: LockEntry)
    ensures SetAll(EMPTY_ENTRY.(name := d.name), EntryFields(d)) == d
  {
    hide KindText;
    var e0 := EMPTY_ENTRY.(name := d.name);
    var fields := EntryFields(d);
    SetFirst(e0, fields);
    var e1 := SetField(e0, "kind", KindText(d.kind));
    assert e1 == e0.(kind := d.kind) by { KindBack(e0, d.kind); }
    SetFirst(e1, fields[1..]);
    SetFirst(e1.(source := d.source), fields[2..]);
    SetThree(e1.(source := d.source, resolvedRef := d.resolvedRef), d, fields);
  }

  lemma {:induction false} KindBack(e: LockEntry, kind: Kind)
    ensures SetField(e, "kind", KindText(kind)) == e.(kind := kind)
  {
    assert "path" != "git" by { assert |"path"| != |"git"|; }
  }

  lemma {:induction false} SetFirst(d: LockEntry, fields: seq<(string, string)>)
    requires fields != []
    ensures SetAll(d, fields) == SetAll(SetField(d, fields[0].0, fields[0].1), fields[1..])
  {
  }

  lemma {:induction false} SetThree(e: LockEntry, d: LockEntry, fields: seq<(string, string)>)
    requires fields == EntryFields(d) && e == EMPTY_ENTRY.(name := d.name, kind := d.kind, source := d.source, resolvedRef := d.resolvedRef)
    ensures SetAll(e, fields[3..]) == d
  {
    SetFirst(e, fields[3..]);
    var e4 := e.(packageVersion := d.packageVersion);
    assert fields[3..][1..] == fields[4..];
    SetFirst(e4, fields[4..]);
    var e5 := e4.(depsFingerprint := d.depsFingerprint);
    assert fields[4..][1..] == fields[5..];
    SetFirst(e5, fields[5..]);
    if d.declaredRef != "" {
      SetFirst(e5.(declaredRef := d.declaredRef), fields[6..]);
    }
  }

  lemma {:induction false} EntryKeysPlain(d: LockEntry)
    ensures PlainKeys(EntryFields(d))
  {
    KeysPlain();
    var fields := EntryFields(d);
    forall i | 0 <= i < |fields| ensures PlainKey(fields[i].0) {
      hide PlainKey;
      if i >= 5 { assert fields[i].0 == "declared_ref" || fields[i].0 == "dir"; }
    }
  }

  lemma {:induction false} KeysPlain()
    ensures PlainKey("kind") && PlainKey("source") && PlainKey("ref") && PlainKey("package_version") && PlainKey("deps_sha")
    ensures PlainKey("declared_ref") && PlainKey("dir") && PlainKey("version") && PlainKey("manifest_sha")
  {
  }

  lemma {:induction false} ReadBlank(r: Reader)
    ensures ReadLine(r, "") == Some(r)
  {
    assert Trim("") == "";
  }

  lemma {:induction false} ReadComment(r: Reader, line: string)
    requires IsComment(line)
    ensures ReadLine(r, line) == Some(r)
  {
    hide Trim, NoNewline;
    TrimNothing(line);
  }

  lemma {:induction false} ReadSectionLine(r: Reader, name: string)
    ensures ReadLine(r, SectionLine(name)) == Some(Reader(false, true, LockFile(r.lock.manifestSha, r.lock.deps + [EMPTY_ENTRY.(name := name)])))
  {
    hide Trim, Field, ReadField;
    var line, section := SectionLine(name), "dependency." + name;
    assert line[0] == '[' && line[|line| - 1] == ']';
    TrimNothing(line);
    assert line[1..|line| - 1] == section;
    assert |section| >= 11 && |"meta"| == 4;
    assert section[11..] == name;
  }

  /** Reading one written entry appends exactly that entry. */
  lemma {:induction false} ReadEntry(r: Reader, d: LockEntry)
    ensures ReadLines(r, EntryLines(d)) == Some(Reader(false, true, LockFile(r.lock.manifestSha, r.lock.deps + [d])))
  {
    hide ReadLine, SetAll, EntryFields, SectionLine, FieldLines;
    var lines := FieldLines(EntryFields(d));
    var next := Reader(false, true, LockFile(r.lock.manifestSha, r.lock.deps + [EMPTY_ENTRY.(name := d.name)]));
    ReadBlank(r);
    ReadSectionLine(r, d.name);
    assert EntryLines(d)[1..] == [SectionLine(d.name)] + lines;
    assert ([SectionLine(d.name)] + lines)[1..] == lines;
    assert ReadLines(r, EntryLines(d)) == ReadLines(next, lines);
    EntryKeysPlain(d);
    ReadFields(r.lock.manifestSha, r.lock.deps, EMPTY_ENTRY.(name := d.name), EntryFields(d));
    SetAllFields(d);
  }

  lemma {:induction false} ReadDeps(r: Reader, deps: seq<LockEntry>)
    ensures var out := ReadLines(r, DepLines(deps)); out.Some? && out.value.lock == LockFile(r.lock.manifestSha, r.lock.deps + deps)
    decreases |deps|
  {
    hide EntryLines, ReadLine;
    if deps == [] {
      assert r.lock.deps + [] == r.lock.deps;
    } else {
      ReadEntry(r, deps[0]);
      var next := Reader(false, true, LockFile(r.lock.manifestSha, r.lock.deps + [deps[0]]));
      ReadConcat(r, EntryLines(deps[0]), DepLines(deps[1..]));
      ReadDeps(next, deps[1..]);
      assert r.lock.deps + [deps[0]] + deps[1..] == r.lock.deps + deps;
    }
  }

  lemma {:induction false} ReadMetaSection(r: Reader)
    ensures ReadLine(r, "[meta]") == Some(Reader(true, false, r.lock))
  {
    hide Trim, Field, ReadField;
    var line := "[meta]";
    TrimNothing(line);
    assert line[1..|line| - 1] == "meta";
  }

  lemma {:induction false} ReadMetaField(lock: LockFile<string>, sha: string)
    ensures ReadField(Reader(true, false, lock), "version", "1") == Some(Reader(true, false, lock))
    ensures ReadField(Reader(true, false, lock), "manifest_sha", sha) == Some(Reader(true, false, lock.(manifestSha := sha)))
  {
    assert |"version"| != |"manifest_sha"|;
  }

  lemma {:induction false} ReadMeta(r: Reader, sha: string)
    ensures ReadLines(r, MetaLines(sha)) == Some(Reader(true, false, r.lock.(manifestSha := sha)))
  {
    hide ReadLine, FieldLine, ReadField, PlainKey;
    var fields := [("version", "1"), ("manifest_sha", sha)];
    var lines := MetaLines(sha);
    var r1 := Reader(true, false, r.lock);
    assert lines == ["", "[meta]", FieldLine("version", "1"), FieldLine("manifest_sha", sha)];
    KeysPlain();
    ReadBlank(r);
    ReadMetaSection(r);
    ReadFieldLine(r1, "version", "1");
    ReadFieldLine(r1, "manifest_sha", sha);
    ReadMetaField(r.lock, sha);
    assert ReadLines(r, lines) == ReadLines(r, lines[1..]);
    assert lines[1..][1..] == lines[2..] && lines[2..][1..] == lines[3..] && lines[3..][1..] == [];
    assert ReadLines(r, lines[1..]) == ReadLines(r1, lines[2..]);
    assert ReadLines(r1, lines[2..]) == ReadLines(r1, lines[3..]);
  }

  lemma {:induction false} ReadHeader(r: Reader)
    ensures ReadLines(r, HEADER) == Some(r)
  {
    hide ReadLine, TITLE, ADVICE, IsComment;
    TitleIsComment();
    AdviceIsComment();
    ReadComment(r, HEADER[0]);
    ReadComment(r, HEADER[1]);
    assert HEADER[1..][1..] == [];
    assert ReadLines(r, HEADER) == ReadLines(r, HEADER[1..]);
  }

  lemma {:induction false} ReadLockLines(lock: LockFile<string>)
    ensures var out := ReadLines(START, LockLines(lock)); out.Some? && out.value.lock == lock
  {
    hide ReadLines, MetaLines, DepLines;
    ReadConcat(START, HEADER, MetaLines(lock.manifestSha) + DepLines(lock.deps));
    ReadHeader(START);
    ReadConcat(START, MetaLines(lock.manifestSha), DepLines(lock.deps));
    ReadMeta(START, lock.manifestSha);
    ReadDeps(Reader(true, false, LockFile(lock.manifestSha, [])), lock.deps);
    assert [] + lock.deps == lock.deps;
  }

  // ---------- no line break inside a line ----------

  ghost predicate NamesFit(deps: seq<LockEntry>) {
    forall i :: 0 <= i < |deps| ==> ValidName(deps[i].name)
  }

  lemma {:induction false} FieldLinesFit(fields: seq<(string, string)>)
    requires PlainKeys(fields)
    ensures AllLines(FieldLines(fields))
  {
    hide FieldLine, Trim, NoNewline, PlainKey;
    forall i | 0 <= i < |fields| ensures NoNewline(FieldLines(fields)[i]) { FieldLineIsPlain(fields[i].0, fields[i].1); }
  }

  lemma {:induction false} EntryLinesFit(d: LockEntry)
    requires ValidName(d.name)
    ensures AllLines(EntryLines(d))
  {
    hide FieldLines, EntryFields, PlainKeys;
    EntryKeysPlain(d);
    FieldLinesFit(EntryFields(d));
    var name := d.name;
    assert NoNewline(SectionLine(name)) by {
      assert forall i :: 0 <= i < |name| ==> NameChar(name[i]);
    }
    FitConcat(["", SectionLine(name)], FieldLines(EntryFields(d)));
  }

  lemma {:induction false} FitConcat(a: seq<string>, b: seq<string>)
    requires AllLines(a) && AllLines(b)
    ensures AllLines(a + b)
  {
    hide NoNewline;
  }

  lemma {:induction false} DepLinesFit(deps: seq<LockEntry>)
    requires NamesFit(deps)
    ensures AllLines(DepLines(deps))
  {
    hide EntryLines, ValidName, AllLines;
    if deps == [] {
      NothingFits();
    } else {
      EntryLinesFit(deps[0]);
      DepLinesFit(deps[1..]);
      FitConcat(EntryLines(deps[0]), DepLines(deps[1..]));
    }
  }

  lemma {:induction false} NothingFits()
    ensures AllLines([])
  {
  }

  lemma {:induction false} MetaLinesFit(sha: string)
    ensures AllLines(MetaLines(sha)) && AllLines(HEADER)
  {
    hide FieldLines, PlainKey, TITLE, ADVICE;
    TitleIsComment();
    AdviceIsComment();
    KeysPlain();
    var fields := [("version", "1"), ("manifest_sha", sha)];
    FieldLinesFit(fields);
    FitConcat(["", "[meta]"], FieldLines(fields));
  }

  /** Reading back what was written gives the same fingerprint and the same entries, whatever characters the fields
      hold, as long as the names are valid package names. */
  lemma {:induction false} RoundTrip(lock: LockFile<string>)
    requires NamesFit(lock.deps)
    ensures ReadText(TextOf(lock)) == Some(lock)
  {
    hide ReadLines, MetaLines, DepLines, AllLines, NamesFit;
    MetaLinesFit(lock.manifestSha);
    DepLinesFit(lock.deps);
    FitConcat(MetaLines(lock.manifestSha), DepLines(lock.deps));
    FitConcat(HEADER, MetaLines(lock.manifestSha) + DepLines(lock.deps));
    LinesJoin(LockLines(lock));
    ReadLockLines(lock);
  }

  /** Writing a lock and reading it. */
  method WriteThenRead(lock: LockFile<string>) returns (back: Option<LockFile<string>>)
    requires NamesFit(lock.deps)
    ensures back == Some(lock)
  {
    hide ReadText, TextOf, NamesFit;
    var text := WriteLockFile(lock);
    back := ReadLockFile(text);
    RoundTrip(lock);
  }
}

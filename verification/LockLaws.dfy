/** The lock file as a reader of the file sees it (zlpkg/lockfile.cpp): what the lines of an entry look like, and what
    hand-written lines mean, with blanks, comments and escapes wherever they may stand. */
module LockLaws {
  import opened Wrappers
  import opened PackageWorld
  import opened LockText
  import opened LockFormat

  // ---------- what is written ----------

  /** Text that needs no escapes. */
  ghost predicate Plain(s: string) {
    forall i :: 0 <= i < |s| ==> s[i] !in {'\\', '"', '\n', '\r', '\t'}
  }

  lemma {:induction false} PlainQuote(s: string)
    requires Plain(s)
    ensures Quote(s) == "\"" + s + "\""
  {
    PlainEscape(s);
  }

  lemma {:induction false} PlainEscape(s: string)
    requires Plain(s)
    ensures Escape(s) == s
  {
    if s != [] {
      assert s[0] !in {'\\', '"', '\n', '\r', '\t'};
      PlainEscape(s[1..]);
      assert s == [s[0]] + s[1..];
    }
  }

  /** The escapes, wherever they stand. */
  lemma {:induction false} EscapesLook(a: string, b: string)
    ensures Escape(a + "\n" + b) == Escape(a) + "\\n" + Escape(b)
    ensures Escape(a + "\r" + b) == Escape(a) + "\\r" + Escape(b)
    ensures Escape(a + "\t" + b) == Escape(a) + "\\t" + Escape(b)
    ensures Escape(a + "\"" + b) == Escape(a) + "\\\"" + Escape(b)
    ensures Escape(a + "\\" + b) == Escape(a) + "\\\\" + Escape(b)
  {
    hide Escape, EscapeChar;
    Around(a, '\n', "\\n", b);
    Around(a, '\r', "\\r", b);
    Around(a, '\t', "\\t", b);
    Around(a, '"', "\\\"", b);
    Around(a, '\\', "\\\\", b);
  }

  lemma {:induction false} Around(a: string, c: char, written: string, b: string)
    requires written == match c case '\n' => "\\n" case '\r' => "\\r" case '\t' => "\\t" case '"' => "\\\"" case _ => "\\\\"
    requires c in {'\n', '\r', '\t', '"', '\\'}
    ensures Escape(a + [c] + b) == Escape(a) + written + Escape(b)
  {
    hide Escape;
    EscapeConcat(a, c);
    EscapeJoin(a + [c], b);
    assert EscapeChar(c) == written;
  }

  lemma {:induction false} EscapeJoin(a: string, b: string)
    ensures Escape(a + b) == Escape(a) + Escape(b)
  {
    hide EscapeChar;
    if a == [] {
      assert a + b == b;
    } else {
      EscapeJoin(a[1..], b);
      assert (a + b)[0] == a[0] && (a + b)[1..] == a[1..] + b;
      assert EscapeChar(a[0]) + (Escape(a[1..]) + Escape(b)) == EscapeChar(a[0]) + Escape(a[1..]) + Escape(b);
    }
  }

  ghost predicate PlainEntry(d: LockEntry) {
    && Plain(d.source) && Plain(d.resolvedRef) && Plain(d.packageVersion) && Plain(d.depsFingerprint)
    && Plain(d.declaredRef) && Plain(d.dir)
  }

  /** The lines of an entry; the declared ref has a line only if it is not empty. */
  lemma {:induction false} EntryLooks(d: LockEntry)
    requires PlainEntry(d)
    ensures EntryLines(d) ==
            ["", "[dependency." + d.name + "]",
             if d.kind == Git then "kind = \"git\"" else "kind = \"path\"",
             "source = \"" + d.source + "\"",
             "ref = \"" + d.resolvedRef + "\"",
             "package_version = \"" + d.packageVersion + "\"",
             "deps_sha = \"" + d.depsFingerprint + "\""]
            + (if d.declaredRef == "" then [] else ["declared_ref = \"" + d.declaredRef + "\""])
            + ["dir = \"" + d.dir + "\""]
  {
    hide Quote, FieldLine, SectionLine;
    KindLooks(d.kind);
    LineLooks("source", d.source);
    LineLooks("ref", d.resolvedRef);
    LineLooks("package_version", d.packageVersion);
    LineLooks("deps_sha", d.depsFingerprint);
    LineLooks("declared_ref", d.declaredRef);
    LineLooks("dir", d.dir);
    KeysLook();
    SectionLooks(d.name);
    FieldsLook(d);
  }

  lemma {:induction false} SectionLooks(name: string)
    ensures SectionLine(name) == "[dependency." + name + "]"
  {
    assert "[" + "dependency." == "[dependency.";
    assert "[" + ("dependency." + name) == "[" + "dependency." + name;
  }

  lemma {:induction false} LineLooks(key: string, value: string)
    requires Plain(value)
    ensures FieldLine(key, value) == key + " = \"" + value + "\""
  {
    PlainQuote(value);
    assert " = " + "\"" == " = \"";
    assert key + " = " + ("\"" + value + "\"") == key + (" = " + "\"") + value + "\"";
  }

  lemma {:induction false} KeysLook()
    ensures "source" + " = \"" == "source = \"" && "ref" + " = \"" == "ref = \"" && "package_version" + " = \"" == "package_version = \""
    ensures "deps_sha" + " = \"" == "deps_sha = \"" && "declared_ref" + " = \"" == "declared_ref = \"" && "dir" + " = \"" == "dir = \""
  {
  }

  lemma {:induction false} KindLooks(kind: Kind)
    ensures FieldLine("kind", KindText(kind)) == if kind == Git then "kind = \"git\"" else "kind = \"path\""
  {
    assert Plain("git") && Plain("path");
    LineLooks("kind", KindText(kind));
    assert "kind" + " = \"" == "kind = \"";
    assert "kind = \"" + "git" + "\"" == "kind = \"git\"";
    assert "kind = \"" + "path" + "\"" == "kind = \"path\"";
  }

  lemma {:induction false} FieldsLook(d: LockEntry)
    ensures EntryLines(d) ==
            ["", SectionLine(d.name), FieldLine("kind", KindText(d.kind)), FieldLine("source", d.source), FieldLine("ref", d.resolvedRef),
             FieldLine("package_version", d.packageVersion), FieldLine("deps_sha", d.depsFingerprint)]
            + (if d.declaredRef == "" then [] else [FieldLine("declared_ref", d.declaredRef)])
            + [FieldLine("dir", d.dir)]
  {
    hide FieldLine, SectionLine, KindText;
  }

  /** The first section, with the format version. */
  lemma {:induction false} MetaLooks(sha: string)
    requires Plain(sha)
    ensures MetaLines(sha) == ["", "[meta]", "version = \"1\"", "manifest_sha = \"" + sha + "\""]
  {
    hide FieldLine;
    assert Plain("1");
    LineLooks("version", "1");
    LineLooks("manifest_sha", sha);
    assert "version" + " = \"" + "1" + "\"" == "version = \"1\"";
    assert "manifest_sha" + " = \"" == "manifest_sha = \"";
  }

  // ---------- what is read ----------

  ghost predicate Blank(s: string) {
    forall i :: 0 <= i < |s| ==> s[i] in {' ', '\t', '\r', '\n'}
  }

  lemma {:induction false} LeftBlanks(p: string, s: string)
    requires Blank(p)
    ensures TrimLeft(p + s) == TrimLeft(s)
  {
    if p == [] {
      assert p + s == s;
    } else {
      assert p[0] in {' ', '\t', '\r', '\n'};
      assert (p + s)[0] == p[0] && (p + s)[1..] == p[1..] + s;
      LeftBlanks(p[1..], s);
    }
  }

  lemma {:induction false} RightBlanks(s: string, q: string)
    requires Blank(q)
    ensures TrimRight(s + q) == TrimRight(s)
  {
    if q == [] {
      assert s + q == s;
    } else {
      var init := q[..|q| - 1];
      assert q[|q| - 1] in {' ', '\t', '\r', '\n'};
      assert (s + q)[|s + q| - 1] == q[|q| - 1] && (s + q)[..|s + q| - 1] == s + init;
      RightBlanks(s, init);
    }
  }

  lemma {:induction false} TrimBlanks(p: string, s: string, q: string)
    requires Blank(p) && Blank(q) && s != [] && !Space(s[0]) && !Space(s[|s| - 1])
    ensures Trim(p + s + q) == s
  {
    assert p + s + q == p + (s + q);
    LeftBlanks(p, s + q);
    assert (s + q)[0] == s[0];
    RightBlanks(s, q);
  }

  lemma {:induction false} TrimAllBlank(p: string)
    requires Blank(p)
    ensures Trim(p) == []
  {
    LeftBlanks(p, []);
    assert p + [] == p;
  }

  /** A blank line and a comment mean nothing. */
  lemma {:induction false} SkippedLines(r: Reader, p: string, comment: string)
    requires Blank(p)
    ensures ReadLine(r, p) == ReadLine(r, p + "#" + comment) == Some(r)
  {
    TrimAllBlank(p);
    var line := p + "#" + comment;
    assert line == p + ("#" + comment);
    LeftBlanks(p, "#" + comment);
    TrimRightKeeps("#" + comment);
  }

  lemma {:induction false} TrimRightKeeps(s: string)
    requires s != [] && !Space(s[0])
    ensures TrimRight(s) != [] && TrimRight(s)[0] == s[0]
  {
    if Space(s[|s| - 1]) { TrimRightKeeps(s[..|s| - 1]); }
  }

  /** `key = "body"` with any blanks around its parts. */
  function Written(p: seq<string>, key: string, body: string): string
    requires |p| == 4
  {
    p[0] + (key + (p[1] + ("=" + (p[2] + ("\"" + body + "\""))))) + p[3]
  }

  /** A hand-written field is read as the one whose value is the body with its escapes taken away. */
  lemma {:induction false} HandWritten(r: Reader, p: seq<string>, key: string, body: string)
    requires |p| == 4 && (forall i :: 0 <= i < 4 ==> Blank(p[i])) && PlainKey(key)
    ensures ReadLine(r, Written(p, key, body)) == ReadField(r, key, Unescape(body))
  {
    hide Trim, Field, ReadField, ReadSection;
    var quoted := "\"" + body + "\"";
    var line := key + (p[1] + ("=" + (p[2] + quoted)));
    assert KeyChar(key[0]) && line[0] == key[0] && line[|line| - 1] == quoted[|quoted| - 1] == '"';
    TrimBlanks(p[0], line, p[3]);
    FieldWritten(p[1], p[2], key, body);
  }

  lemma {:induction false} FieldWritten(p: string, q: string, key: string, body: string)
    requires Blank(p) && Blank(q) && PlainKey(key)
    ensures Field(key + (p + ("=" + (q + ("\"" + body + "\""))))) == Some((key, Unescape(body)))
  {
    hide Trim, Unescape;
    var quoted := "\"" + body + "\"";
    var line := key + (p + ("=" + (q + quoted)));
    var at := |key| + |p|;
    FirstEquals(key, p, q + quoted);
    assert line[..at] == key + p;
    assert line[at + 1..] == q + quoted;
    assert KeyChar(key[0]) && KeyChar(key[|key| - 1]);
    TrimBlanks([], key, p);
    assert [] + key + p == key + p;
    TrimBlanks(q, quoted, []);
    assert q + quoted + [] == q + quoted;
    assert quoted[1..|quoted| - 1] == body;
  }

  lemma {:induction false} FirstEquals(key: string, p: string, rest: string)
    requires PlainKey(key) && Blank(p)
    ensures FindEquals(key + (p + ("=" + rest))) == Some(|key| + |p|)
  {
    var line := key + (p + ("=" + rest));
    var at := |key| + |p|;
    assert line[at] == '=';
    forall i | 0 <= i < at ensures line[i] != '=' {
      if i < |key| { assert line[i] == key[i] && KeyChar(key[i]); } else { assert line[i] == p[i - |key|]; }
    }
  }

  /** Without a backslash the body is the value. */
  lemma {:induction false} PlainBody(s: string)
    requires forall i :: 0 <= i < |s| ==> s[i] != '\\'
    ensures Unescape(s) == s
  {
    if s != [] {
      PlainBody(s[1..]);
      assert s == [s[0]] + s[1..];
    }
  }

  /** The escapes of a value: three line and tab escapes, any other character stands for itself, and a backslash at the end too. */
  lemma {:induction false} EscapesMean(c: char, rest: string)
    ensures Unescape("\\n" + rest) == "\n" + Unescape(rest)
    ensures Unescape("\\r" + rest) == "\r" + Unescape(rest)
    ensures Unescape("\\t" + rest) == "\t" + Unescape(rest)
    ensures c !in {'n', 'r', 't'} ==> Unescape(['\\', c] + rest) == [c] + Unescape(rest)
    ensures Unescape("\\") == "\\"
  {
    EscapeMeans('n', '\n', rest);
    EscapeMeans('r', '\r', rest);
    EscapeMeans('t', '\t', rest);
    if c !in {'n', 'r', 't'} { EscapeMeans(c, c, rest); }
    assert "\\"[1..] == [] && Unescape([]) == [];
  }

  lemma {:induction false} EscapeMeans(c: char, v: char, rest: string)
    requires v == match c case 'n' => '\n' case 'r' => '\r' case 't' => '\t' case _ => c
    ensures Unescape(['\\', c] + rest) == [v] + Unescape(rest)
  {
    var s := ['\\', c] + rest;
    assert s[0] == '\\' && s[1] == c && s[2..] == rest;
  }

  function Inside(sha: string, deps: seq<LockEntry>, d: LockEntry): Reader {
    Reader(false, true, LockFile(sha, deps + [d]))
  }

  /** Inside an entry each key sets its own field of that entry; later lines win, and other keys are skipped. */
  lemma {:induction false} FieldsMean(sha: string, deps: seq<LockEntry>, d: LockEntry, key: string, v: string)
    ensures ReadField(Inside(sha, deps, d), "kind", v) == Some(Inside(sha, deps, d.(kind := if v == "git" then Git else Path)))
    ensures ReadField(Inside(sha, deps, d), "source", v) == Some(Inside(sha, deps, d.(source := v)))
    ensures ReadField(Inside(sha, deps, d), "ref", v) == Some(Inside(sha, deps, d.(resolvedRef := v)))
    ensures ReadField(Inside(sha, deps, d), "package_version", v) == Some(Inside(sha, deps, d.(packageVersion := v)))
    ensures ReadField(Inside(sha, deps, d), "deps_sha", v) == Some(Inside(sha, deps, d.(depsFingerprint := v)))
    ensures ReadField(Inside(sha, deps, d), "declared_ref", v) == Some(Inside(sha, deps, d.(declaredRef := v)))
    ensures ReadField(Inside(sha, deps, d), "dir", v) == Some(Inside(sha, deps, d.(dir := v)))
    ensures key !in EntryKeys() ==> ReadField(Inside(sha, deps, d), key, v) == Some(Inside(sha, deps, d))
  {
    hide SetField;
    InEntry(sha, deps, d, "kind", v);
    InEntry(sha, deps, d, "source", v);
    InEntry(sha, deps, d, "ref", v);
    InEntry(sha, deps, d, "package_version", v);
    InEntry(sha, deps, d, "deps_sha", v);
    InEntry(sha, deps, d, "declared_ref", v);
    InEntry(sha, deps, d, "dir", v);
    InEntry(sha, deps, d, key, v);
    KeysSet(d, key, v);
  }

  function EntryKeys(): seq<string> { ["kind", "source", "ref", "package_version", "deps_sha", "declared_ref", "dir"] }

  lemma {:induction false} KeysSet(d: LockEntry, key: string, v: string)
    ensures SetField(d, "kind", v) == d.(kind := if v == "git" then Git else Path) && SetField(d, "source", v) == d.(source := v)
    ensures SetField(d, "ref", v) == d.(resolvedRef := v) && SetField(d, "package_version", v) == d.(packageVersion := v)
    ensures SetField(d, "deps_sha", v) == d.(depsFingerprint := v) && SetField(d, "declared_ref", v) == d.(declaredRef := v)
    ensures SetField(d, "dir", v) == d.(dir := v)
    ensures key !in EntryKeys() ==> SetField(d, key, v) == d
  {
  }

  lemma {:induction false} InEntry(sha: string, deps: seq<LockEntry>, d: LockEntry, key: string, v: string)
    ensures ReadField(Inside(sha, deps, d), key, v) == Some(Inside(sha, deps, SetField(d, key, v)))
  {
    hide SetField;
    assert (deps + [d])[|deps|] == d;
    assert (deps + [d])[|deps| := SetField(d, key, v)] == deps + [SetField(d, key, v)];
  }

  /** In the first section the format version must be 1, the fingerprint is taken over, and other keys are skipped; a field before
      every section is an error. */
  lemma {:induction false} MetaMeans(lock: LockFile<string>, key: string, v: string)
    ensures ReadField(Reader(true, false, lock), "version", v) == if v == "1" then Some(Reader(true, false, lock)) else None
    ensures ReadField(Reader(true, false, lock), "manifest_sha", v) == Some(Reader(true, false, lock.(manifestSha := v)))
    ensures key != "version" && key != "manifest_sha" ==> ReadField(Reader(true, false, lock), key, v) == Some(Reader(true, false, lock))
    ensures ReadField(START, key, v) == None
  {
    assert |"version"| != |"manifest_sha"|;
  }

  /** A section line, with blanks around it, starts the first section or an entry with defaults; any other section is an error. */
  lemma {:induction false} SectionsMean(r: Reader, p: string, q: string, name: string)
    requires Blank(p) && Blank(q)
    ensures ReadLine(r, p + "[meta]" + q) == Some(Reader(true, false, r.lock))
    ensures ReadLine(r, p + ("[dependency." + name + "]") + q)
         == Some(Inside(r.lock.manifestSha, r.lock.deps, Resolved(name, Path, "", "", "", "", "", "")))
    ensures name != "meta" && !("dependency." <= name) ==> ReadLine(r, p + ("[" + name + "]") + q) == None
  {
    hide Trim, Field, ReadField;
    TrimBlanks(p, "[meta]", q);
    assert "[meta]"[1..5] == "meta";
    SectionLooks(name);
    ReadSectionLine(r, name);
    var line := SectionLine(name);
    assert line[0] == '[' && line[|line| - 1] == ']';
    TrimNothing(line);
    TrimBlanks(p, line, q);
    var other := "[" + name + "]";
    assert other[0] == '[' && other[|other| - 1] == ']' && other[1..|other| - 1] == name;
    TrimBlanks(p, other, q);
  }

  /** A line that is no section and has no '=' or no quoted value stops the reading. */
  lemma {:induction false} BadLines(r: Reader, line: string, key: string, value: string)
    requires PlainKey(key)
    ensures (forall i :: 0 <= i < |line| ==> line[i] !in {'=', '#', '['}) && !Blank(line) ==> ReadLine(r, line) == None
    ensures Unquote(value) == None && value != [] && !Space(value[|value| - 1]) ==> ReadLine(r, key + "=" + value) == None
  {
    if (forall i :: 0 <= i < |line| ==> line[i] !in {'=', '#', '['}) && !Blank(line) { NoEquals(r, line); }
    if Unquote(value) == None && value != [] && !Space(value[|value| - 1]) {
      hide Trim, Unquote;
      var whole := key + "=" + value;
      assert whole == key + ([] + ("=" + value));
      assert KeyChar(key[0]) && whole[0] == key[0] && whole[|whole| - 1] == value[|value| - 1];
      TrimNothing(whole);
      FirstEquals(key, [], value);
      assert whole[|key| + 1..] == value;
    }
  }

  lemma {:induction false} NoEquals(r: Reader, line: string)
    requires (forall i :: 0 <= i < |line| ==> line[i] !in {'=', '#', '['}) && !Blank(line)
    ensures ReadLine(r, line) == None
  {
    TrimLeftPart(line);
    TrimRightPart(TrimLeft(line));
    var t := Trim(line);
    assert t != [] by { TrimmedNotEmpty(line); }
    assert t[0] in line;
    assert forall i :: 0 <= i < |t| ==> t[i] in line;
  }

  lemma {:induction false} TrimLeftPart(s: string)
    ensures forall c :: c in TrimLeft(s) ==> c in s
  {
    if s != [] && Space(s[0]) { TrimLeftPart(s[1..]); }
  }

  lemma {:induction false} TrimRightPart(s: string)
    ensures forall c :: c in TrimRight(s) ==> c in s
  {
    if s != [] && Space(s[|s| - 1]) { TrimRightPart(s[..|s| - 1]); }
  }

  lemma {:induction false} BlankToo(s: string)
    requires s != [] && Space(s[0]) && Blank(s[1..])
    ensures Blank(s)
  {
    assert s == [s[0]] + s[1..];
  }

  lemma {:induction false} TrimmedNotEmpty(s: string)
    requires !Blank(s)
    ensures Trim(s) != []
  {
    if Space(s[0]) {
      if Blank(s[1..]) { BlankToo(s); }
      TrimmedNotEmpty(s[1..]);
    } else {
      TrimRightKeeps(s);
    }
  }
}

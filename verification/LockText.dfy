/** Quoting, trimming and lines in the lock file (zlpkg/lockfile.cpp). */
module LockText {
  import opened Wrappers
  import opened Sequences

  predicate Space(c: char) { c == ' ' || c == '\t' || c == '\r' || c == '\n' }

  // ---------- quoting ----------

  function EscapeChar(c: char): string {
    if c == '\\' || c == '"' then ['\\', c]
    else if c == '\n' then ['\\', 'n']
    else if c == '\r' then ['\\', 'r']
    else if c == '\t' then ['\\', 't']
    else [c]
  }

  function Escape(s: string): string {
    if s == [] then [] else EscapeChar(s[0]) + Escape(s[1..])
  }

  function Quote(s: string): string {
    ['"'] + Escape(s) + ['"']
  }

  function Unescaped(c: char): char {
    if c == 'n' then '\n' else if c == 'r' then '\r' else if c == 't' then '\t' else c
  }

  /** Unknown escapes stand for the character itself, and a lone trailing backslash is kept. */
  function Unescape(s: string): string {
    if s == [] then []
    else if s[0] == '\\' && |s| > 1 then [Unescaped(s[1])] + Unescape(s[2..])
    else [s[0]] + Unescape(s[1..])
  }

  lemma {:induction false} UnescapeEscape(s: string)
    ensures Unescape(Escape(s)) == s
  {
    if s != [] {
      UnescapeEscape(s[1..]);
      var head, tail := EscapeChar(s[0]), Escape(s[1..]);
      assert Escape(s) == head + tail;
      if |head| == 2 {
        assert (head + tail)[2..] == tail && (head + tail)[0] == head[0] && (head + tail)[1] == head[1];
      } else {
        assert (head + tail)[1..] == tail && (head + tail)[0] == s[0];
      }
      assert s == [s[0]] + s[1..];
    }
  }

  ghost predicate NoNewline(s: string) {
    forall i :: 0 <= i < |s| ==> s[i] != '\n'
  }

  lemma {:induction false} EscapeHasNoNewline(s: string)
    ensures NoNewline(Escape(s))
  {
    if s != [] {
      EscapeHasNoNewline(s[1..]);
      assert NoNewline(EscapeChar(s[0]));
    }
  }

  lemma {:induction false} QuoteHasNoNewline(s: string)
    ensures NoNewline(Quote(s))
  {
    EscapeHasNoNewline(s);
  }

  lemma {:induction false} EscapeConcat(a: string, c: char)
    ensures Escape(a + [c]) == Escape(a) + EscapeChar(c)
  {
    if a == [] {
      assert a + [c] == [c] && Escape([c][1..]) == [];
    } else {
      EscapeConcat(a[1..], c);
      assert (a + [c])[1..] == a[1..] + [c] && (a + [c])[0] == a[0];
      Associative(EscapeChar(a[0]), Escape(a[1..]), EscapeChar(c));
    }
  }

  /** `quote`: character by character. */
  method QuoteString(s: string) returns (out: string)
    ensures out == Quote(s)
  {
    hide Escape, EscapeChar;
    out := ['"'];
    assert Escape([]) == [] by { EscapeNothing(); }
    for i := 0 to |s|
      invariant out == ['"'] + Escape(s[..i])
    {
      assert s[..i + 1] == s[..i] + [s[i]];
      EscapeConcat(s[..i], s[i]);
      out := out + EscapeChar(s[i]);
    }
    assert s[..|s|] == s;
    out := out + ['"'];
  }

  lemma {:induction false} EscapeNothing()
    ensures Escape([]) == []
  {
  }

  /** The loop of `unquote`: an escape takes two characters at once. */
  method UnescapeString(body: string) returns (out: string)
    ensures out == Unescape(body)
  {
    out := [];
    var i := 0;
    assert body[0..] == body;
    while i < |body|
      invariant i <= |body| && out + Unescape(body[i..]) == Unescape(body)
    {
      ghost var rest := body[i..];
      assert rest[0] == body[i] && rest[1..] == body[i + 1..];
      if body[i] == '\\' && i + 1 < |body| {
        assert rest[1] == body[i + 1] && rest[2..] == body[i + 2..];
        Associative(out, [Unescaped(body[i + 1])], Unescape(body[i + 2..]));
        out := out + [Unescaped(body[i + 1])];
        i := i + 2;
      } else {
        Associative(out, [body[i]], Unescape(body[i + 1..]));
        out := out + [body[i]];
        i := i + 1;
      }
    }
    assert out + [] == out;
  }

  // ---------- trimming ----------

  function TrimLeft(s: string): string {
    if s != [] && Space(s[0]) then TrimLeft(s[1..]) else s
  }

  function TrimRight(s: string): string {
    if s != [] && Space(s[|s| - 1]) then TrimRight(s[..|s| - 1]) else s
  }

  function Trim(s: string): string {
    TrimRight(TrimLeft(s))
  }

  lemma {:induction false} TrimNothing(s: string)
    requires s != [] && !Space(s[0]) && !Space(s[|s| - 1])
    ensures Trim(s) == s
  {
  }

  lemma {:induction false} TrimOneLeft(s: string)
    requires s != [] && !Space(s[0]) && !Space(s[|s| - 1])
    ensures Trim([' '] + s) == s && Trim(s + [' ']) == s
  {
    var left, right := [' '] + s, s + [' '];
    assert left[1..] == s && TrimLeft(left) == TrimLeft(s) == s && TrimRight(s) == s;
    assert right[0] == s[0] && TrimLeft(right) == right;
    assert right[..|right| - 1] == s && TrimRight(right) == TrimRight(s);
  }

  /** `unquote`: none when the trimmed text is not a quoted string. */
  function Unquote(s: string): Option<string> {
    var t := Trim(s);
    if |t| < 2 || t[0] != '"' || t[|t| - 1] != '"' then None else Some(Unescape(t[1..|t| - 1]))
  }

  /** Every string survives quoting, whatever quotes, backslashes and line breaks it holds. */
  lemma {:induction false} UnquoteQuote(s: string)
    ensures Unquote([' '] + Quote(s)) == Some(s)
  {
    var q := Quote(s);
    TrimOneLeft(q);
    assert q[1..|q| - 1] == Escape(s);
    UnescapeEscape(s);
  }

  // ---------- lines ----------

  function Join(lines: seq<string>): string {
    if lines == [] then [] else lines[0] + ['\n'] + Join(lines[1..])
  }

  /** The lines `getline` yields: a last line without a line break counts if it is not empty. */
  function Lines(text: string): seq<string> {
    LinesFrom([], text)
  }

  function LinesFrom(line: string, text: string): seq<string>
    decreases |text|
  {
    if text == [] then (if line == [] then [] else [line])
    else if text[0] == '\n' then [line] + LinesFrom([], text[1..])
    else LinesFrom(line + [text[0]], text[1..])
  }

  lemma {:induction false} LinesThrough(line: string, rest: string, text: string)
    requires NoNewline(rest)
    ensures LinesFrom(line, rest + ['\n'] + text) == [line + rest] + LinesFrom([], text)
    decreases |rest|
  {
    var all := rest + ['\n'] + text;
    if rest == [] {
      assert all[0] == '\n' && all[1..] == text && line + rest == line;
    } else {
      assert all[0] == rest[0] && all[1..] == rest[1..] + ['\n'] + text;
      assert rest[0] != '\n';
      LinesThrough(line + [rest[0]], rest[1..], text);
      assert line + [rest[0]] + rest[1..] == line + rest;
    }
  }

  ghost predicate AllLines(lines: seq<string>) {
    forall i :: 0 <= i < |lines| ==> NoNewline(lines[i])
  }

  lemma {:induction false} LinesJoin(lines: seq<string>)
    requires AllLines(lines)
    ensures Lines(Join(lines)) == lines
  {
    if lines != [] {
      LinesJoin(lines[1..]);
      LinesThrough([], lines[0], Join(lines[1..]));
      assert [] + lines[0] == lines[0] && lines == [lines[0]] + lines[1..];
    }
  }

  lemma {:induction false} JoinConcat(a: seq<string>, b: seq<string>)
    ensures Join(a + b) == Join(a) + Join(b)
  {
    if a == [] {
      assert a + b == b;
    } else {
      JoinConcat(a[1..], b);
      assert (a + b)[1..] == a[1..] + b && (a + b)[0] == a[0];
      Associative(a[0] + ['\n'], Join(a[1..]), Join(b));
    }
  }

  // ---------- key = value ----------

  /** First position of '='. */
  function FindEquals(s: string): (r: Option<nat>)
    ensures r.Some? ==> r.value < |s| && s[r.value] == '=' && forall i :: 0 <= i < r.value ==> s[i] != '='
    ensures r.None? ==> forall i :: 0 <= i < |s| ==> s[i] != '='
  {
    if s == [] then None
    else if s[0] == '=' then Some(0)
    else var r := FindEquals(s[1..]); if r.None? then None else Some(r.value + 1)
  }

  predicate KeyChar(c: char) { 'a' <= c <= 'z' || c == '_' }

  predicate PlainKey(key: string) { key != [] && forall i :: 0 <= i < |key| ==> KeyChar(key[i]) }

  function FieldLine(key: string, value: string): string {
    key + [' ', '=', ' '] + Quote(value)
  }

  /** `key = value`: none when there is no '=' or the value is not quoted. */
  function Field(line: string): Option<(string, string)> {
    var eq := FindEquals(line);
    if eq.None? then None else
    var value := Unquote(line[eq.value + 1..]);
    if value.None? then None else Some((Trim(line[..eq.value]), value.value))
  }

  lemma {:induction false} FieldOfFieldLine(key: string, value: string)
    requires PlainKey(key)
    ensures Field(FieldLine(key, value)) == Some((key, value))
  {
    hide Quote, Unquote, Trim;
    var line := FieldLine(key, value);
    var at := |key| + 1;
    assert line[at] == '=';
    forall i | 0 <= i < at ensures line[i] != '=' { if i < |key| { assert line[i] == key[i] && KeyChar(key[i]); } }
    assert FindEquals(line) == Some(at);
    assert line[..at] == key + [' '];
    assert line[at + 1..] == [' '] + Quote(value);
    assert KeyChar(key[0]) && KeyChar(key[|key| - 1]);
    TrimOneLeft(key);
    UnquoteQuote(value);
  }

  /** A field line is neither blank, a comment, nor a section, and trimming leaves it alone. */
  lemma {:induction false} FieldLineIsPlain(key: string, value: string)
    requires PlainKey(key)
    ensures var line := FieldLine(key, value);
            Trim(line) == line && line != [] && line[0] != '#' && line[0] != '[' && NoNewline(line)
  {
    hide Trim, Escape;
    var line := FieldLine(key, value);
    assert KeyChar(key[0]) && line[0] == key[0];
    assert line[|line| - 1] == '"';
    TrimNothing(line);
    QuoteHasNoNewline(value);
    forall i | 0 <= i < |line| ensures line[i] != '\n' {
      if i < |key| { assert line[i] == key[i] && KeyChar(key[i]); }
      else if i >= |key| + 3 { assert line[i] == Quote(value)[i - |key| - 3]; }
    }
  }
}

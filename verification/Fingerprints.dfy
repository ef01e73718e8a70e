/** The fingerprints of zlpkg/lockfile.cpp: a 64-bit FNV-1a hash with a separator after every field, in hexadecimal. */
module Fingerprints {
  import opened PackageWorld

  function ByteOf(c: char): int { c as int % 256 }

  /** One byte into the hash. */
  function Absorb(h: bv64, byte: bv64): bv64 {
    (h ^ byte) * 1099511628211
  }

  function Mix(h: bv64, s: string): bv64
    decreases |s|
  {
    if s == [] then Absorb(h, 0xFF) else Mix(Absorb(h, ByteOf(s[0]) as bv64), s[1..])
  }

  function MixDeps(h: bv64, deps: seq<Dep>): bv64
    decreases |deps|
  {
    if deps == [] then h else
    var d := deps[0];
    var h1 := Mix(Mix(h, d.name), if d.kind == Git then "git" else "path");
    MixDeps(Mix(Mix(Mix(h1, d.source), d.ref), d.version), deps[1..])
  }

  function Hex(n: nat): (r: string)
    ensures |r| > 0
  {
    if n < 16 then ["0123456789abcdef"[n]] else Hex(n / 16) + ["0123456789abcdef"[n % 16]]
  }

  function DepsFingerprint(m: Manifest): (r: string)
    ensures r != ""
  {
    Hex(MixDeps(14695981039346656037, m.deps) as int)
  }

  function ManifestFingerprint(m: Manifest): (r: string)
    ensures r != ""
  {
    Hex(MixDeps(Mix(Mix(14695981039346656037, m.name), m.version), m.deps) as int)
  }

  // ---------- the byte text behind a fingerprint ----------

  const OFFSET: bv64 := 14695981039346656037

  const SEPARATOR: int := 255

  /** A field: its bytes and the separator. */
  function Field(s: string): seq<int> {
    seq(|s|, i requires 0 <= i < |s| => ByteOf(s[i])) + [SEPARATOR]
  }

  function KindName(k: Kind): string {
    match k case Git => "git" case Path => "path"
  }

  function DepText(d: Dep): seq<int> {
    Field(d.name) + (Field(KindName(d.kind)) + (Field(d.source) + (Field(d.ref) + Field(d.version))))
  }

  function DepsText(deps: seq<Dep>): seq<int> {
    if deps == [] then [] else DepText(deps[0]) + DepsText(deps[1..])
  }

  function ManifestText(m: Manifest): seq<int> {
    Field(m.name) + (Field(m.version) + DepsText(m.deps))
  }

  ghost predicate AreBytes(text: seq<int>) {
    forall i :: 0 <= i < |text| ==> 0 <= text[i] < 256
  }

  /** FNV-1a over a byte text. */
  ghost function Fnv(h: bv64, text: seq<int>): bv64
    requires AreBytes(text)
    decreases |text|
  {
    if text == [] then h else Fnv(Absorb(h, text[0] as bv64), text[1..])
  }

  lemma {:induction false} FnvAppend(h: bv64, a: seq<int>, b: seq<int>)
    requires AreBytes(a) && AreBytes(b)
    ensures AreBytes(a + b) && Fnv(h, a + b) == Fnv(Fnv(h, a), b)
    decreases |a|
  {
    hide Absorb;
    if a == [] {
      assert a + b == b;
    } else {
      assert (a + b)[0] == a[0] && (a + b)[1..] == a[1..] + b;
      FnvAppend(Absorb(h, a[0] as bv64), a[1..], b);
    }
  }

  lemma {:induction false} FieldMore(s: string)
    requires s != []
    ensures Field(s) == [ByteOf(s[0])] + Field(s[1..])
  {
  }

  lemma {:induction false} FnvStep(h: bv64, byte: int, text: seq<int>)
    requires 0 <= byte < 256 && AreBytes(text)
    ensures AreBytes([byte] + text) && Fnv(h, [byte] + text) == Fnv(Absorb(h, byte as bv64), text)
  {
    hide Absorb;
    assert ([byte] + text)[1..] == text;
  }

  lemma {:induction false} MixIsFnv(h: bv64, s: string)
    ensures AreBytes(Field(s)) && Mix(h, s) == Fnv(h, Field(s))
    decreases |s|
  {
    hide Absorb;
    if s == [] {
      assert Field(s) == [SEPARATOR] && [SEPARATOR][1..] == [];
      assert Fnv(h, [SEPARATOR]) == Fnv(Absorb(h, 0xFF), []);
    } else {
      MixIsFnv(Absorb(h, ByteOf(s[0]) as bv64), s[1..]);
      FieldMore(s);
      FnvStep(h, ByteOf(s[0]), Field(s[1..]));
    }
  }

  lemma {:induction false} DepIsFnv(h: bv64, d: Dep)
    ensures AreBytes(DepText(d))
    ensures Mix(Mix(Mix(Mix(Mix(h, d.name), KindName(d.kind)), d.source), d.ref), d.version) == Fnv(h, DepText(d))
  {
    hide Mix, Field, Fnv;
    var a, b, c, e, f := Field(d.name), Field(KindName(d.kind)), Field(d.source), Field(d.ref), Field(d.version);
    var h1 := Mix(h, d.name);
    var h2 := Mix(h1, KindName(d.kind));
    var h3 := Mix(h2, d.source);
    var h4 := Mix(h3, d.ref);
    MixIsFnv(h, d.name);
    MixIsFnv(h1, KindName(d.kind));
    MixIsFnv(h2, d.source);
    MixIsFnv(h3, d.ref);
    MixIsFnv(h4, d.version);
    FnvAppend(h3, e, f);
    FnvAppend(h2, c, e + f);
    FnvAppend(h1, b, c + (e + f));
    FnvAppend(h, a, b + (c + (e + f)));
  }

  lemma {:induction false} DepsAreFnv(h: bv64, deps: seq<Dep>)
    ensures AreBytes(DepsText(deps)) && MixDeps(h, deps) == Fnv(h, DepsText(deps))
    decreases |deps|
  {
    hide Mix, DepText;
    if deps != [] {
      var d := deps[0];
      DepIsFnv(h, d);
      DepsAreFnv(Fnv(h, DepText(d)), deps[1..]);
      FnvAppend(h, DepText(d), DepsText(deps[1..]));
    }
  }

  /** A fingerprint is the hexadecimal FNV-1a hash of the byte text of the manifest, or of its dependencies alone. */
  lemma {:induction false} FingerprintsAreFnv(m: Manifest)
    ensures AreBytes(DepsText(m.deps)) && DepsFingerprint(m) == Hex(Fnv(OFFSET, DepsText(m.deps)) as int)
    ensures AreBytes(ManifestText(m)) && ManifestFingerprint(m) == Hex(Fnv(OFFSET, ManifestText(m)) as int)
  {
    hide Mix, Field, DepsText, MixDeps, Fnv, Hex;
    var h1 := Mix(OFFSET, m.name);
    var h2 := Mix(h1, m.version);
    DepsAreFnv(OFFSET, m.deps);
    MixIsFnv(OFFSET, m.name);
    MixIsFnv(h1, m.version);
    DepsAreFnv(h2, m.deps);
    FnvAppend(h1, Field(m.version), DepsText(m.deps));
    FnvAppend(OFFSET, Field(m.name), Field(m.version) + DepsText(m.deps));
  }

  // ---------- the text determines the declarations ----------

  /** A string of bytes without the separator. */
  predicate Plain(s: string) {
    forall i :: 0 <= i < |s| ==> s[i] as int < SEPARATOR
  }

  predicate PlainDep(d: Dep) { Plain(d.name) && Plain(d.source) && Plain(d.ref) && Plain(d.version) }

  predicate PlainDeps(deps: seq<Dep>) { forall i :: 0 <= i < |deps| ==> PlainDep(deps[i]) }

  /** The first field of a text can be told from what follows it. */
  lemma {:induction false} FieldSplits(s: string, t: string, a: seq<int>, b: seq<int>)
    requires Plain(s) && Plain(t) && Field(s) + a == Field(t) + b
    ensures s == t && a == b
    decreases |s|
  {
    var x, y := Field(s) + a, Field(t) + b;
    assert x[|s|] == SEPARATOR && y[|t|] == SEPARATOR;
    assert |s| == |t|;
    forall i | 0 <= i < |s| ensures s[i] == t[i] {
      assert x[i] == ByteOf(s[i]) && y[i] == ByteOf(t[i]);
    }
    assert a == x[|s| + 1..] && b == y[|t| + 1..];
  }

  lemma {:induction false} KindSplits(k: Kind, l: Kind, a: seq<int>, b: seq<int>)
    requires Field(KindName(k)) + a == Field(KindName(l)) + b
    ensures k == l && a == b
  {
    hide Field;
    FieldSplits(KindName(k), KindName(l), a, b);
  }

  lemma {:induction false} DepSplits(d: Dep, e: Dep, a: seq<int>, b: seq<int>)
    requires PlainDep(d) && PlainDep(e) && DepText(d) + a == DepText(e) + b
    ensures d == e && a == b
  {
    hide Field, Plain;
    var d1, e1 := Field(d.version) + a, Field(e.version) + b;
    var d2, e2 := Field(d.ref) + d1, Field(e.ref) + e1;
    var d3, e3 := Field(d.source) + d2, Field(e.source) + e2;
    var d4, e4 := Field(KindName(d.kind)) + d3, Field(KindName(e.kind)) + e3;
    assert DepText(d) + a == Field(d.name) + d4 && DepText(e) + b == Field(e.name) + e4;
    FieldSplits(d.name, e.name, d4, e4);
    KindSplits(d.kind, e.kind, d3, e3);
    FieldSplits(d.source, e.source, d2, e2);
    FieldSplits(d.ref, e.ref, d1, e1);
    FieldSplits(d.version, e.version, a, b);
  }

  lemma {:induction false} DepTextNotEmpty(d: Dep)
    ensures DepText(d) != []
  {
  }

  /** The text of the dependencies determines every field of every dependency, in order. */
  lemma {:induction false} DepsTextDetermines(a: seq<Dep>, b: seq<Dep>)
    requires PlainDeps(a) && PlainDeps(b) && DepsText(a) == DepsText(b)
    ensures a == b
    decreases |a|
  {
    hide DepText, PlainDep;
    if a == [] || b == [] {
      if a != [] { DepTextNotEmpty(a[0]); }
      if b != [] { DepTextNotEmpty(b[0]); }
    } else {
      DepSplits(a[0], b[0], DepsText(a[1..]), DepsText(b[1..]));
      DepsTextDetermines(a[1..], b[1..]);
      assert a == [a[0]] + a[1..] && b == [b[0]] + b[1..];
    }
  }

  lemma {:induction false} ManifestTextDetermines(m: Manifest, n: Manifest)
    requires Plain(m.name) && Plain(m.version) && PlainDeps(m.deps) && Plain(n.name) && Plain(n.version) && PlainDeps(n.deps)
    requires ManifestText(m) == ManifestText(n)
    ensures m == n
  {
    hide Field, Plain, DepsText, PlainDeps;
    FieldSplits(m.name, n.name, Field(m.version) + DepsText(m.deps), Field(n.version) + DepsText(n.deps));
    FieldSplits(m.version, n.version, DepsText(m.deps), DepsText(n.deps));
    DepsTextDetermines(m.deps, n.deps);
  }

  /** With the separator inside a field different declarations have one text. */
  lemma {:induction false} SeparatorConfuses()
    ensures var sep := [255 as char];
            var a, b := Dep("n", Git, "a" + sep + "b", "c", "d"), Dep("n", Git, "a", "b", "c" + sep + "d");
            a != b && DepText(a) == DepText(b)
  {
    var sep := [255 as char];
    var a, b := Dep("n", Git, "a" + sep + "b", "c", "d"), Dep("n", Git, "a", "b", "c" + sep + "d");
    assert Field(a.source) == Field("a") + Field("b");
    assert Field(b.version) == Field("c") + Field("d");
    assert a.source != b.source;
  }

  // ---------- hexadecimal numbers ----------

  function DigitValue(c: char): int {
    if '0' <= c <= '9' then c as int - '0' as int else c as int - 'a' as int + 10
  }

  function HexValue(s: string): int {
    if s == [] then 0 else 16 * HexValue(s[..|s| - 1]) + DigitValue(s[|s| - 1])
  }

  /** The digits read back give the number, so different hashes have different fingerprints. */
  lemma {:induction false} HexReads(n: nat)
    ensures HexValue(Hex(n)) == n
    ensures n >= 16 ==> Hex(n)[0] != '0'
  {
    var digits := "0123456789abcdef";
    assert forall k :: 0 <= k < 16 ==> DigitValue(digits[k]) == k;
    if n < 16 {
      assert Hex(n)[..0] == [];
    } else {
      HexReads(n / 16);
      assert Hex(n)[..|Hex(n)| - 1] == Hex(n / 16);
    }
  }

  /** Equal fingerprints are equal hashes of the texts. */
  lemma {:induction false} SameFingerprint(m: Manifest, n: Manifest)
    ensures AreBytes(DepsText(m.deps)) && AreBytes(DepsText(n.deps))
    ensures DepsFingerprint(m) == DepsFingerprint(n) <==> Fnv(OFFSET, DepsText(m.deps)) == Fnv(OFFSET, DepsText(n.deps))
  {
    hide Fnv, DepsText, Hex;
    FingerprintsAreFnv(m);
    FingerprintsAreFnv(n);
    var x, y := Fnv(OFFSET, DepsText(m.deps)), Fnv(OFFSET, DepsText(n.deps));
    HexReads(x as int);
    HexReads(y as int);
    if x as int == y as int { NumberDetermines(x, y); }
  }

  lemma {:induction false} NumberDetermines(x: bv64, y: bv64)
    requires x as int == y as int
    ensures x == y
  {
    assert (x as int) as bv64 == x && (y as int) as bv64 == y;
  }

  /** The fingerprint of no dependencies is the offset itself. */
  lemma {:induction false} EmptyFingerprint(m: Manifest)
    requires m.deps == []
    ensures DepsFingerprint(m) == "cbf29ce484222325"
  {
    hide Hex;
    KnownHex();
  }

  /** A known hash: of the letter a. */
  lemma {:induction false} KnownHash()
    ensures AreBytes([97]) && Fnv(OFFSET, [97]) == 0xaf63dc4c8601ec8c
  {
    hide Absorb, Fnv;
    KnownAbsorb();
    FnvStep(OFFSET, 97, []);
    FnvNothing(0xaf63dc4c8601ec8c);
    assert [97] + [] == [97];
  }

  lemma {:induction false} FnvNothing(h: bv64)
    ensures Fnv(h, []) == h
  {
  }

  lemma {:induction false} KnownAbsorb()
    ensures Absorb(OFFSET, 97) == 0xaf63dc4c8601ec8c
  {
  }

  lemma {:induction false} HexMore(n: nat, digit: nat, s: string)
    requires n > 0 && digit < 16 && Hex(n) == s
    ensures Hex(16 * n + digit) == s + ["0123456789abcdef"[digit]]
  {
    assert (16 * n + digit) / 16 == n && (16 * n + digit) % 16 == digit;
  }

  /** Four digits more. */
  lemma {:induction false} HexFourMore(n: nat, a: nat, b: nat, c: nat, d: nat, s: string)
    requires n > 0 && a < 16 && b < 16 && c < 16 && d < 16 && Hex(n) == s
    ensures var digits := "0123456789abcdef";
            Hex(16 * (16 * (16 * (16 * n + a) + b) + c) + d) == s + [digits[a], digits[b], digits[c], digits[d]]
  {
    hide Hex;
    var digits := "0123456789abcdef";
    HexMore(n, a, s);
    HexMore(16 * n + a, b, s + [digits[a]]);
    HexMore(16 * (16 * n + a) + b, c, s + [digits[a]] + [digits[b]]);
    HexMore(16 * (16 * (16 * n + a) + b) + c, d, s + [digits[a]] + [digits[b]] + [digits[c]]);
    assert s + [digits[a]] + [digits[b]] + [digits[c]] + [digits[d]] == s + [digits[a], digits[b], digits[c], digits[d]];
  }

  lemma {:induction false} KnownHex()
    ensures Hex(14695981039346656037) == "cbf29ce484222325"
  {
    assert Hex(12) == "c";
    hide Hex;
    HexMore(12, 11, "c");
    HexMore(203, 15, "cb");
    HexMore(3263, 2, "cbf");
    HexFourMore(52210, 9, 12, 14, 4, "cbf2");
    HexFourMore(3421674724, 8, 4, 2, 2, "cbf29ce4");
    HexFourMore(224242874745890, 2, 3, 2, 5, "cbf29ce48422");
  }
}

/** Type names (src/common/type_name.cpp): their structure, how they are printed, and what the parser accepts. The parser
    is given as functions from the text still to be read to what was read and the text that remains. */
module TypeNames {
  import opened Wrappers

  datatype TypeName = TypeName(name: string, args: seq<TypeName>, members: seq<TypeName>, fixedSize: Option<nat>)

  // ---------- characters ----------

  predicate Digit(c: char) { '0' <= c <= '9' }

  predicate NameChar(c: char) {
    'a' <= c <= 'z' || 'A' <= c <= 'Z' || Digit(c) || c == '_' || c == '.'
  }

  predicate Blank(c: char) { c == ' ' || '\t' <= c <= '\r' }

  function Skip(s: string): (r: string)
    ensures |r| <= |s| && (r != [] ==> !Blank(r[0]))
  {
    if s != [] && Blank(s[0]) then Skip(s[1..]) else s
  }

  /** Length of the longest prefix of name characters, or of digits. */
  function NameLen(s: string): (n: nat)
    ensures n <= |s| && (forall i :: 0 <= i < n ==> NameChar(s[i])) && (n < |s| ==> !NameChar(s[n]))
  {
    if s != [] && NameChar(s[0]) then 1 + NameLen(s[1..]) else 0
  }

  function DigitLen(s: string): (n: nat)
    ensures n <= |s| && (forall i :: 0 <= i < n ==> Digit(s[i])) && (n < |s| ==> !Digit(s[n]))
  {
    if s != [] && Digit(s[0]) then 1 + DigitLen(s[1..]) else 0
  }

  // ---------- decimals ----------

  function DigitOf(d: nat): char
    requires d < 10
  {
    '0' + d as char
  }

  function Decimal(n: nat): (r: string)
    ensures r != [] && forall i :: 0 <= i < |r| ==> Digit(r[i])
  {
    if n < 10 then [DigitOf(n)] else Decimal(n / 10) + [DigitOf(n % 10)]
  }

  function Number(s: string): nat
    requires forall i :: 0 <= i < |s| ==> Digit(s[i])
  {
    if s == [] then 0 else assert Digit(s[|s| - 1]); Number(s[..|s| - 1]) * 10 + (s[|s| - 1] as int - '0' as int)
  }

  lemma {:induction false} NumberDecimal(n: nat)
    ensures Number(Decimal(n)) == n
  {
    var s := Decimal(n);
    if n < 10 {
      assert s[..|s| - 1] == [];
    } else {
      NumberDecimal(n / 10);
      assert s[..|s| - 1] == Decimal(n / 10);
    }
  }

  // ---------- printing ----------

  predicate IsFunction(t: TypeName) { t.name == "func" && t.args != [] }

  function Head(t: TypeName): string {
    if t.fixedSize.Some? && t.name == "array" then "array" + (['['] + (Decimal(t.fixedSize.value) + [']'])) else t.name
  }

  function Render(t: TypeName): string
    decreases t, 1
  {
    if t.members != [] then RenderMembers(t.members)
    else if t.args == [] then Head(t)
    else if t.name == "func" then
      Head(t) + (['('] + (RenderList(t.args[..|t.args| - 1]) + ([')', ':'] + Render(t.args[|t.args| - 1]))))
    else Head(t) + (['<'] + (RenderList(t.args) + ['>']))
  }

  function RenderList(ts: seq<TypeName>): string
    decreases ts, 0
  {
    if ts == [] then [] else if |ts| == 1 then Render(ts[0]) else Render(ts[0]) + ([','] + RenderList(ts[1..]))
  }

  function RenderMember(t: TypeName): string
    decreases t, 2
  {
    if IsFunction(t) then ['('] + (Render(t) + [')']) else Render(t)
  }

  function RenderMembers(ts: seq<TypeName>): string
    decreases ts, 0
  {
    if ts == [] then [] else if |ts| == 1 then RenderMember(ts[0]) else RenderMember(ts[0]) + (['|'] + RenderMembers(ts[1..]))
  }

  // ---------- unions ----------

  /** Lexicographic order of strings. */
  predicate Less(a: string, b: string) {
    if b == [] then false
    else if a == [] then true
    else a[0] < b[0] || (a[0] == b[0] && Less(a[1..], b[1..]))
  }

  /** Insert in order of the printed member, before the first greater one. */
  function Insert(t: TypeName, ts: seq<TypeName>): (r: seq<TypeName>)
    ensures |r| == |ts| + 1
  {
    if ts == [] || Less(RenderMember(t), RenderMember(ts[0])) then [t] + ts else [ts[0]] + Insert(t, ts[1..])
  }

  function Sort(ts: seq<TypeName>): (r: seq<TypeName>)
    ensures |r| == |ts|
  {
    if ts == [] then [] else Insert(ts[|ts| - 1], Sort(ts[..|ts| - 1]))
  }

  /** Equality as the source compares: two unions by their members alone, anything else by name, size and arguments. */
  predicate Same(a: TypeName, b: TypeName)
    decreases a, 1
  {
    if a.members != [] || b.members != [] then SameAll(a.members, b.members)
    else a.name == b.name && a.fixedSize == b.fixedSize && SameAll(a.args, b.args)
  }

  predicate SameAll(a: seq<TypeName>, b: seq<TypeName>)
    decreases a, 0
  {
    |a| == |b| && (a == [] || (Same(a[0], b[0]) && SameAll(a[1..], b[1..])))
  }

  /** Drop every member equal to the one before it. */
  function Unique(ts: seq<TypeName>): seq<TypeName> {
    if |ts| <= 1 then ts
    else if Same(ts[0], ts[1]) then Unique(ts[1..])
    else [ts[0]] + Unique(ts[1..])
  }

  /** Members that are unions themselves give up their members. */
  function Flatten(ts: seq<TypeName>): seq<TypeName> {
    if ts == [] then [] else (if ts[0].members == [] then [ts[0]] else ts[0].members) + Flatten(ts[1..])
  }

  function MakeUnion(ts: seq<TypeName>): TypeName
    requires ts != []
  {
    if |ts| == 1 then ts[0] else TypeName("union", [], Unique(Sort(Flatten(ts))), None)
  }

  // ---------- parsing ----------

  datatype Got<+T> = Fail | Got(v: T, rest: string)

  /** The rest after `c`, which may follow blanks. */
  function Consume(s: string, c: char): (r: Option<string>)
    ensures r.Some? ==> |r.value| < |s|
  {
    var t := Skip(s);
    if t != [] && t[0] == c then Some(t[1..]) else None
  }

  function Alias(name: string): string {
    if name == "float" || name == "decimal" then "double" else if name == "null" then "nil" else name
  }

  const MAX_SIZE: nat := 0xffff_ffff_ffff_ffff

  /** `[digits]` after `array`. */
  function ParseSize(s: string): (r: Got<nat>)
    ensures r.Got? ==> |r.rest| < |s|
  {
    var n := DigitLen(s);
    var close := Consume(s[n..], ']');
    if n == 0 || close.None? || Number(s[..n]) > MAX_SIZE then Fail else Got(Number(s[..n]), close.value)
  }

  function ParseUnion(s: string): (r: Got<TypeName>)
    ensures r.Got? ==> |r.rest| < |s|
    decreases |s|, 3
  {
    var first := ParsePrimary(s);
    if first.Fail? then Fail else
    var more := ParseMore(first.rest);
    if more.Fail? then Fail else Got(MakeUnion([first.v] + more.v), more.rest)
  }

  /** The members after the first, each after a bar. */
  function ParseMore(s: string): (r: Got<seq<TypeName>>)
    ensures r.Got? ==> |r.rest| <= |s|
    decreases |s|, 1
  {
    var bar := Consume(s, '|');
    if bar.None? then Got([], Skip(s)) else
    var next := ParsePrimary(bar.value);
    if next.Fail? then Fail else
    var more := ParseMore(next.rest);
    if more.Fail? then Fail else Got([next.v] + more.v, more.rest)
  }

  function ParsePrimary(s: string): (r: Got<TypeName>)
    ensures r.Got? ==> |r.rest| < |s|
    decreases |s|, 2
  {
    var open := Consume(s, '(');
    if open.Some? then
      var grouped := ParseUnion(open.value);
      if grouped.Fail? then Fail else
      var close := Consume(grouped.rest, ')');
      if close.None? then Fail else Got(grouped.v, close.value)
    else
      var t := Skip(s);
      var n := NameLen(t);
      if n == 0 then Fail else ParseSized(Alias(t[..n]), t[n..])
  }

  /** After a name: the size of an array, then the arguments. */
  function ParseSized(name: string, s: string): (r: Got<TypeName>)
    ensures r.Got? ==> |r.rest| <= |s|
    decreases |s|, 7
  {
    var open := if name == "array" then Consume(s, '[') else None;
    if open.None? then ParseArguments(name, None, s) else
    var size := ParseSize(open.value);
    if size.Fail? then Fail else ParseArguments(name, Some(size.v), size.rest)
  }

  function ParseArguments(name: string, size: Option<nat>, s: string): (r: Got<TypeName>)
    ensures r.Got? ==> |r.rest| <= |s|
    decreases |s|, 6
  {
    var angle := Consume(s, '<');
    if angle.Some? then
      var close := Consume(angle.value, '>');
      if close.Some? then Got(TypeName(name, [], [], size), close.value) else
      var args := ParseList(angle.value);
      if args.Fail? then Fail else Got(TypeName(name, args.v, [], size), args.rest)
    else
      var paren := if name == "func" then Consume(s, '(') else None;
      if paren.None? then Got(TypeName(name, [], [], size), Skip(s)) else Signature(name, size, paren.value)
  }

  /** Parameters, a colon and the result of a function type. */
  function Signature(name: string, size: Option<nat>, s: string): (r: Got<TypeName>)
    ensures r.Got? ==> |r.rest| <= |s|
    decreases |s|, 6
  {
    var params := ParseParams(s);
    if params.Fail? then Fail else
    var colon := Consume(params.rest, ':');
    if colon.None? then Fail else
    var result := ParseUnion(colon.value);
    if result.Fail? then Fail else Got(TypeName(name, params.v + [result.v], [], size), result.rest)
  }

  /** One or more arguments up to the closing angle. */
  function ParseList(s: string): (r: Got<seq<TypeName>>)
    ensures r.Got? ==> |r.rest| < |s|
    decreases |s|, 5
  {
    var first := ParseUnion(s);
    if first.Fail? then Fail else
    var close := Consume(first.rest, '>');
    if close.Some? then Got([first.v], close.value) else
    var comma := Consume(first.rest, ',');
    if comma.None? then Fail else
    var more := ParseList(comma.value);
    if more.Fail? then Fail else Got([first.v] + more.v, more.rest)
  }

  /** Parameters up to the closing parenthesis; a trailing comma is allowed. */
  function ParseParams(s: string): (r: Got<seq<TypeName>>)
    ensures r.Got? ==> |r.rest| < |s|
    decreases |s|, 5
  {
    var done := Consume(s, ')');
    if done.Some? then Got([], done.value) else
    var first := ParseUnion(s);
    if first.Fail? then Fail else
    var close := Consume(first.rest, ')');
    if close.Some? then Got([first.v], close.value) else
    var comma := Consume(first.rest, ',');
    if comma.None? then Fail else
    var more := ParseParams(comma.value);
    if more.Fail? then Fail else Got([first.v] + more.v, more.rest)
  }

  /** `parseTypeName`: the whole text, or nothing. */
  function Parse(text: string): Option<TypeName> {
    var r := ParseUnion(text);
    if r.Got? && Skip(r.rest) == [] then Some(r.v) else None
  }
}

/** What the parser of type names accepts beyond printed names (src/common/type_name.cpp): other names for the same type,
    blanks, groups, empty argument lists and trailing commas; and how types look in print. */
module TypeNameLaws {
  import opened Wrappers
  import opened Sequences
  import opened TypeNames
  import opened TypeNameRoundTrip

  // ---------- names and their aliases ----------

  predicate IsName(s: string) {
    s != [] && forall i :: 0 <= i < |s| ==> NameChar(s[i])
  }

  function Plain(name: string): TypeName { TypeName(name, [], [], None) }

  lemma {:induction false} WholeName(s: string)
    requires forall i :: 0 <= i < |s| ==> NameChar(s[i])
    ensures NameLen(s) == |s|
  {
    if s != [] { WholeName(s[1..]); }
  }

  /** A name alone is the type of that name, except that float and decimal are double and null is nil. */
  lemma {:induction false} NameParses(s: string)
    requires IsName(s)
    ensures Parse(s) == Some(Plain(if s == "float" || s == "decimal" then "double" else if s == "null" then "nil" else s))
  {
    WholeName(s);
    assert Skip(s) == s && s[..|s|] == s && s[|s|..] == [];
    var name := Alias(s);
    assert Consume([], '[').None? && Consume([], '<').None? && Consume([], '(').None? && Consume([], '|').None?;
    assert ParsePrimary(s) == ParseSized(name, []);
    assert ParseArguments(name, None, []) == Got(Plain(name), []);
    assert ParsePrimary(s) == Got(Plain(name), []);
    assert ParseMore([]) == Got([], []);
    assert MakeUnion([Plain(name)] + []) == Plain(name);
  }

  predicate NotAnAlias(name: string) { name != "float" && name != "decimal" && name != "null" }

  predicate AliasFree(t: TypeName)
    decreases t, 1
  {
    NotAnAlias(t.name) && AllAliasFree(t.args) && AllAliasFree(t.members)
  }

  predicate AllAliasFree(ts: seq<TypeName>)
    decreases ts, 0
  {
    ts == [] || (AliasFree(ts[0]) && AllAliasFree(ts[1..]))
  }

  lemma {:induction false} AllAliasFreeAppend(a: seq<TypeName>, b: seq<TypeName>)
    ensures AllAliasFree(a + b) <==> AllAliasFree(a) && AllAliasFree(b)
  {
    hide AliasFree;
    if a == [] {
      assert a + b == b;
    } else {
      assert (a + b)[0] == a[0] && (a + b)[1..] == a[1..] + b;
      AllAliasFreeAppend(a[1..], b);
    }
  }

  lemma {:induction false} FlattenFree(ts: seq<TypeName>)
    requires AllAliasFree(ts)
    ensures AllAliasFree(Flatten(ts))
  {
    if ts != [] {
      FlattenFree(ts[1..]);
      var first := if ts[0].members == [] then [ts[0]] else ts[0].members;
      assert AllAliasFree(first);
      AllAliasFreeAppend(first, Flatten(ts[1..]));
    }
  }

  lemma {:induction false} InsertFree(t: TypeName, ts: seq<TypeName>)
    requires AliasFree(t) && AllAliasFree(ts)
    ensures AllAliasFree(Insert(t, ts))
  {
    hide AliasFree;
    if ts != [] && !Less(RenderMember(t), RenderMember(ts[0])) {
      InsertFree(t, ts[1..]);
      assert ([ts[0]] + Insert(t, ts[1..]))[1..] == Insert(t, ts[1..]);
    } else {
      assert ([t] + ts)[1..] == ts;
    }
  }

  lemma {:induction false} SortFree(ts: seq<TypeName>)
    requires AllAliasFree(ts)
    ensures AllAliasFree(Sort(ts))
  {
    hide AliasFree;
    if ts != [] {
      var n := |ts| - 1;
      assert ts == ts[..n] + [ts[n]];
      AllAliasFreeAppend(ts[..n], [ts[n]]);
      SortFree(ts[..n]);
      InsertFree(ts[n], Sort(ts[..n]));
    }
  }

  lemma {:induction false} UniqueFree(ts: seq<TypeName>)
    requires AllAliasFree(ts)
    ensures AllAliasFree(Unique(ts))
  {
    hide AliasFree, Same;
    if |ts| > 1 {
      UniqueFree(ts[1..]);
      assert ([ts[0]] + Unique(ts[1..]))[1..] == Unique(ts[1..]);
    }
  }

  lemma {:induction false} UnionFree(ts: seq<TypeName>)
    requires ts != [] && AllAliasFree(ts)
    ensures AliasFree(MakeUnion(ts))
  {
    if |ts| > 1 {
      FlattenFree(ts);
      SortFree(Flatten(ts));
      UniqueFree(Sort(Flatten(ts)));
    }
  }

  lemma {:induction false} ParseUnionFree(s: string)
    ensures ParseUnion(s).Got? ==> AliasFree(ParseUnion(s).v)
    decreases |s|, 3
  {
    hide AliasFree, MakeUnion;
    ParsePrimaryFree(s);
    var first := ParsePrimary(s);
    if first.Got? {
      ParseMoreFree(first.rest);
      var more := ParseMore(first.rest);
      if more.Got? {
        assert ([first.v] + more.v)[1..] == more.v;
        UnionFree([first.v] + more.v);
      }
    }
  }

  lemma {:induction false} ParseMoreFree(s: string)
    ensures ParseMore(s).Got? ==> AllAliasFree(ParseMore(s).v)
    decreases |s|, 1
  {
    hide AliasFree;
    var bar := Consume(s, '|');
    if bar.Some? {
      ParsePrimaryFree(bar.value);
      var next := ParsePrimary(bar.value);
      if next.Got? {
        ParseMoreFree(next.rest);
        var more := ParseMore(next.rest);
        if more.Got? { assert ([next.v] + more.v)[1..] == more.v; }
      }
    }
  }

  lemma {:induction false} ParsePrimaryFree(s: string)
    ensures ParsePrimary(s).Got? ==> AliasFree(ParsePrimary(s).v)
    decreases |s|, 2
  {
    hide AliasFree, NameLen, Skip;
    var open := Consume(s, '(');
    if open.Some? {
      ParseUnionFree(open.value);
    } else {
      var t := Skip(s);
      var n := NameLen(t);
      if n > 0 { ParseSizedFree(Alias(t[..n]), t[n..]); }
    }
  }

  lemma {:induction false} ParseSizedFree(name: string, s: string)
    requires NotAnAlias(name)
    ensures ParseSized(name, s).Got? ==> AliasFree(ParseSized(name, s).v)
    decreases |s|, 7
  {
    hide AliasFree, ParseSize;
    var open := if name == "array" then Consume(s, '[') else None;
    if open.None? {
      ParseArgumentsFree(name, None, s);
    } else {
      var size := ParseSize(open.value);
      if size.Got? { ParseArgumentsFree(name, Some(size.v), size.rest); }
    }
  }

  lemma {:induction false} ParseArgumentsFree(name: string, size: Option<nat>, s: string)
    requires NotAnAlias(name)
    ensures ParseArguments(name, size, s).Got? ==> AliasFree(ParseArguments(name, size, s).v)
    decreases |s|, 6
  {
    hide NotAnAlias, ParseList, Signature, Skip;
    var angle := Consume(s, '<');
    if angle.Some? {
      if Consume(angle.value, '>').None? { ParseListFree(angle.value); }
    } else {
      var paren := if name == "func" then Consume(s, '(') else None;
      if paren.Some? { SignatureFree(name, size, paren.value); }
    }
  }

  lemma {:induction false} SignatureFree(name: string, size: Option<nat>, s: string)
    requires NotAnAlias(name)
    ensures Signature(name, size, s).Got? ==> AliasFree(Signature(name, size, s).v)
    decreases |s|, 6
  {
    hide NotAnAlias, ParseParams, ParseUnion;
    ParseParamsFree(s);
    var params := ParseParams(s);
    if params.Got? {
      var colon := Consume(params.rest, ':');
      if colon.Some? {
        ParseUnionFree(colon.value);
        var result := ParseUnion(colon.value);
        if result.Got? { AllAliasFreeAppend(params.v, [result.v]); }
      }
    }
  }

  lemma {:induction false} ParseListFree(s: string)
    ensures ParseList(s).Got? ==> AllAliasFree(ParseList(s).v)
    decreases |s|, 5
  {
    hide AliasFree, ParseUnion;
    ParseUnionFree(s);
    var first := ParseUnion(s);
    if first.Got? && Consume(first.rest, '>').None? {
      var comma := Consume(first.rest, ',');
      if comma.Some? {
        ParseListFree(comma.value);
        var more := ParseList(comma.value);
        if more.Got? { assert ([first.v] + more.v)[1..] == more.v; }
      }
    }
  }

  lemma {:induction false} ParseParamsFree(s: string)
    ensures ParseParams(s).Got? ==> AllAliasFree(ParseParams(s).v)
    decreases |s|, 5
  {
    hide AliasFree, ParseUnion;
    if Consume(s, ')').None? {
      ParseUnionFree(s);
      var first := ParseUnion(s);
      if first.Got? && Consume(first.rest, ')').None? {
        var comma := Consume(first.rest, ',');
        if comma.Some? {
          ParseParamsFree(comma.value);
          var more := ParseParams(comma.value);
          if more.Got? { assert ([first.v] + more.v)[1..] == more.v; }
        }
      }
    }
  }

  /** No parsed type mentions float, decimal or null, at any depth. */
  lemma {:induction false} ParsedIsAliasFree(text: string)
    ensures Parse(text).Some? ==> AliasFree(Parse(text).value)
  {
    hide ParseUnion, AliasFree;
    ParseUnionFree(text);
  }

  // ---------- blanks ----------

  predicate AllBlank(b: string) { forall i :: 0 <= i < |b| ==> b[i] in " \t\n\r" || b[i] == 11 as char || b[i] == 12 as char }

  lemma {:induction false} SkipBlanks(b: string, s: string)
    requires AllBlank(b)
    ensures Skip(b + s) == Skip(s)
  {
    if b == [] {
      assert b + s == s;
    } else {
      assert Blank(b[0]);
      assert (b + s)[1..] == b[1..] + s;
      SkipBlanks(b[1..], s);
    }
  }

  /** Blanks before a type do not matter. */
  lemma {:induction false} BlanksBefore(b: string, s: string)
    requires AllBlank(b)
    ensures Parse(b + s) == Parse(s)
  {
    hide Skip, ParseMore, ParseSized, NameLen, MakeUnion;
    SkipBlanks(b, s);
    assert ParsePrimary(b + s) == ParsePrimary(s) by { PrimarySkips(b + s, s); }
  }

  lemma {:induction false} PrimarySkips(s: string, t: string)
    requires Skip(s) == Skip(t)
    ensures ParsePrimary(s) == ParsePrimary(t)
  {
    hide Skip, ParseUnion, ParseSized, NameLen;
    assert Consume(s, '(') == Consume(t, '(');
  }

  /** Blanks before a punctuation mark do not matter, and only that mark is taken. */
  lemma {:induction false} ConsumeLaw(b: string, c: char, d: char, rest: string)
    requires AllBlank(b) && c in "(|)[]<>,:"
    ensures Consume(b + ([c] + rest), d) == if c == d then Some(rest) else None
    ensures Consume(b, d) == None
  {
    SkipBlanks(b, [c] + rest);
    SkipBlanks(b, []);
    assert b + [] == b;
    assert ([c] + rest)[1..] == rest;
  }

  // ---------- groups, empty lists, trailing commas ----------

  /** A type in parentheses is the type. */
  lemma {:induction false} GroupLaw(t: TypeName)
    requires Canonical(t)
    ensures Parse(['('] + (Render(t) + [')'])) == Some(t)
  {
    hide Canonical, Render, ParseSized;
    var s := ['('] + (Render(t) + [')']);
    UnionBack(t, [')']);
    ConsumeHere('(', Render(t) + [')']);
    ConsumeHere(')', []);
    assert [')'] + [] == [')'];
    assert ParsePrimary(s) == Got(t, []);
    assert ParseMore([]) == Got([], []);
    assert MakeUnion([t] + []) == t;
  }

  /** An empty argument list is no argument list. */
  lemma {:induction false} EmptyAngles(s: string)
    requires IsName(s) && NotAnAlias(s) && s != "array"
    ensures Parse(s + "<>") == Some(Plain(s))
  {
    hide Alias;
    NamePrefix(s, "<>");
    AliasIsSame(s);
    var text := s + "<>";
    assert text[0] == s[0];
    assert Skip(text) == text && text[..|s|] == s && text[|s|..] == "<>";
    ConsumeHere('<', ">");
    ConsumeHere('>', "");
    assert ['<'] + ">" == "<>" && ['>'] + "" == ">";
    assert ParseArguments(s, None, "<>") == Got(Plain(s), "");
    assert ParsePrimary(text) == Got(Plain(s), "");
    assert ParseMore("") == Got([], "");
    assert MakeUnion([Plain(s)] + []) == Plain(s);
  }

  lemma {:induction false} AliasIsSame(s: string)
    requires NotAnAlias(s)
    ensures Alias(s) == s
  {
  }

  /** After the last parameter of a function type a comma may stand. */
  lemma {:induction false} TrailingComma(t: TypeName)
    requires Canonical(t)
    ensures ParseParams(Render(t) + [',', ')']) == ParseParams(Render(t) + [')']) == Got([t], [])
  {
    hide Canonical, Render, ParseUnion;
    UnionBack(t, [',', ')']);
    UnionBack(t, [')']);
    RenderStart(t);
    StartFacts(Render(t), [',', ')']);
    StartFacts(Render(t), [')']);
    ConsumeHere(',', [')']);
    ConsumeHere(')', []);
    assert [','] + [')'] == [',', ')'] && [')'] + [] == [')'];
    assert ParseParams([')']) == Got([], []);
    assert ParseParams(Render(t) + [')']) == Got([t], []);
    assert [t] + [] == [t];
    assert Consume([',', ')'], ')').None? && Consume([',', ')'], ',') == Some([')']);
    assert ParseParams(Render(t) + [',', ')']) == Got([t] + [], []);
  }

  // ---------- how types look ----------

  function Of(name: string, args: seq<TypeName>): TypeName { TypeName(name, args, [], None) }

  lemma {:induction false} RenderTwo(a: TypeName, b: TypeName)
    ensures RenderList([a, b]) == Render(a) + ([','] + Render(b))
    ensures RenderMembers([a, b]) == RenderMember(a) + (['|'] + RenderMember(b))
  {
    assert [a, b][1..] == [b];
  }

  /** Arguments stand in angles after the name, with commas between them. */
  lemma {:induction false} ArgumentsLook(name: string, a: TypeName, b: TypeName)
    requires name != "func"
    ensures Render(Plain(name)) == name
    ensures Render(Of(name, [a])) == name + "<" + Render(a) + ">"
    ensures Render(Of(name, [a, b])) == name + "<" + Render(a) + "," + Render(b) + ">"
  {
    RenderTwo(a, b);
    assert Render(Of(name, [a])) == name + (['<'] + (Render(a) + ['>']));
    assert Render(Of(name, [a, b])) == name + (['<'] + ((Render(a) + ([','] + Render(b))) + ['>']));
    hide Render;
    Brackets(name, Render(a), '<', '>');
    Brackets(name, Render(a) + ([','] + Render(b)), '<', '>');
    assert Render(a) + ([','] + Render(b)) == Render(a) + "," + Render(b);
  }

  lemma {:induction false} Brackets(h: string, inner: string, open: char, close: char)
    ensures h + ([open] + (inner + [close])) == h + [open] + inner + [close]
  {
  }

  /** The size of an array stands in brackets before its arguments. */
  lemma {:induction false} ArrayLooks(a: TypeName, n: nat)
    ensures Render(TypeName("array", [a], [], Some(n))) == "array[" + Decimal(n) + "]<" + Render(a) + ">"
  {
    var t := TypeName("array", [a], [], Some(n));
    assert Render(t) == Head(t) + (['<'] + (Render(a) + ['>']));
    hide Render;
    assert Head(t) == "array" + (['['] + (Decimal(n) + [']']));
    Brackets("array", Decimal(n), '[', ']');
    Brackets(Head(t), Render(a), '<', '>');
    assert "array" + ['['] == "array[";
  }

  /** Parameters stand in parentheses before a colon and the result. */
  lemma {:induction false} FunctionLooks(a: TypeName, b: TypeName)
    ensures Render(Of("func", [b])) == "func():" + Render(b)
    ensures Render(Of("func", [a, b])) == "func(" + Render(a) + "):" + Render(b)
  {
    assert [a, b][..1] == [a] && [b][..0] == [];
    assert Render(Of("func", [b])) == "func" + (['('] + ([] + ([')', ':'] + Render(b))));
    assert Render(Of("func", [a, b])) == "func" + (['('] + (Render(a) + ([')', ':'] + Render(b))));
    hide Render;
    Pieces([], Render(b));
    Pieces(Render(a), Render(b));
    assert "func(" + [] + "):" + Render(b) == "func():" + Render(b);
  }

  lemma {:induction false} Pieces(inner: string, result: string)
    ensures "func" + (['('] + (inner + ([')', ':'] + result))) == "func(" + inner + "):" + result
  {
    assert "func" + ['('] == "func(";
  }

  /** Members of a union stand beside bars, functions among them in parentheses. */
  lemma {:induction false} UnionLooks(a: TypeName, b: TypeName)
    requires a.name != "func" && b.name == "func" && b.args != []
    ensures Render(TypeName("union", [], [a, b], None)) == Render(a) + "|(" + Render(b) + ")"
  {
    RenderTwo(a, b);
    hide Render;
    assert RenderMember(b) == ['('] + (Render(b) + [')']);
    assert RenderMember(a) == Render(a);
    UnionRenders([a, b]);
    assert Render(a) + (['|'] + (['('] + (Render(b) + [')']))) == Render(a) + "|(" + Render(b) + ")";
  }

  lemma {:induction false} UnionRenders(ms: seq<TypeName>)
    requires ms != []
    ensures Render(TypeName("union", [], ms, None)) == RenderMembers(ms)
  {
  }

  /** The characters of names and of blanks, listed. */
  lemma {:induction false} Characters(c: char)
    ensures NameChar(c) <==> c in "abcdefghijklmnopqrstuvwxyz" || c in "ABCDEFGHIJKLMNOPQRSTUVWXYZ" || c in "0123456789" || c in "_."
    ensures Blank(c) <==> c in " \t\n\r" || c in {11 as char, 12 as char}
  {
    CharRange('a', "abcdefghijklmnopqrstuvwxyz", c);
    CharRange('A', "ABCDEFGHIJKLMNOPQRSTUVWXYZ", c);
    CharRange('0', "0123456789", c);
  }
}

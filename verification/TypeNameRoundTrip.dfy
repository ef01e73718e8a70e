/** Printing a canonical type name and parsing it back gives that type name; printing is therefore injective. */
module TypeNameRoundTrip {
  import opened Wrappers
  import opened TypeNames

  // ---------- canonical type names ----------

  predicate PlainName(name: string) {
    name != [] && (forall i :: 0 <= i < |name| ==> NameChar(name[i])) && Alias(name) == name
  }

  /** Canonical type names: names that are no aliases, sizes only on arrays and within range, and unions of at
      least two members that are no unions themselves, in strictly increasing order. */
  predicate Canonical(t: TypeName)
    decreases t, 1
  {
    if t.members != [] then
      t.name == "union" && t.args == [] && t.fixedSize.None? && |t.members| >= 2 && AllCanonical(t.members) && NoUnions(t.members)
      && Increasing(t.members)
    else PlainName(t.name) && (t.fixedSize.Some? ==> t.name == "array" && t.fixedSize.value <= MAX_SIZE) && AllCanonical(t.args)
  }

  predicate AllCanonical(ts: seq<TypeName>)
    decreases ts, 0
  {
    ts != [] ==> Canonical(ts[0]) && AllCanonical(ts[1..])
  }

  predicate NoUnions(ts: seq<TypeName>) {
    forall i :: 0 <= i < |ts| ==> ts[i].members == []
  }

  predicate Increasing(ts: seq<TypeName>) {
    forall i :: 0 <= i < |ts| - 1 ==> Less(RenderMember(ts[i]), RenderMember(ts[i + 1]))
  }

  lemma {:induction false} CanonicalAt(ts: seq<TypeName>, i: nat)
    requires AllCanonical(ts) && i < |ts|
    ensures Canonical(ts[i])
  {
    hide Canonical;
    if i > 0 { CanonicalAt(ts[1..], i - 1); }
  }

  lemma {:induction false} CanonicalFront(ts: seq<TypeName>)
    requires AllCanonical(ts) && ts != []
    ensures AllCanonical(ts[..|ts| - 1])
  {
    hide Canonical;
    var front := ts[..|ts| - 1];
    if |ts| > 1 {
      CanonicalFront(ts[1..]);
      assert front[0] == ts[0] && front[1..] == ts[1..][..|ts| - 2];
    }
  }

  // ---------- order and equality ----------

  lemma {:induction false} LessIrreflexive(a: string)
    ensures !Less(a, a)
  {
    if a != [] { LessIrreflexive(a[1..]); }
  }

  lemma {:induction false} LessTransitive(a: string, b: string, c: string)
    requires Less(a, b) && Less(b, c)
    ensures Less(a, c)
  {
    if a != [] && a[0] == b[0] && b[0] == c[0] { LessTransitive(a[1..], b[1..], c[1..]); }
  }

  lemma {:induction false} LessTotal(a: string, b: string)
    ensures Less(a, b) || Less(b, a) || a == b
  {
    if a != [] && b != [] && a[0] == b[0] {
      LessTotal(a[1..], b[1..]);
      assert a == [a[0]] + a[1..] && b == [b[0]] + b[1..];
    }
  }

  /** On canonical type names the source's equality is equality. */
  lemma {:induction false} SameIsEqual(a: TypeName, b: TypeName)
    requires Canonical(a) && Canonical(b)
    ensures Same(a, b) <==> a == b
    decreases a, 1
  {
    hide PlainName, Increasing, NoUnions;
    if a.members != [] || b.members != [] {
      if a.members == [] {
        assert !SameAll(a.members, b.members);
      } else if b.members == [] {
        assert !SameAll(a.members, b.members);
      } else {
        SameIsEqualAll(a.members, b.members);
      }
    } else {
      SameIsEqualAll(a.args, b.args);
    }
  }

  lemma {:induction false} SameIsEqualAll(a: seq<TypeName>, b: seq<TypeName>)
    requires AllCanonical(a) && AllCanonical(b)
    ensures SameAll(a, b) <==> a == b
    decreases a, 0
  {
    hide Canonical, Same;
    if |a| == |b| && a != [] {
      SameIsEqual(a[0], b[0]);
      SameIsEqualAll(a[1..], b[1..]);
      assert a == [a[0]] + a[1..] && b == [b[0]] + b[1..];
    }
  }

  // ---------- unions that are already in order ----------

  lemma {:induction false} FlattenNothing(ts: seq<TypeName>)
    requires NoUnions(ts)
    ensures Flatten(ts) == ts
  {
    if ts != [] {
      FlattenNothing(ts[1..]);
      assert ts == [ts[0]] + ts[1..];
    }
  }

  lemma {:induction false} IncreasingFar(ts: seq<TypeName>, i: nat, j: nat)
    requires Increasing(ts) && i < j < |ts|
    ensures Less(RenderMember(ts[i]), RenderMember(ts[j]))
    decreases j
  {
    hide Less, RenderMember;
    assert Less(RenderMember(ts[j - 1]), RenderMember(ts[j - 1 + 1]));
    if i < j - 1 {
      IncreasingFar(ts, i, j - 1);
      LessTransitive(RenderMember(ts[i]), RenderMember(ts[j - 1]), RenderMember(ts[j]));
    }
  }

  /** A member that is less than none of the others goes to the end. */
  lemma {:induction false} InsertLast(t: TypeName, ts: seq<TypeName>)
    requires forall i :: 0 <= i < |ts| ==> !Less(RenderMember(t), RenderMember(ts[i]))
    ensures Insert(t, ts) == ts + [t]
  {
    hide Less, RenderMember;
    if ts != [] {
      InsertLast(t, ts[1..]);
      assert ts == [ts[0]] + ts[1..];
    }
  }

  lemma {:induction false} SortSorted(ts: seq<TypeName>)
    requires Increasing(ts)
    ensures Sort(ts) == ts
  {
    hide Less, RenderMember;
    if ts != [] {
      var front, last := ts[..|ts| - 1], ts[|ts| - 1];
      assert Increasing(front) by {
        forall i | 0 <= i < |front| - 1 ensures Less(RenderMember(front[i]), RenderMember(front[i + 1])) {
          assert Less(RenderMember(ts[i]), RenderMember(ts[i + 1]));
        }
      }
      SortSorted(front);
      forall i | 0 <= i < |front| ensures !Less(RenderMember(last), RenderMember(front[i])) {
        IncreasingFar(ts, i, |ts| - 1);
        NotBoth(RenderMember(front[i]), RenderMember(last));
      }
      InsertLast(last, front);
      assert front + [last] == ts;
    }
  }

  lemma {:induction false} NotBoth(a: string, b: string)
    requires Less(a, b)
    ensures !Less(b, a) && a != b
  {
    LessIrreflexive(a);
    if Less(b, a) { LessTransitive(a, b, a); assert false; }
  }

  lemma {:induction false} UniqueSorted(ts: seq<TypeName>)
    requires Increasing(ts) && AllCanonical(ts)
    ensures Unique(ts) == ts
  {
    hide Less, RenderMember, Canonical, Same;
    if |ts| > 1 {
      assert Less(RenderMember(ts[0]), RenderMember(ts[0 + 1]));
      NotBoth(RenderMember(ts[0]), RenderMember(ts[1]));
      CanonicalAt(ts, 1);
      SameIsEqual(ts[0], ts[1]);
      IncreasingTail(ts);
      UniqueSorted(ts[1..]);
      assert ts == [ts[0]] + ts[1..];
    }
  }

  lemma {:induction false} IncreasingTail(ts: seq<TypeName>)
    requires Increasing(ts) && ts != []
    ensures Increasing(ts[1..])
  {
    hide Less, RenderMember;
    forall i | 0 <= i < |ts[1..]| - 1 ensures Less(RenderMember(ts[1..][i]), RenderMember(ts[1..][i + 1])) {
      assert Less(RenderMember(ts[i + 1]), RenderMember(ts[i + 1 + 1]));
    }
  }

  /** Rebuilding a canonical union from its members. */
  lemma {:induction false} SortedUnion(t: TypeName)
    requires Canonical(t) && t.members != []
    ensures MakeUnion(t.members) == t
  {
    hide Increasing, AllCanonical, NoUnions;
    FlattenNothing(t.members);
    SortSorted(t.members);
    UniqueSorted(t.members);
  }

  // ---------- text ----------

  /** What may follow a whole type. */
  predicate Stop(rest: string) { rest == [] || rest[0] == ')' || rest[0] == '>' || rest[0] == ',' }

  predicate Delimited(rest: string) { Stop(rest) || rest[0] == '|' }

  lemma {:induction false} DelimitedFacts(rest: string)
    requires Delimited(rest)
    ensures Skip(rest) == rest && NameLen(rest) == 0
    ensures forall c :: c != ')' && c != '>' && c != ',' && c != '|' ==> Consume(rest, c).None?
    ensures Stop(rest) ==> Consume(rest, '|').None?
  {
  }

  lemma {:induction false} NamePrefix(name: string, rest: string)
    requires (forall i :: 0 <= i < |name| ==> NameChar(name[i])) && (rest != [] ==> !NameChar(rest[0]))
    ensures NameLen(name + rest) == |name|
  {
    if name == [] {
      assert name + rest == rest;
    } else {
      assert (name + rest)[0] == name[0] && (name + rest)[1..] == name[1..] + rest;
      NamePrefix(name[1..], rest);
    }
  }

  lemma {:induction false} DigitPrefix(ds: string, rest: string)
    requires (forall i :: 0 <= i < |ds| ==> Digit(ds[i])) && (rest != [] ==> !Digit(rest[0]))
    ensures DigitLen(ds + rest) == |ds|
  {
    if ds == [] {
      assert ds + rest == rest;
    } else {
      assert (ds + rest)[0] == ds[0] && (ds + rest)[1..] == ds[1..] + rest;
      DigitPrefix(ds[1..], rest);
    }
  }

  lemma {:induction false} ConsumeHere(c: char, rest: string)
    requires !Blank(c)
    ensures Consume([c] + rest, c) == Some(rest)
    ensures forall d :: d != c ==> Consume([c] + rest, d) == None
  {
    assert ([c] + rest)[0] == c && ([c] + rest)[1..] == rest;
  }

  lemma {:induction false} SizeBack(n: nat, rest: string)
    requires n <= MAX_SIZE
    ensures ParseSize(Decimal(n) + ([']'] + rest)) == Got(n, rest)
  {
    var ds := Decimal(n);
    var s := ds + ([']'] + rest);
    DigitPrefix(ds, [']'] + rest);
    assert s[|ds|..] == [']'] + rest && s[..|ds|] == ds;
    ConsumeHere(']', rest);
    NumberDecimal(n);
  }

  /** A printed type starts with a name character, or a parenthesis when it is a union. */
  predicate GoodStart(s: string) { s != [] && (NameChar(s[0]) || s[0] == '(') }

  lemma {:induction false} StartFacts(s: string, rest: string)
    requires GoodStart(s)
    ensures GoodStart(s + rest) && Skip(s + rest) == s + rest
    ensures Consume(s + rest, '>').None? && Consume(s + rest, ')').None?
  {
    assert (s + rest)[0] == s[0];
  }

  lemma {:induction false} HeadStart(t: TypeName)
    requires PlainName(t.name)
    ensures Head(t) != [] && NameChar(Head(t)[0])
  {
    assert NameChar(t.name[0]);
  }

  lemma {:induction false} RenderStart(t: TypeName)
    requires Canonical(t)
    ensures GoodStart(Render(t)) && (t.members == [] ==> NameChar(Render(t)[0]))
    decreases t
  {
    hide Increasing, AllCanonical, RenderList, PlainName, Head;
    if t.members == [] {
      HeadStart(t);
    } else {
      var m := t.members[0];
      CanonicalAt(t.members, 0);
      RenderStart(m);
      assert GoodStart(RenderMember(m));
      assert RenderMembers(t.members)[0] == RenderMember(m)[0];
    }
  }

  // ---------- the round trip ----------

  /** A name, its size if it has one, and whatever arguments follow. */
  lemma {:induction false} HeadBack(t: TypeName, rest: string)
    requires Canonical(t) && t.members == [] && (rest != [] ==> !NameChar(rest[0]) && !Blank(rest[0]) && rest[0] != '[')
    ensures ParsePrimary(Head(t) + rest) == ParseArguments(t.name, t.fixedSize, rest)
  {
    hide ParseArguments, AllCanonical, ParseUnion, Decimal;
    var s := Head(t) + rest;
    HeadStart(t);
    assert s[0] == Head(t)[0] && Skip(s) == s && Consume(s, '(').None?;
    if t.fixedSize.Some? {
      var tail := Decimal(t.fixedSize.value) + ([']'] + rest);
      SizedText(t.fixedSize.value, rest);
      assert s == "array" + (['['] + tail);
      NamePrefix("array", ['['] + tail);
      assert s[..5] == "array" && s[5..] == ['['] + tail;
      assert ParsePrimary(s) == ParseSized("array", ['['] + tail);
      ConsumeHere('[', tail);
      SizeBack(t.fixedSize.value, rest);
    } else {
      NamePrefix(t.name, rest);
      assert s[..|t.name|] == t.name && s[|t.name|..] == rest;
      assert ParsePrimary(s) == ParseSized(t.name, rest);
      assert Consume(rest, '[').None?;
    }
  }

  lemma {:induction false} SizedText(n: nat, rest: string)
    ensures "array" + (['['] + (Decimal(n) + [']'])) + rest == "array" + (['['] + (Decimal(n) + ([']'] + rest)))
  {
    hide Decimal;
  }

  /** Parsing a printed type that is no union gives the type back. */
  lemma {:induction false} PrimaryBack(t: TypeName, rest: string)
    requires Canonical(t) && t.members == [] && Delimited(rest) && (IsFunction(t) ==> Stop(rest))
    ensures ParsePrimary(Render(t) + rest) == Got(t, rest)
    decreases t, 2
  {
    hide Canonical, ParsePrimary, Head, RenderList;
    if t.args == [] {
      HeadBack(t, rest);
      DelimitedFacts(rest);
      PlainEnd(t, rest);
    } else if t.name == "func" {
      FunctionBack(t, rest);
    } else {
      var tail := RenderList(t.args) + (['>'] + rest);
      assert Render(t) + rest == Head(t) + (['<'] + tail) by { AngleText(Head(t), RenderList(t.args), rest); }
      HeadBack(t, ['<'] + tail);
      AngleBack(t, rest);
    }
  }

  lemma {:induction false} AngleText(h: string, l: string, rest: string)
    ensures h + (['<'] + (l + ['>'])) + rest == h + (['<'] + (l + (['>'] + rest)))
  {
  }

  lemma {:induction false} PlainEnd(t: TypeName, rest: string)
    requires t.members == [] && t.args == [] && Delimited(rest)
    ensures ParseArguments(t.name, t.fixedSize, rest) == Got(t, rest)
  {
    DelimitedFacts(rest);
  }

  lemma {:induction false} AngleBack(t: TypeName, rest: string)
    requires Canonical(t) && t.members == [] && t.args != []
    ensures ParseArguments(t.name, t.fixedSize, ['<'] + (RenderList(t.args) + (['>'] + rest))) == Got(t, rest)
    decreases t, 1
  {
    hide ParseList, RenderList, Increasing, PlainName;
    var tail := RenderList(t.args) + (['>'] + rest);
    ConsumeHere('<', tail);
    ListStart(t.args);
    StartFacts(RenderList(t.args), ['>'] + rest);
    ListBack(t.args, rest);
  }

  lemma {:induction false} ListStart(ts: seq<TypeName>)
    requires AllCanonical(ts) && ts != []
    ensures GoodStart(RenderList(ts))
  {
    hide Canonical, Render;
    RenderStart(ts[0]);
  }

  lemma {:induction false} ListBack(ts: seq<TypeName>, rest: string)
    requires AllCanonical(ts) && ts != []
    ensures ParseList(RenderList(ts) + (['>'] + rest)) == Got(ts, rest)
    decreases ts, 0
  {
    hide Canonical, Render, ParseUnion;
    if |ts| == 1 {
      UnionBack(ts[0], ['>'] + rest);
      ConsumeHere('>', rest);
      assert ts == [ts[0]];
    } else {
      var more := RenderList(ts[1..]) + (['>'] + rest);
      CommaText(Render(ts[0]), RenderList(ts[1..]), ['>'] + rest);
      UnionBack(ts[0], [','] + more);
      ConsumeHere(',', more);
      ListBack(ts[1..], rest);
      assert [ts[0]] + ts[1..] == ts;
    }
  }

  lemma {:induction false} CommaText(a: string, b: string, c: string)
    ensures a + ([','] + b) + c == a + ([','] + (b + c))
  {
  }

  lemma {:induction false} ParamsBack(ts: seq<TypeName>, rest: string)
    requires AllCanonical(ts)
    ensures ParseParams(RenderList(ts) + ([')'] + rest)) == Got(ts, rest)
    decreases ts, 0
  {
    hide Canonical, Render, ParseUnion;
    if ts == [] {
      ConsumeHere(')', rest);
      assert [] + ([')'] + rest) == [')'] + rest;
    } else if |ts| == 1 {
      RenderStart(ts[0]);
      StartFacts(Render(ts[0]), [')'] + rest);
      UnionBack(ts[0], [')'] + rest);
      ConsumeHere(')', rest);
      assert ts == [ts[0]];
    } else {
      var more := RenderList(ts[1..]) + ([')'] + rest);
      CommaText(Render(ts[0]), RenderList(ts[1..]), [')'] + rest);
      RenderStart(ts[0]);
      StartFacts(Render(ts[0]), [','] + more);
      UnionBack(ts[0], [','] + more);
      ConsumeHere(',', more);
      ParamsBack(ts[1..], rest);
      assert [ts[0]] + ts[1..] == ts;
    }
  }

  lemma {:induction false} FunctionText(h: string, l: string, r: string, rest: string)
    ensures h + (['('] + (l + ([')', ':'] + r))) + rest == h + (['('] + (l + ([')'] + ([':'] + (r + rest)))))
  {
    assert [')', ':'] + r == [')'] + ([':'] + r);
  }

  /** A function type reads its result as far as it can, so nothing that could continue a union may follow. */
  lemma {:induction false} FunctionBack(t: TypeName, rest: string)
    requires Canonical(t) && t.members == [] && t.args != [] && t.name == "func" && Stop(rest)
    ensures ParsePrimary(Render(t) + rest) == Got(t, rest)
    decreases t, 1
  {
    hide Canonical, ParsePrimary, Head, RenderList;
    var n := |t.args| - 1;
    var params, result := RenderList(t.args[..n]), Render(t.args[n]);
    var tail := params + ([')'] + ([':'] + (result + rest)));
    FunctionText(Head(t), params, result, rest);
    assert Render(t) + rest == Head(t) + (['('] + tail);
    HeadBack(t, ['('] + tail);
    SignatureBack(t, rest);
  }

  lemma {:induction false} SignatureBack(t: TypeName, rest: string)
    requires Canonical(t) && t.members == [] && t.args != [] && t.name == "func" && Stop(rest)
    ensures var n := |t.args| - 1;
            ParseArguments(t.name, t.fixedSize, ['('] + (RenderList(t.args[..n]) + ([')'] + ([':'] + (Render(t.args[n]) + rest))))) == Got(t, rest)
    decreases t, 0
  {
    hide ParseUnion, ParseParams, Render, RenderList, Increasing, PlainName;
    var n := |t.args| - 1;
    var after := Render(t.args[n]) + rest;
    ConsumeHere('(', RenderList(t.args[..n]) + ([')'] + ([':'] + after)));
    CanonicalFront(t.args);
    ParamsBack(t.args[..n], [':'] + after);
    ConsumeHere(':', after);
    CanonicalAt(t.args, n);
    UnionBack(t.args[n], rest);
    assert t.args[..n] + [t.args[n]] == t.args;
  }

  /** Parsing a printed canonical type gives it back. */
  lemma {:induction false} UnionBack(t: TypeName, rest: string)
    requires Canonical(t) && Stop(rest)
    ensures ParseUnion(Render(t) + rest) == Got(t, rest)
    decreases t, 3
  {
    hide ParsePrimary, RenderMembers, MakeUnion, ParseMore;
    if t.members == [] {
      PrimaryBack(t, rest);
      NoMore(rest);
      MakeSingle(t);
    } else {
      MembersBack(t.members, rest);
      SortedUnion(t);
    }
  }

  lemma {:induction false} NoMore(rest: string)
    requires Stop(rest)
    ensures ParseMore(rest) == Got([], rest)
  {
    DelimitedFacts(rest);
  }

  lemma {:induction false} MakeSingle(t: TypeName)
    ensures MakeUnion([t] + []) == t
  {
    assert [t] + [] == [t];
  }

  lemma {:induction false} BarText(a: string, b: string, c: string)
    ensures a + (['|'] + b) + c == a + (['|'] + (b + c))
  {
  }

  /** Members in a row: the first is read as a primary, the others after their bars. */
  lemma {:induction false} MembersBack(ts: seq<TypeName>, rest: string)
    requires AllCanonical(ts) && NoUnions(ts) && ts != [] && Stop(rest)
    ensures ParseUnion(RenderMembers(ts) + rest) == Got(MakeUnion(ts), rest)
    ensures ParseMore(['|'] + (RenderMembers(ts) + rest)) == Got(ts, rest)
    decreases ts, 1
  {
    hide Canonical, RenderMember, ParsePrimary, MakeUnion;
    ConsumeHere('|', RenderMembers(ts) + rest);
    if |ts| == 1 {
      MemberBack(ts[0], rest);
      NoMore(rest);
      assert [ts[0]] + [] == ts;
    } else {
      var more := RenderMembers(ts[1..]) + rest;
      BarText(RenderMember(ts[0]), RenderMembers(ts[1..]), rest);
      MemberBack(ts[0], ['|'] + more);
      MembersBack(ts[1..], rest);
      assert [ts[0]] + ts[1..] == ts;
    }
  }

  lemma {:induction false} MemberText(a: string, rest: string)
    ensures ['('] + (a + [')']) + rest == ['('] + (a + ([')'] + rest))
  {
  }

  lemma {:induction false} MemberBack(t: TypeName, rest: string)
    requires Canonical(t) && t.members == [] && Delimited(rest)
    ensures ParsePrimary(RenderMember(t) + rest) == Got(t, rest)
    decreases t, 4
  {
    hide Canonical, Render, ParseUnion, ParseSized;
    if IsFunction(t) {
      var tail := Render(t) + ([')'] + rest);
      MemberText(Render(t), rest);
      ConsumeHere('(', tail);
      UnionBack(t, [')'] + rest);
      ConsumeHere(')', rest);
    } else {
      PrimaryBack(t, rest);
    }
  }

  /** Parsing the print of a canonical type name gives that type name. */
  lemma {:induction false} RoundTrip(t: TypeName)
    requires Canonical(t)
    ensures Parse(Render(t)) == Some(t)
  {
    hide Canonical, Render, ParseUnion;
    UnionBack(t, []);
    assert Render(t) + [] == Render(t);
  }

  /** So two canonical type names that print alike are the same. */
  lemma {:induction false} RenderInjective(a: TypeName, b: TypeName)
    requires Canonical(a) && Canonical(b) && Render(a) == Render(b)
    ensures a == b
  {
    hide Canonical, Render, Parse;
    RoundTrip(a);
    RoundTrip(b);
  }

  lemma {:induction false} MemberInjective(a: TypeName, b: TypeName)
    requires Canonical(a) && Canonical(b) && a.members == [] && b.members == [] && RenderMember(a) == RenderMember(b)
    ensures a == b
  {
    hide Canonical, RenderMember, ParsePrimary;
    MemberBack(a, []);
    MemberBack(b, []);
  }
}

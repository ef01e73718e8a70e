/** Unions do not depend on the order or the repetition of their members, and exactly when printing one and parsing it
    back gives it back. */
module TypeNameUnions {
  import opened Wrappers
  import opened TypeNames
  import opened TypeNameRoundTrip

  /** Canonical members that are no unions themselves. */
  ghost predicate Members(ts: seq<TypeName>) {
    forall t :: t in ts ==> Canonical(t) && t.members == []
  }

  lemma {:induction false} MembersCanonical(ts: seq<TypeName>)
    requires Members(ts)
    ensures AllCanonical(ts) && NoUnions(ts)
  {
    hide Canonical;
    if ts != [] {
      assert ts[0] in ts;
      MembersCanonical(ts[1..]);
    }
  }

  predicate NotDecreasing(ts: seq<TypeName>) {
    |ts| <= 1 || (!Less(RenderMember(ts[1]), RenderMember(ts[0])) && NotDecreasing(ts[1..]))
  }

  // ---------- sorting ----------

  lemma {:induction false} InsertHolds(t: TypeName, ts: seq<TypeName>, x: TypeName)
    ensures x in Insert(t, ts) <==> x == t || x in ts
  {
    hide Less, RenderMember;
    if ts != [] {
      InsertHolds(t, ts[1..], x);
      assert ts == [ts[0]] + ts[1..];
    }
  }

  lemma {:induction false} SortHolds(ts: seq<TypeName>, x: TypeName)
    ensures x in Sort(ts) <==> x in ts
  {
    hide Insert;
    if ts != [] {
      var front, last := ts[..|ts| - 1], ts[|ts| - 1];
      SortHolds(front, x);
      InsertHolds(last, Sort(front), x);
      assert ts == front + [last];
    }
  }

  lemma {:induction false} InsertOrdered(t: TypeName, ts: seq<TypeName>)
    requires NotDecreasing(ts)
    ensures NotDecreasing(Insert(t, ts))
  {
    hide Less, RenderMember;
    var r := Insert(t, ts);
    if ts == [] {
    } else if Less(RenderMember(t), RenderMember(ts[0])) {
      NotBoth(RenderMember(t), RenderMember(ts[0]));
      assert r[1..] == ts && r[0] == t;
    } else {
      InsertOrdered(t, ts[1..]);
      assert r[1..] == Insert(t, ts[1..]);
      assert r[1] == t || (|ts| > 1 && r[1] == ts[1]);
    }
  }

  lemma {:induction false} SortOrdered(ts: seq<TypeName>)
    ensures NotDecreasing(Sort(ts))
  {
    hide Insert, NotDecreasing;
    if ts == [] {
      NothingDecreases();
    } else {
      SortOrdered(ts[..|ts| - 1]);
      InsertOrdered(ts[|ts| - 1], Sort(ts[..|ts| - 1]));
    }
  }

  lemma {:induction false} NothingDecreases()
    ensures NotDecreasing([])
  {
  }

  // ---------- removing repetitions ----------

  lemma {:induction false} UniqueHolds(ts: seq<TypeName>, x: TypeName)
    requires Members(ts)
    ensures x in Unique(ts) <==> x in ts
  {
    hide Canonical, Same;
    if |ts| > 1 {
      assert ts[0] in ts && ts[1] in ts;
      SameIsEqual(ts[0], ts[1]);
      UniqueHolds(ts[1..], x);
      assert ts == [ts[0]] + ts[1..];
    }
  }

  lemma {:induction false} UniqueIncreasing(ts: seq<TypeName>)
    requires Members(ts) && NotDecreasing(ts)
    ensures Increasing(Unique(ts)) && (ts != [] ==> Unique(ts) != [] && Unique(ts)[0] == ts[0])
  {
    hide Canonical, Same, Less, RenderMember;
    if |ts| > 1 {
      assert ts[0] in ts && ts[1] in ts;
      SameIsEqual(ts[0], ts[1]);
      UniqueIncreasing(ts[1..]);
      if ts[0] != ts[1] {
        if RenderMember(ts[0]) == RenderMember(ts[1]) { MemberInjective(ts[0], ts[1]); assert false; }
        LessTotal(RenderMember(ts[0]), RenderMember(ts[1]));
        IncreasingCons(ts[0], Unique(ts[1..]));
      }
    }
  }

  lemma {:induction false} IncreasingCons(t: TypeName, ts: seq<TypeName>)
    requires Increasing(ts) && (ts != [] ==> Less(RenderMember(t), RenderMember(ts[0])))
    ensures Increasing([t] + ts)
  {
    hide Less, RenderMember;
    var r := [t] + ts;
    forall i | 0 <= i < |r| - 1 ensures Less(RenderMember(r[i]), RenderMember(r[i + 1])) {
      if i > 0 {
        assert r[i] == ts[i - 1] && r[i + 1] == ts[i - 1 + 1];
        assert Less(RenderMember(ts[i - 1]), RenderMember(ts[i - 1 + 1]));
      }
    }
  }

  // ---------- one set, one list ----------

  lemma {:induction false} HeadIsLeast(a: seq<TypeName>, x: TypeName)
    requires Increasing(a) && x in a && x != a[0]
    ensures Less(RenderMember(a[0]), RenderMember(x))
  {
    hide Less, RenderMember;
    var i :| 0 <= i < |a| && a[i] == x;
    IncreasingFar(a, 0, i);
  }

  lemma {:induction false} TailHolds(a: seq<TypeName>, x: TypeName)
    requires Increasing(a) && a != []
    ensures x in a[1..] <==> x in a && x != a[0]
  {
    hide Less, RenderMember;
    assert a == [a[0]] + a[1..];
    if a[0] in a[1..] {
      var i :| 0 <= i < |a[1..]| && a[1..][i] == a[0];
      IncreasingFar(a, 0, i + 1);
      LessIrreflexive(RenderMember(a[0]));
      assert false;
    }
  }

  lemma {:induction false} SameSetSameList(a: seq<TypeName>, b: seq<TypeName>)
    requires Increasing(a) && Increasing(b) && forall x :: x in a <==> x in b
    ensures a == b
  {
    hide Less, RenderMember, Increasing;
    assert a != [] ==> a[0] in b;
    assert b != [] ==> b[0] in a;
    if a != [] {
      if a[0] != b[0] {
        HeadIsLeast(b, a[0]);
        HeadIsLeast(a, b[0]);
        NotBoth(RenderMember(a[0]), RenderMember(b[0]));
        assert false;
      }
      forall x ensures x in a[1..] <==> x in b[1..] {
        TailHolds(a, x);
        TailHolds(b, x);
      }
      IncreasingTail(a);
      IncreasingTail(b);
      SameSetSameList(a[1..], b[1..]);
      assert a == [a[0]] + a[1..] && b == [b[0]] + b[1..];
    }
  }

  // ---------- unions ----------

  /** The members a union ends up with: exactly the given ones, each once, in order. */
  lemma {:induction false} Normal(ms: seq<TypeName>)
    requires Members(ms) && |ms| >= 2
    ensures MakeUnion(ms) == TypeName("union", [], MakeUnion(ms).members, None)
    ensures Increasing(MakeUnion(ms).members) && forall x :: x in MakeUnion(ms).members <==> x in ms
  {
    hide Increasing, Sort, Unique, Canonical, AllCanonical, NotDecreasing;
    MembersCanonical(ms);
    FlattenNothing(ms);
    var sorted := Sort(ms);
    SortOrdered(ms);
    forall x ensures x in sorted <==> x in ms { SortHolds(ms, x); }
    UniqueIncreasing(sorted);
    forall x ensures x in Unique(sorted) <==> x in ms { UniqueHolds(sorted, x); }
  }

  /** Reordering or repeating members makes no difference. */
  lemma {:induction false} OrderDoesNotMatter(ms: seq<TypeName>, ns: seq<TypeName>)
    requires Members(ms) && Members(ns) && |ms| >= 2 && |ns| >= 2 && forall x :: x in ms <==> x in ns
    ensures MakeUnion(ms) == MakeUnion(ns)
    ensures Parse(RenderMembers(ms)) == Parse(RenderMembers(ns)) == Some(MakeUnion(ms))
  {
    hide Increasing, MakeUnion, Canonical, Parse, Members, RenderMembers;
    Normal(ms);
    Normal(ns);
    SameSetSameList(MakeUnion(ms).members, MakeUnion(ns).members);
    MembersParse(ms);
    MembersParse(ns);
  }

  lemma {:induction false} MembersParse(ms: seq<TypeName>)
    requires Members(ms) && ms != []
    ensures Parse(RenderMembers(ms)) == Some(MakeUnion(ms))
  {
    hide RenderMembers, MakeUnion, ParseUnion, ParseMore, AllCanonical;
    MembersCanonical(ms);
    MembersBack(ms, []);
    assert RenderMembers(ms) + [] == RenderMembers(ms);
  }

  ghost predicate TwoDistinct(ms: seq<TypeName>) {
    exists x, y :: x in ms && y in ms && x != y
  }

  lemma {:induction false} TwoMembers(ms: seq<TypeName>)
    requires Members(ms) && |ms| >= 2
    ensures TwoDistinct(ms) <==> |MakeUnion(ms).members| >= 2
  {
    hide Canonical, MakeUnion, Members, Less, RenderMember;
    Normal(ms);
    var us := MakeUnion(ms).members;
    if |us| >= 2 {
      assert us[0] in us && us[1] in us;
      IncreasingFar(us, 0, 1);
      NotBoth(RenderMember(us[0]), RenderMember(us[1]));
    }
  }

  /** A union of given members is canonical exactly when at least two of them differ. */
  lemma {:induction false} CanonicalWhenTwo(ms: seq<TypeName>)
    requires Members(ms) && |ms| >= 2
    ensures Canonical(MakeUnion(ms)) <==> TwoDistinct(ms)
  {
    hide MakeUnion, Increasing;
    Normal(ms);
    TwoMembers(ms);
    var us := MakeUnion(ms).members;
    assert ms[0] in us;
    assert Members(us);
    MembersCanonical(us);
  }

  /** Printing a union and parsing it back gives it back exactly when at least two members differ; a union whose members
      are all the same keeps a union around the one member, which its print does not show. */
  lemma {:induction false} UnionRoundTrip(ms: seq<TypeName>)
    requires Members(ms) && |ms| >= 2
    ensures Parse(Render(MakeUnion(ms))) == Some(MakeUnion(ms)) <==> TwoDistinct(ms)
  {
    hide Canonical, MakeUnion, Parse, Render, TwoDistinct, Members, RenderMembers;
    var u := MakeUnion(ms);
    CanonicalWhenTwo(ms);
    if TwoDistinct(ms) {
      RoundTrip(u);
    } else {
      LoneMember(ms);
    }
  }

  lemma {:induction false} LoneMember(ms: seq<TypeName>)
    requires Members(ms) && |ms| >= 2 && !TwoDistinct(ms)
    ensures Parse(Render(MakeUnion(ms))) == Some(ms[0]) && MakeUnion(ms) != ms[0]
  {
    hide Canonical, MakeUnion, Parse, TwoDistinct, RenderMembers;
    var u := MakeUnion(ms);
    Normal(ms);
    TwoMembers(ms);
    assert ms[0] in ms && ms[0] in u.members;
    assert u.members == [ms[0]];
    assert Render(u) == RenderMembers([ms[0]]);
    MembersParse([ms[0]]);
    MakeSingle(ms[0]);
    assert [ms[0]] + [] == [ms[0]];
  }
}

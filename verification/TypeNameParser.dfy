/** The parser as it runs (src/common/type_name.cpp): it advances a position in the text and, on a mistake, clears a flag
    and reads on. It accepts what the parsing functions accept, with the same result. */
module TypeNameParser {
  import opened Wrappers
  import opened TypeNames

  // ---------- leading blanks never matter ----------

  lemma {:induction false} SkipTwice(s: string)
    ensures Skip(Skip(s)) == Skip(s)
  {
  }

  lemma {:induction false} ConsumeSkip(s: string, c: char)
    ensures Consume(Skip(s), c) == Consume(s, c)
  {
    SkipTwice(s);
  }

  lemma {:induction false} PrimarySkip(s: string)
    ensures ParsePrimary(Skip(s)) == ParsePrimary(s)
  {
    hide ParseUnion, ParseSized;
    SkipTwice(s);
    ConsumeSkip(s, '(');
  }

  lemma {:induction false} UnionSkip(s: string)
    ensures ParseUnion(Skip(s)) == ParseUnion(s)
  {
    hide ParsePrimary, ParseMore, MakeUnion;
    PrimarySkip(s);
  }

  lemma {:induction false} MoreSkip(s: string)
    ensures ParseMore(Skip(s)) == ParseMore(s)
  {
    hide ParsePrimary;
    SkipTwice(s);
    ConsumeSkip(s, '|');
  }

  lemma {:induction false} ArgumentsSkip(name: string, size: Option<nat>, s: string)
    ensures ParseArguments(name, size, Skip(s)) == ParseArguments(name, size, s)
  {
    hide ParseList, ParseParams, ParseUnion;
    SkipTwice(s);
    ConsumeSkip(s, '<');
    ConsumeSkip(s, '(');
  }

  lemma {:induction false} ListSkip(s: string)
    ensures ParseList(Skip(s)) == ParseList(s)
  {
    hide ParseUnion;
    UnionSkip(s);
  }

  // ---------- lists read so far ----------

  /** Reading gave `done` so far; what it gives in all is `done` followed by what it gives from here. */
  ghost predicate Pending(total: Got<seq<TypeName>>, done: seq<TypeName>, now: Got<seq<TypeName>>) {
    total == if now.Fail? then Fail else Got(done + now.v, now.rest)
  }

  lemma {:induction false} PendingStep(total: Got<seq<TypeName>>, done: seq<TypeName>, now: Got<seq<TypeName>>, t: TypeName, next: Got<seq<TypeName>>)
    requires Pending(total, done, now) && now == if next.Fail? then Fail else Got([t] + next.v, next.rest)
    ensures Pending(total, done + [t], next)
  {
    if next.Got? { assert done + ([t] + next.v) == done + [t] + next.v; }
  }

  class Parser {
    const text: string
    var pos: nat
    var valid: bool

    ghost predicate Inside()
      reads this
    {
      pos <= |text|
    }

    ghost function Rest(): string
      reads this
      requires Inside()
    {
      text[pos..]
    }

    constructor (text: string)
      ensures this.text == text && pos == 0 && valid
    {
      this.text, pos, valid := text, 0, true;
    }

    method SkipBlanks()
      requires Inside()
      modifies this`pos
      ensures Inside() && Rest() == Skip(old(Rest())) && pos >= old(pos)
    {
      while pos < |text| && Blank(text[pos])
        invariant Inside() && pos >= old(pos) && Skip(Rest()) == Skip(old(Rest()))
      {
        assert text[pos..][0] == text[pos] && text[pos..][1..] == text[pos + 1..];
        pos := pos + 1;
      }
    }

    /** Take `c` if it is next, else only the blanks before. */
    method Take(c: char) returns (ok: bool)
      requires Inside()
      modifies this`pos
      ensures Inside() && pos >= old(pos)
      ensures var r := Consume(old(Rest()), c);
              if r.Some? then ok && Rest() == r.value && pos > old(pos) else !ok && Rest() == Skip(old(Rest()))
    {
      SkipBlanks();
      if pos >= |text| || text[pos] != c { return false; }
      assert text[pos..][1..] == text[pos + 1..];
      pos := pos + 1;
      return true;
    }

    method TakeName() returns (name: string)
      requires Inside()
      modifies this`pos
      ensures Inside() && pos == old(pos) + |name|
      ensures name == old(Rest())[..NameLen(old(Rest()))]
    {
      ghost var s := Rest();
      var start := pos;
      while pos < |text| && NameChar(text[pos])
        invariant start <= pos <= |text| && NameLen(s) == pos - start + NameLen(text[pos..])
      {
        assert text[pos..][0] == text[pos] && text[pos..][1..] == text[pos + 1..];
        pos := pos + 1;
      }
      name := text[start..pos];
    }

    method TakeDigits() returns (digits: string)
      requires Inside()
      modifies this`pos
      ensures Inside() && pos == old(pos) + |digits|
      ensures digits == old(Rest())[..DigitLen(old(Rest()))]
    {
      ghost var s := Rest();
      var start := pos;
      while pos < |text| && Digit(text[pos])
        invariant start <= pos <= |text| && DigitLen(s) == pos - start + DigitLen(text[pos..])
      {
        assert text[pos..][0] == text[pos] && text[pos..][1..] == text[pos + 1..];
        pos := pos + 1;
      }
      digits := text[start..pos];
    }

    /** The state after a part that should read as `r`: the flag is cleared on a mistake and never set again, and
        otherwise the value is the one of `r` and the same text remains, up to blanks. */
    ghost predicate Read<T>(r: Got<T>, was: bool, v: T)
      reads this
    {
      && Inside()
      && (!was ==> !valid)
      && (was ==> (valid <==> r.Got?))
      && (was && r.Got? ==> v == r.v && Skip(Rest()) == Skip(r.rest))
    }

    const NONE: TypeName := TypeName("<invalid>", [], [], None)

    method ReadUnion() returns (t: TypeName)
      requires Inside()
      modifies this`pos, this`valid
      ensures Read(ParseUnion(old(Rest())), old(valid), t) && pos >= old(pos)
      decreases |text| - pos, 3
    {
      hide ParsePrimary, ParseMore, MakeUnion, Skip;
      ghost var s := Rest();
      var first := ReadPrimary();
      ghost var mid := Rest();
      var more := ReadMore();
      t := MakeUnion([first] + more);
      ghost var one := ParsePrimary(s);
      if one.Got? { MoreSkip(one.rest); MoreSkip(mid); }
    }

    /** The members after the first, each after a bar. */
    method ReadMore() returns (ts: seq<TypeName>)
      requires Inside()
      modifies this`pos, this`valid
      ensures Read(ParseMore(old(Rest())), old(valid), ts) && pos >= old(pos)
      decreases |text| - pos, 1
    {
      hide ParsePrimary, ParseMore, Skip, Pending, Consume;
      ghost var was, total := valid, ParseMore(Rest());
      ts := [];
      PendingStart(total);
      while true
        invariant Inside() && pos >= old(pos) && (!was ==> !valid)
        invariant was ==> if valid then Pending(total, ts, ParseMore(Rest())) else total.Fail?
        decreases |text| - pos
      {
        ghost var cur := Rest();
        var bar := Take('|');
        if !bar {
          if was && valid { MoreEnd(total, ts, cur); SkipTwice(cur); }
          return;
        }
        ghost var here := valid;
        var next := ReadPrimary();
        if was && here { MoreStep(total, ts, cur, Rest()); }
        ts := ts + [next];
      }
    }

    method ReadPrimary() returns (t: TypeName)
      requires Inside()
      modifies this`pos, this`valid
      ensures Read(ParsePrimary(old(Rest())), old(valid), t) && pos >= old(pos)
      decreases |text| - pos, 2
    {
      hide ParseUnion, ParseSized, Skip, NameLen;
      ghost var s := Rest();
      var open := Take('(');
      if open {
        t := ReadUnion();
        ghost var mid := Rest();
        var close := Take(')');
        if !close { valid := false; }
        ghost var grouped := ParseUnion(Consume(s, '(').value);
        if grouped.Got? { ConsumeSkip(mid, ')'); ConsumeSkip(grouped.rest, ')'); }
      } else {
        ghost var here := Rest();
        var name := TakeName();
        assert Rest() == here[|name|..];
        if name == "" { valid := false; return NONE; }
        t := ReadSized(Alias(name));
      }
    }

    method ReadSized(name: string) returns (t: TypeName)
      requires Inside()
      modifies this`pos, this`valid
      ensures Read(ParseSized(name, old(Rest())), old(valid), t) && pos >= old(pos)
      decreases |text| - pos, 7
    {
      hide ParseArguments, Skip, DigitLen, Number;
      ghost var s := Rest();
      var open := false;
      if name == "array" { open := Take('['); }
      if !open {
        ghost var here := Rest();
        ArgumentsSkip(name, None, s);
        t := ReadArguments(name, None);
        return;
      }
      ghost var here := Rest();
      var digits := TakeDigits();
      assert Rest() == here[|digits|..];
      if digits == "" { valid := false; return NONE; }
      var close := Take(']');
      if !close { valid := false; return NONE; }
      if Number(digits) > MAX_SIZE { valid := false; return NONE; }
      t := ReadArguments(name, Some(Number(digits)));
    }

    method ReadArguments(name: string, size: Option<nat>) returns (t: TypeName)
      requires Inside()
      modifies this`pos, this`valid
      ensures Read(ParseArguments(name, size, old(Rest())), old(valid), t) && pos >= old(pos)
      decreases |text| - pos, 6
    {
      hide ParseList, ParseParams, ParseUnion, Skip, Consume;
      ghost var s := Rest();
      SkipTwice(s);
      ConsumeSkip(s, '(');
      var angle := Take('<');
      if angle {
        ghost var inner := Rest();
        var close := Take('>');
        if close { return TypeName(name, [], [], size); }
        ListSkip(inner);
        var args := ReadList();
        t := TypeName(name, args, [], size);
        return;
      }
      var paren := false;
      if name == "func" { paren := Take('('); }
      if !paren { return TypeName(name, [], [], size); }
      t := ReadSignature(name, size);
    }

    /** Parameters, a colon, and the result. */
    method ReadSignature(name: string, size: Option<nat>) returns (t: TypeName)
      requires Inside()
      modifies this`pos, this`valid
      ensures Read(Signature(name, size, old(Rest())), old(valid), t) && pos >= old(pos)
      decreases |text| - pos, 6
    {
      hide ParseParams, ParseUnion, Skip, Consume;
      ghost var s := Rest();
      var params := ReadParams();
      ghost var mid := Rest();
      var colon := Take(':');
      ghost var ps := ParseParams(s);
      if ps.Got? { ConsumeSkip(mid, ':'); ConsumeSkip(ps.rest, ':'); }
      if !colon { valid := false; return NONE; }
      var result := ReadUnion();
      t := TypeName(name, params + [result], [], size);
    }

    method ReadList() returns (ts: seq<TypeName>)
      requires Inside()
      modifies this`pos, this`valid
      ensures Read(ParseList(old(Rest())), old(valid), ts) && pos >= old(pos)
      decreases |text| - pos, 5
    {
      hide ParseUnion, ParseList, Skip, Pending, Consume;
      ghost var was, total := valid, ParseList(Rest());
      ts := [];
      PendingStart(total);
      while true
        invariant Inside() && pos >= old(pos) && (!was ==> !valid)
        invariant was ==> if valid then Pending(total, ts, ParseList(Rest())) else total.Fail?
        decreases |text| - pos
      {
        ghost var cur, here := Rest(), valid;
        var next := ReadUnion();
        ghost var mid := Rest();
        if was && here { ListStep(total, ts, cur, mid); }
        ts := ts + [next];
        var close := Take('>');
        if close { return; }
        ConsumeSkip(mid, ',');
        var comma := Take(',');
        if !comma { valid := false; return; }
      }
    }

    method ReadParams() returns (ts: seq<TypeName>)
      requires Inside()
      modifies this`pos, this`valid
      ensures Read(ParseParams(old(Rest())), old(valid), ts) && pos >= old(pos)
      decreases |text| - pos, 5
    {
      hide ParseUnion, ParseParams, Skip, Pending, Consume;
      ghost var was, total := valid, ParseParams(Rest());
      ts := [];
      PendingStart(total);
      while true
        invariant Inside() && pos >= old(pos) && (!was ==> !valid)
        invariant was ==> if valid then Pending(total, ts, ParseParams(Rest())) else total.Fail?
        decreases |text| - pos
      {
        ghost var cur, here := Rest(), valid;
        if was && here { ParamsEnd(total, ts, cur); }
        var done := Take(')');
        if done { return; }
        UnionSkip(cur);
        var next := ReadUnion();
        ghost var mid := Rest();
        if was && here { ParamsStep(total, ts, cur, mid); }
        ts := ts + [next];
        var close := Take(')');
        if close { return; }
        ConsumeSkip(mid, ',');
        var comma := Take(',');
        if !comma { valid := false; return; }
      }
    }

    /** `parse`: the whole text must have been read without a mistake. */
    method ReadAll() returns (t: Option<TypeName>)
      requires pos == 0 && valid
      modifies this`pos, this`valid
      ensures t == Parse(text)
    {
      hide ParseUnion, Skip;
      assert text[0..] == text;
      var u := ReadUnion();
      SkipBlanks();
      if valid && pos == |text| { return Some(u); }
      return None;
    }
  }

  lemma {:induction false} PendingStart(total: Got<seq<TypeName>>)
    ensures Pending(total, [], total)
  {
    if total.Got? { assert [] + total.v == total.v; }
  }

  lemma {:induction false} MoreEnd(total: Got<seq<TypeName>>, ts: seq<TypeName>, cur: string)
    requires Pending(total, ts, ParseMore(cur)) && Consume(cur, '|').None?
    ensures total == Got(ts, Skip(cur))
  {
    hide ParsePrimary;
    assert ts + [] == ts;
  }

  lemma {:induction false} MoreStep(total: Got<seq<TypeName>>, ts: seq<TypeName>, cur: string, rest: string)
    requires Pending(total, ts, ParseMore(cur)) && Consume(cur, '|').Some?
    ensures var np := ParsePrimary(Consume(cur, '|').value);
            && (np.Fail? ==> total.Fail?)
            && (np.Got? && Skip(rest) == Skip(np.rest) ==> Pending(total, ts + [np.v], ParseMore(rest)))
  {
    hide ParsePrimary, Skip, Consume;
    var np := ParsePrimary(Consume(cur, '|').value);
    if np.Got? && Skip(rest) == Skip(np.rest) {
      MoreSkip(rest);
      MoreSkip(np.rest);
      PendingStep(total, ts, ParseMore(cur), np.v, ParseMore(rest));
    }
  }

  lemma {:induction false} ListStep(total: Got<seq<TypeName>>, ts: seq<TypeName>, cur: string, rest: string)
    requires Pending(total, ts, ParseList(cur))
    ensures var u := ParseUnion(cur);
            && (u.Fail? ==> total.Fail?)
            && (u.Got? && Skip(rest) == Skip(u.rest) ==>
                  if Consume(rest, '>').Some? then total == Got(ts + [u.v], Consume(rest, '>').value)
                  else if Consume(rest, ',').None? then total.Fail?
                  else Pending(total, ts + [u.v], ParseList(Consume(rest, ',').value)))
  {
    hide ParseUnion, Skip, Consume;
    var u := ParseUnion(cur);
    if u.Got? && Skip(rest) == Skip(u.rest) {
      ConsumeSkip(rest, '>');
      ConsumeSkip(u.rest, '>');
      ConsumeSkip(rest, ',');
      ConsumeSkip(u.rest, ',');
      if Consume(rest, '>').None? && Consume(rest, ',').Some? {
        PendingStep(total, ts, ParseList(cur), u.v, ParseList(Consume(rest, ',').value));
      }
    }
  }

  lemma {:induction false} ParamsEnd(total: Got<seq<TypeName>>, ts: seq<TypeName>, cur: string)
    requires Pending(total, ts, ParseParams(cur))
    ensures Consume(cur, ')').Some? ==> total == Got(ts, Consume(cur, ')').value)
  {
    hide ParseUnion;
    assert ts + [] == ts;
  }

  lemma {:induction false} ParamsStep(total: Got<seq<TypeName>>, ts: seq<TypeName>, cur: string, rest: string)
    requires Pending(total, ts, ParseParams(cur)) && Consume(cur, ')').None?
    ensures var u := ParseUnion(cur);
            && (u.Fail? ==> total.Fail?)
            && (u.Got? && Skip(rest) == Skip(u.rest) ==>
                  if Consume(rest, ')').Some? then total == Got(ts + [u.v], Consume(rest, ')').value)
                  else if Consume(rest, ',').None? then total.Fail?
                  else Pending(total, ts + [u.v], ParseParams(Consume(rest, ',').value)))
  {
    hide ParseUnion, Skip, Consume;
    var u := ParseUnion(cur);
    if u.Got? && Skip(rest) == Skip(u.rest) {
      ConsumeSkip(rest, ')');
      ConsumeSkip(u.rest, ')');
      ConsumeSkip(rest, ',');
      ConsumeSkip(u.rest, ',');
      if Consume(rest, ')').None? && Consume(rest, ',').Some? {
        PendingStep(total, ts, ParseParams(cur), u.v, ParseParams(Consume(rest, ',').value));
      }
    }
  }
}

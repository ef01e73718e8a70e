/** The tree that an array of immediate dominators draws: ancestor chains and how they change when one
    block is moved. Pure facts about `immediateDominators_` of src/mir/analysis.cpp, independent of
    control flow. */
module MirDomTree {
  import opened MirGraph

  /** `num` is the position in reverse post-order, `idom` the blocks placed so far. */
  datatype DomTree = DomTree(entry: BlockId, num: map<BlockId, nat>, idom: map<BlockId, BlockId>) {

    /** The chain of a placed block goes on to an earlier placed block. */
    predicate Linked(b: BlockId) {
      && b in idom && b in num
      && idom[b] in idom && idom[b] in num
      && num[idom[b]] < num[b]
    }

    ghost predicate Valid() {
      && entry in idom && entry in num && idom[entry] == entry
      && idom.Keys <= num.Keys
      && (forall b {:trigger Linked(b)} :: b in idom && b != entry ==> Linked(b))
      && (forall b, c :: b in num && c in num && num[b] == num[c] ==> b == c)
    }

    /** `a` is on the chain `b, idom(b), idom(idom(b)), ..., entry`. */
    ghost predicate Anc(a: BlockId, b: BlockId)
      decreases if b in num then num[b] else 0
    {
      b in idom && (a == b || (b != entry && Linked(b) && Anc(a, idom[b])))
    }

    lemma {:induction false} AncUp(a: BlockId, b: BlockId)
      requires Valid() && Anc(a, b)
      ensures a in idom && a in num && b in num && num[a] <= num[b]
      ensures a != b ==> b != entry && num[a] < num[b] && Anc(a, idom[b])
      decreases if b in num then num[b] else 0
    {
      if a != b {
        AncUp(a, idom[b]);
      }
    }

    lemma {:induction false} EntryAnc(b: BlockId)
      requires Valid() && b in idom
      ensures Anc(entry, b)
      decreases num[b]
    {
      if b != entry {
        assert Linked(b);
        EntryAnc(idom[b]);
      }
    }

    lemma {:induction false} AncTrans(a: BlockId, b: BlockId, c: BlockId)
      requires Valid() && Anc(a, b) && Anc(b, c)
      ensures Anc(a, c)
      decreases if c in num then num[c] else 0
    {
      if b != c {
        AncTrans(a, b, idom[c]);
      }
    }

    lemma {:induction false} AncAntisymmetric(a: BlockId, b: BlockId)
      requires Valid() && Anc(a, b) && Anc(b, a)
      ensures a == b
    {
      AncUp(a, b);
      AncUp(b, a);
    }

    /** A chain is totally ordered by position. */
    lemma {:induction false} AncLinear(a: BlockId, c: BlockId, b: BlockId)
      requires Valid() && Anc(a, b) && Anc(c, b)
      requires a in num && c in num && num[a] <= num[c]
      ensures Anc(a, c)
      decreases if b in num then num[b] else 0
    {
      AncUp(a, b);
      AncUp(c, b);
      if c != b {
        AncLinear(a, c, idom[b]);
      }
    }

    function Moved(y: BlockId, c: BlockId): DomTree {
      this.(idom := idom[y := c])
    }

    /** What moving (or first placing) `y` below `c` needs. */
    ghost predicate CanMove(y: BlockId, c: BlockId) {
      Valid() && y != entry && y in num && c in idom && num[c] < num[y]
    }

    lemma {:induction false} MovedValid(y: BlockId, c: BlockId)
      requires CanMove(y, c)
      ensures Moved(y, c).Valid()
    {
      var t := Moved(y, c);
      forall b | b in t.idom && b != entry
        ensures t.Linked(b)
      {
        assert b != y ==> Linked(b);
      }
    }

    /** Chains that do not pass `y` do not change. */
    lemma {:induction false} MovedOutside(y: BlockId, c: BlockId, a: BlockId, x: BlockId)
      requires CanMove(y, c) && x in idom && !Anc(y, x)
      ensures Moved(y, c).Anc(a, x) <==> Anc(a, x)
      decreases num[x]
    {
      if x != entry {
        assert Linked(x) && x != y;
        assert !Anc(y, idom[x]);
        MovedOutside(y, c, a, idom[x]);
      }
    }

    lemma {:induction false} MovedTarget(y: BlockId, c: BlockId, a: BlockId)
      requires CanMove(y, c)
      ensures Moved(y, c).Anc(a, c) <==> Anc(a, c)
      ensures Moved(y, c).Anc(a, y) <==> a == y || Anc(a, c)
    {
      if Anc(y, c) { AncUp(y, c); }
      MovedOutside(y, c, a, c);
    }

    /** A chain through `y` keeps its part up to `y` and continues at `c`. */
    lemma {:induction false} MovedInside(y: BlockId, c: BlockId, a: BlockId, x: BlockId)
      requires CanMove(y, c) && Anc(y, x)
      ensures Moved(y, c).Anc(a, x) <==> (Anc(y, a) && Anc(a, x)) || Anc(a, c)
      decreases if x in num then num[x] else 0
    {
      AncUp(y, x);
      MovedTarget(y, c, a);
      if x == y {
        if Anc(y, a) && Anc(a, y) { AncAntisymmetric(a, y); }
      } else {
        assert Linked(x) && Moved(y, c).Linked(x);
        MovedInside(y, c, a, idom[x]);
        if a == x {
          assert Anc(y, a) && Anc(a, x);
        }
      }
    }
  }

  /** `c` is the lowest block on all the chains of `ps`: a block is above `c` exactly when it is on
      every one of them. */
  ghost predicate IsMeet(t: DomTree, ps: set<BlockId>, c: BlockId) {
    c in t.idom && forall z {:trigger t.Anc(z, c)} :: t.Anc(z, c) <==> AboveAll(t, ps, z)
  }

  ghost predicate AboveAll(t: DomTree, ps: set<BlockId>, z: BlockId) {
    forall p :: p in ps ==> t.Anc(z, p)
  }

  /** The two-finger walk of `computeDominators`. */
  method Intersect(t: DomTree, x: BlockId, y: BlockId) returns (r: BlockId)
    requires t.Valid() && x in t.idom && y in t.idom
    ensures IsMeet(t, {x, y}, r)
  {
    var a, b := x, y;
    while a != b
      invariant a in t.idom && b in t.idom
      invariant forall z {:trigger t.Anc(z, a)} {:trigger t.Anc(z, x)} :: t.Anc(z, a) && t.Anc(z, b) <==> t.Anc(z, x) && t.Anc(z, y)
      decreases t.num[a] + t.num[b], 1
    {
      ghost var a0, b0 := a, b;
      while t.num[a] > t.num[b]
        invariant a in t.idom && b == b0
        invariant forall z {:trigger t.Anc(z, a)} {:trigger t.Anc(z, x)} :: t.Anc(z, a) && t.Anc(z, b) <==> t.Anc(z, x) && t.Anc(z, y)
        invariant t.num[a] <= t.num[a0]
        decreases t.num[a]
      {
        StepUp(t, a, b);
        a := t.idom[a];
      }
      while t.num[b] > t.num[a]
        invariant b in t.idom
        invariant forall z {:trigger t.Anc(z, b)} {:trigger t.Anc(z, x)} :: t.Anc(z, a) && t.Anc(z, b) <==> t.Anc(z, x) && t.Anc(z, y)
        invariant t.num[b] <= t.num[b0] && (a == a0 && t.num[b] == t.num[b0] ==> a0 == b0 || t.num[b] > t.num[a])
        decreases t.num[b]
      {
        StepUp(t, b, a);
        b := t.idom[b];
      }
    }
    r := a;
  }

  /** Moving the lower finger up loses no common ancestor. */
  lemma {:induction false} StepUp(t: DomTree, a: BlockId, b: BlockId)
    requires t.Valid() && a in t.idom && b in t.idom && t.num[a] > t.num[b]
    ensures t.Linked(a)
    ensures forall z {:trigger t.Anc(z, a)} {:trigger t.Anc(z, t.idom[a])} :: t.Anc(z, a) && t.Anc(z, b) <==> t.Anc(z, t.idom[a]) && t.Anc(z, b)
  {
    t.EntryAnc(b);
    t.AncUp(t.entry, b);
    assert t.Linked(a);
    forall z | t.Anc(z, b)
      ensures t.Anc(z, a) <==> t.Anc(z, t.idom[a])
    {
      t.AncUp(z, b);
      if t.Anc(z, a) { t.AncUp(z, a); }
    }
  }
}

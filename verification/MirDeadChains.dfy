/** How far the rounds of the deletion pass get (src/mir/opt_dead.cpp): a chain of results, each read only by the next, loses one
    instruction a round. The bound on rounds is therefore a stopping condition for long chains, not only a guard. */
module MirDeadChains {
  import opened Wrappers
  import opened MirEffects
  import opened MirExecution
  import opened MirDeletion
  import opened MirDeadRounds
  import opened MirDeadValues

  /** `ti = not t(i-1)`. */
  function Link(i: nat): Instr {
    Instr(Some(i), Not, [if i == 0 then Const(Bool(true)) else Use(Temp(i - 1), BoolType)])
  }

  function Links(n: nat): (r: seq<Instr>)
    ensures |r| == n && forall i :: 0 <= i < n ==> r[i] == Link(i)
  {
    seq(n, i requires 0 <= i < n => Link(i))
  }

  /** A function that computes a chain of `n` results and uses none. */
  function Chain(n: nat): Program {
    [Block([], Links(n), Return(None), [])]
  }

  // ---------- the chain passes the static checks ----------

  const ALL_BOOL: Typing := Typing(_ => BoolType, _ => Unknown)

  const NOTHING: Have := Have({}, {})

  function Below(i: nat): Have {
    Have((set k | 0 <= k < i :: Temp(k)), {})
  }

  lemma {:induction false} LinksReady(n: nat, i: nat)
    requires i <= n
    ensures InstrsReady(Chain(n), [NOTHING], [], Links(n)[i..], Below(i))
    decreases n - i
  {
    hide Chain;
    if i < n {
      var rest := Links(n)[i..];
      LinksReady(n, i + 1);
      assert rest[0] == Link(i) && rest[1..] == Links(n)[i + 1..];
      assert AddResult(Below(i), Link(i)) == Below(i + 1);
    }
  }

  lemma {:induction false} ChainChecked(n: nat)
    ensures Checked(ALL_BOOL, Chain(n), [NOTHING])
  {
    hide InstrsReady, Links, After;
    LinksReady(n, 0);
    assert Links(n)[0..] == Links(n) && Below(0) == NOTHING;
    forall i | 0 <= i < n ensures InstrTyped(ALL_BOOL, Links(n)[i]) {}
  }

  // ---------- what a round takes ----------

  lemma {:induction false} LinkReads(i: nat, t: nat)
    ensures ReadIn(Link(i).operands, t) <==> i == t + 1
  {
    if i == t + 1 { assert ReadsTemp(Link(i).operands[0], t); }
  }

  lemma {:induction false} ChainReads(n: nat, t: nat)
    ensures Read(Chain(n), t) <==> t + 1 < n
  {
    hide ReadIn, Link;
    var b := Chain(n)[0];
    ReadInstrs(Links(n), t);
    assert BlockOperands(b) == InstrOperands(Links(n));
    forall i: nat | i < n ensures ReadIn(Links(n)[i].operands, t) <==> i == t + 1 { LinkReads(i, t); }
    if t + 1 < n { assert ReadIn(Links(n)[t + 1].operands, t); }
    assert Read(Chain(n), t) <==> ReadIn(BlockOperands(b), t);
  }

  lemma {:induction false} KeepAppend(a: seq<Instr>, b: seq<Instr>, dead: Scrap)
    ensures Keep(a + b, dead) == Keep(a, dead) + Keep(b, dead)
  {
    hide Dropped;
    if a == [] {
      assert [] + b == b && Keep(a, dead) == [];
    } else {
      assert (a + b)[0] == a[0] && (a + b)[1..] == a[1..] + b;
      KeepAppend(a[1..], b, dead);
    }
  }

  lemma {:induction false} LinkRemovable(i: nat)
    ensures Removable(Link(i))
  {
    assert Classify(Link(i)) == {Pure};
  }

  /** Of a chain only the last result is unread, so a round deletes only that. */
  lemma {:induction false} RoundTakesOne(n: nat, captures: set<string>, slots: map<string, Slot>)
    ensures AfterRound(Chain(n + 1), captures, slots) == Chain(n)
  {
    hide Read, Removable, Keep, StoreRemovable;
    var p := Chain(n + 1);
    var dead := Scrap({n}, {});
    assert Unread(p) == {n} by {
      forall t: nat ensures Read(p, t) <==> t < n { ChainReads(n + 1, t); }
      assert p[0].instrs[n].result.value == n;
    }
    assert Links(n + 1) == Links(n) + [Link(n)];
    KeepAppend(Links(n), [Link(n)], dead);
    KeepShorter(Links(n), dead);
    LastDropped(n);
    var q := Drop(p, dead);
    assert DropBlock(p[0], dead) == Chain(n)[0];
    assert q == Chain(n);
    var none := Scrap({}, {});
    assert UnreadSlots(q, captures, slots) == {};
    KeepShorter(Links(n), none);
    assert DropBlock(q[0], none) == q[0];
    assert Drop(q, none) == q;
  }

  lemma {:induction false} LastDropped(n: nat)
    ensures Keep([Link(n)], Scrap({n}, {})) == []
  {
    LinkRemovable(n);
    assert Dropped(Scrap({n}, {}), Link(n));
  }

  lemma {:induction false} RoundsTake(n: nat, k: nat, captures: set<string>, slots: map<string, Slot>)
    ensures AfterRounds(Chain(n + k), captures, slots, k) == Chain(n)
    decreases k
  {
    hide AfterRound, Chain;
    if k > 0 {
      RoundsTake(n + 1, k - 1, captures, slots);
      RoundTakesOne(n, captures, slots);
    }
  }

  lemma {:induction false} ChainNotClean(n: nat, captures: set<string>, slots: map<string, Slot>)
    requires n > 0
    ensures !Clean(Chain(n), captures, slots)
  {
    hide Removable, Read, SlotIsRead, StoreRemovable;
    ChainReads(n, n - 1);
    LinkRemovable(n - 1);
    assert Chain(n)[0].instrs[n - 1] == Link(n - 1);
  }

  lemma {:induction false} EmptyChainClean(captures: set<string>, slots: map<string, Slot>)
    ensures Clean(Chain(0), captures, slots)
  {
  }

  /** Chains pass every check. The pass cleans exactly those that are no longer than the number of rounds; of the others it
      leaves instructions that it could delete. */
  lemma {:induction false} BoundStopsThePass(n: nat, captures: set<string>, slots: map<string, Slot>)
    ensures Checked(ALL_BOOL, Chain(n), [NOTHING])
    ensures Clean(AfterRounds(Chain(n), captures, slots, ROUNDS), captures, slots) <==> n <= ROUNDS
    ensures HasChain(Job(Chain(n), captures, slots), ROUNDS + 1) <==> n > ROUNDS
  {
    hide Checked, Chain, Clean, AfterRounds, HasChain, StoresPlain;
    var job := Job(Chain(n), captures, slots);
    ChainChecked(n);
    StoresArePlain(ALL_BOOL, Chain(n), [NOTHING]);
    CleanWithoutLongChain(job, ROUNDS);
    if n > ROUNDS {
      RoundsTake(n - ROUNDS, ROUNDS, captures, slots);
      ChainNotClean(n - ROUNDS, captures, slots);
    } else {
      RoundsTake(0, n, captures, slots);
      EmptyChainClean(captures, slots);
      StaysClean(job, n, ROUNDS);
    }
  }
}

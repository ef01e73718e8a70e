/** Control flow of the legacy IR (src/compiler/ir_optimizer.cpp): blocks with successor lists, and runs that record
    the instructions doing work. What a conditional block chooses may depend on everything executed so far. */
module LegacyCfg {
  import opened Wrappers
  import opened Sequences

  type BlockId = nat

  datatype Instr = Jump | Branch(condition: nat) | Work(opcode: string, result: nat, operands: seq<nat>)

  datatype Block = Block(id: BlockId, instrs: seq<Instr>, succs: seq<BlockId>)

  /** The first block is the entry. */
  type Cfg = seq<Block>

  // ---------- looking blocks up ----------

  function Lookup(f: Cfg, id: BlockId): (r: Option<Block>)
    ensures r.Some? ==> r.value in f && r.value.id == id
  {
    if f == [] then None else if f[0].id == id then Some(f[0]) else Lookup(f[1..], id)
  }

  ghost predicate DistinctIds(f: Cfg) {
    forall i, j :: 0 <= i < j < |f| ==> f[i].id != f[j].id
  }

  lemma {:induction false} LookupAt(f: Cfg, i: nat)
    requires DistinctIds(f) && i < |f|
    ensures Lookup(f, f[i].id) == Some(f[i])
  {
    if i > 0 {
      assert f[0].id != f[i].id;
      assert f[1..][i - 1] == f[i];
      LookupAt(f[1..], i - 1);
    }
  }

  lemma {:induction false} LookupMissing(f: Cfg, id: BlockId)
    requires forall i :: 0 <= i < |f| ==> f[i].id != id
    ensures Lookup(f, id) == None
  {
    if f != [] {
      assert f[0].id != id;
      LookupMissing(f[1..], id);
    }
  }

  lemma {:induction false} LookupIndex(f: Cfg, id: BlockId) returns (i: nat)
    requires Lookup(f, id).Some?
    ensures i < |f| && f[i] == Lookup(f, id).value && f[i].id == id
  {
    if f[0].id == id { i := 0; } else { var j := LookupIndex(f[1..], id); i := j + 1; }
  }

  // ---------- runs ----------

  /** The instructions of a block that do work; jumps and branches only direct control. */
  function Done(instrs: seq<Instr>): seq<Instr> {
    if instrs == [] then [] else (if instrs[0].Work? then [instrs[0]] else []) + Done(instrs[1..])
  }

  lemma {:induction false} DoneConcat(a: seq<Instr>, b: seq<Instr>)
    ensures Done(a + b) == Done(a) + Done(b)
  {
    if a == [] {
      assert a + b == b;
    } else {
      var head := if a[0].Work? then [a[0]] else [];
      assert (a + b)[1..] == a[1..] + b && (a + b)[0] == a[0];
      DoneConcat(a[1..], b);
      Associative(head, Done(a[1..]), Done(b));
    }
  }

  function Last(instrs: seq<Instr>): Instr {
    if instrs == [] then Jump else instrs[|instrs| - 1]
  }

  /** Which successor a block takes, from the work done so far, its last instruction and the number of successors. */
  type Choose = (seq<Instr>, Instr, nat) -> nat

  datatype Config = At(block: BlockId, done: seq<Instr>) | Stopped(done: seq<Instr>) | Lost(done: seq<Instr>)

  function Leave(b: Block, choose: Choose, done: seq<Instr>): Config {
    if b.succs == [] then Stopped(done)
    else At(b.succs[choose(done, Last(b.instrs), |b.succs|) % |b.succs|], done)
  }

  function Step(f: Cfg, choose: Choose, c: Config): Config {
    match c
    case At(id, done) =>
      var b := Lookup(f, id);
      if b.None? then Lost(done) else Leave(b.value, choose, done + Done(b.value.instrs))
    case Stopped(_) => c
    case Lost(_) => c
  }

  function Run(f: Cfg, choose: Choose, c: Config, n: nat): Config
    decreases n
  {
    if n == 0 then c else Run(f, choose, Step(f, choose, c), n - 1)
  }

  lemma {:induction false} RunAdd(f: Cfg, choose: Choose, c: Config, m: nat, n: nat)
    ensures Run(f, choose, c, m + n) == Run(f, choose, Run(f, choose, c, m), n)
    decreases m
  {
    if m > 0 { RunAdd(f, choose, Step(f, choose, c), m - 1, n); }
  }

  lemma {:induction false} HaltedStays(f: Cfg, choose: Choose, c: Config, n: nat)
    requires !c.At?
    ensures Run(f, choose, c, n) == c
  {
    if n > 0 { HaltedStays(f, choose, c, n - 1); }
  }

  lemma {:induction false} WorkGrows(f: Cfg, choose: Choose, c: Config, n: nat)
    ensures c.done <= Run(f, choose, c, n).done
    decreases n
  {
    if n > 0 {
      assert c.done <= Step(f, choose, c).done;
      WorkGrows(f, choose, Step(f, choose, c), n - 1);
    }
  }

  function Start(f: Cfg): Config
    requires f != []
  {
    At(f[0].id, [])
  }

  // ---------- one program refining another ----------

  /** After `n` steps `g` is where `f` is after some number of steps that is at least `n`. */
  ghost predicate Matched(f: Cfg, g: Cfg, choose: Choose, n: nat)
    requires f != [] && g != []
  {
    exists m: nat :: m >= n && Run(f, choose, Start(f), m) == Run(g, choose, Start(g), n)
  }

  /** `g` is a shorter way to run `f`. */
  ghost predicate Refines(f: Cfg, g: Cfg) {
    f != [] && g != [] && forall choose: Choose, n: nat :: Matched(f, g, choose, n)
  }

  lemma {:induction false} RefinesSelf(f: Cfg)
    requires f != []
    ensures Refines(f, f)
  {
    forall choose: Choose, n: nat ensures Matched(f, f, choose, n) {
      assert n >= n && Run(f, choose, Start(f), n) == Run(f, choose, Start(f), n);
    }
  }

  lemma {:induction false} RefinesTrans(f: Cfg, g: Cfg, h: Cfg)
    requires Refines(f, g) && Refines(g, h)
    ensures Refines(f, h)
  {
    forall choose: Choose, n: nat ensures Matched(f, h, choose, n) {
      assert Matched(g, h, choose, n);
      var m: nat :| m >= n && Run(g, choose, Start(g), m) == Run(h, choose, Start(h), n);
      assert Matched(f, g, choose, m);
      var k: nat :| k >= m && Run(f, choose, Start(f), k) == Run(g, choose, Start(g), m);
    }
  }

  /** The behaviour of a program: what it has done when it stops (or runs into a missing block), and every sequence
      of work it gets to have done. */
  ghost predicate Ends(f: Cfg, choose: Choose, c: Config)
    requires f != []
  {
    !c.At? && exists n: nat :: Run(f, choose, Start(f), n) == c
  }

  ghost predicate Performs(f: Cfg, choose: Choose, work: seq<Instr>)
    requires f != []
  {
    exists n: nat {:trigger Run(f, choose, Start(f), n)} :: work <= Run(f, choose, Start(f), n).done
  }

  lemma {:induction false} RefinedEnd(f: Cfg, g: Cfg, choose: Choose, c: Config)
    requires Refines(f, g)
    ensures Ends(f, choose, c) <==> Ends(g, choose, c)
  {
    hide Run;
    if Ends(g, choose, c) {
      var n: nat :| Run(g, choose, Start(g), n) == c;
      assert Matched(f, g, choose, n);
    }
    if Ends(f, choose, c) {
      var n: nat :| Run(f, choose, Start(f), n) == c;
      assert Matched(f, g, choose, n);
      var m: nat :| m >= n && Run(f, choose, Start(f), m) == Run(g, choose, Start(g), n);
      RunAdd(f, choose, Start(f), n, m - n);
      HaltedStays(f, choose, c, m - n);
    }
  }

  lemma {:induction false} RefinedWork(f: Cfg, g: Cfg, choose: Choose, work: seq<Instr>)
    requires Refines(f, g)
    ensures Performs(f, choose, work) <==> Performs(g, choose, work)
  {
    if Performs(g, choose, work) {
      var n: nat :| work <= Run(g, choose, Start(g), n).done;
      assert Matched(f, g, choose, n);
    }
    if Performs(f, choose, work) {
      var n: nat :| work <= Run(f, choose, Start(f), n).done;
      assert Matched(f, g, choose, n);
      var m: nat :| m >= n && Run(f, choose, Start(f), m) == Run(g, choose, Start(g), n);
      RunAdd(f, choose, Start(f), n, m - n);
      WorkGrows(f, choose, Run(f, choose, Start(f), n), m - n);
    }
  }

  /** Refinement preserves behaviour both ways: the same work in the same order, the same final state when there is
      one, and hence no end exactly when there was none. */
  lemma {:induction false} SameBehaviour(f: Cfg, g: Cfg, choose: Choose)
    requires Refines(f, g)
    ensures forall c :: Ends(f, choose, c) <==> Ends(g, choose, c)
    ensures forall work :: Performs(f, choose, work) <==> Performs(g, choose, work)
  {
    forall c ensures Ends(f, choose, c) <==> Ends(g, choose, c) { RefinedEnd(f, g, choose, c); }
    forall work ensures Performs(f, choose, work) <==> Performs(g, choose, work) { RefinedWork(f, g, choose, work); }
  }

  // ---------- proving refinement one step at a time ----------

  /** The blocks a rewritten program can get to. */
  datatype Region = Anywhere | Except(b: BlockId) | Among(ids: set<BlockId>)

  predicate Inside(r: Region, id: BlockId) {
    match r
    case Anywhere => true
    case Except(b) => id != b
    case Among(ids) => id in ids
  }

  /** One step of `g` from `id` is one or more steps of `f`, and stays inside `within`. */
  ghost predicate StepMatched(f: Cfg, g: Cfg, within: Region, choose: Choose, id: BlockId, done: seq<Instr>) {
    var next := Step(g, choose, At(id, done));
    && (next.At? ==> Inside(within, next.block))
    && exists k: nat :: k >= 1 && Run(f, choose, At(id, done), k) == next
  }

  lemma {:induction false} RefinesBySteps(f: Cfg, g: Cfg, within: Region)
    requires f != [] && g != [] && f[0].id == g[0].id && Inside(within, g[0].id)
    requires forall choose: Choose, id, done :: Inside(within, id) ==> StepMatched(f, g, within, choose, id, done)
    ensures Refines(f, g)
  {
    forall choose: Choose, n: nat ensures Matched(f, g, choose, n) {
      MatchFrom(f, g, within, choose, n);
    }
  }

  lemma {:induction false} MatchFrom(f: Cfg, g: Cfg, within: Region, choose: Choose, n: nat)
    requires f != [] && g != [] && f[0].id == g[0].id && Inside(within, g[0].id)
    requires forall choose: Choose, id, done :: Inside(within, id) ==> StepMatched(f, g, within, choose, id, done)
    ensures Matched(f, g, choose, n)
    ensures var c := Run(g, choose, Start(g), n); c.At? ==> Inside(within, c.block)
  {
    if n == 0 {
      assert Run(f, choose, Start(f), 0) == Run(g, choose, Start(g), 0);
    } else {
      hide Run, Step;
      MatchFrom(f, g, within, choose, n - 1);
      var m: nat :| m >= n - 1 && Run(f, choose, Start(f), m) == Run(g, choose, Start(g), n - 1);
      var c := Run(g, choose, Start(g), n - 1);
      RunAdd(g, choose, Start(g), n - 1, 1);
      OneStep(g, choose, c);
      if c.At? {
        assert StepMatched(f, g, within, choose, c.block, c.done);
        var k: nat :| k >= 1 && Run(f, choose, c, k) == Step(g, choose, c);
        RunAdd(f, choose, Start(f), m, k);
        assert m + k >= n && Run(f, choose, Start(f), m + k) == Run(g, choose, Start(g), n);
      } else {
        RunAdd(f, choose, Start(f), m, 1);
        OneStep(f, choose, c);
        assert m + 1 >= n && Run(f, choose, Start(f), m + 1) == Run(g, choose, Start(g), n);
      }
    }
  }

  lemma {:induction false} OneStep(f: Cfg, choose: Choose, c: Config)
    ensures Run(f, choose, c, 1) == Step(f, choose, c)
  {
    assert Run(f, choose, Step(f, choose, c), 0) == Step(f, choose, c);
  }

  lemma {:induction false} SameStep(f: Cfg, g: Cfg, within: Region, choose: Choose, id: BlockId, done: seq<Instr>)
    requires Step(f, choose, At(id, done)) == Step(g, choose, At(id, done))
    requires var next := Step(g, choose, At(id, done)); next.At? ==> Inside(within, next.block)
    ensures StepMatched(f, g, within, choose, id, done)
  {
    OneStep(f, choose, At(id, done));
  }
}

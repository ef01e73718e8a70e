/** Backpatching: holes, the code that is emitted while they are open, and what overwriting them does. */
module Backpatch {
  import opened BytecodeVm
  import opened Sequences
  import opened SourceLanguage
  import opened CodeShape
  import opened StmtSimulation

  /** The code of a shape while its holes are open: every hole is a jump to 0. */
  function Emitted(xs: seq<Sym>): (r: seq<Instr>)
    ensures |r| == |xs|
  {
    seq(|xs|, i requires 0 <= i < |xs| => Resolved(xs[i], Targets(0, 0, 0)))
  }

  lemma {:induction false} EmittedConcat(a: seq<Sym>, b: seq<Sym>)
    ensures Emitted(a + b) == Emitted(a) + Emitted(b)
  {
  }

  lemma {:induction false} EmittedOps(f: seq<Instr>)
    ensures Emitted(Ops(f)) == f
  {
  }

  /** Addresses of the holes labelled `l`, in order of emission. */
  function Holes(xs: seq<Sym>, l: Label, base: nat): seq<nat> {
    if xs == [] then [] else (if xs[0] == Hole(l) then [base] else []) + Holes(xs[1..], l, base + 1)
  }

  lemma {:induction false} HolesMember(xs: seq<Sym>, l: Label, base: nat, a: nat)
    ensures a in Holes(xs, l, base) <==> base <= a < base + |xs| && xs[a - base] == Hole(l)
  {
    if xs != [] {
      HolesMember(xs[1..], l, base + 1, a);
      if base < a < base + |xs| { assert xs[a - base] == xs[1..][a - base - 1]; }
    }
  }

  lemma {:induction false} HolesConcat(a: seq<Sym>, b: seq<Sym>, l: Label, base: nat)
    ensures Holes(a + b, l, base) == Holes(a, l, base) + Holes(b, l, base + |a|)
  {
    if a == [] {
      assert a + b == b;
    } else {
      var head := if a[0] == Hole(l) then [base] else [];
      assert (a + b)[1..] == a[1..] + b && (a + b)[0] == a[0];
      HolesConcat(a[1..], b, l, base + 1);
      Associative(head, Holes(a[1..], l, base + 1), Holes(b, l, base + |a|));
    }
  }

  ghost predicate NoHole(xs: seq<Sym>, l: Label) {
    forall i :: 0 <= i < |xs| ==> xs[i] != Hole(l)
  }

  lemma {:induction false} NoHoles(xs: seq<Sym>, l: Label, base: nat)
    requires NoHole(xs, l)
    ensures Holes(xs, l, base) == []
  {
    if xs != [] {
      assert xs[0] != Hole(l);
      NoHoles(xs[1..], l, base + 1);
    }
  }

  lemma {:induction false} HolesOps(f: seq<Instr>, l: Label, base: nat)
    ensures NoHole(Ops(f), l) && Holes(Ops(f), l, base) == []
  {
    NoHoles(Ops(f), l, base);
  }

  lemma {:induction false} NoHoleConcat(a: seq<Sym>, b: seq<Sym>, l: Label)
    requires NoHole(a, l) && NoHole(b, l)
    ensures NoHole(a + b, l)
  {
  }

  /** Filling one label closes its holes and leaves the others where they were. */
  lemma {:induction false} HolesFill(xs: seq<Sym>, l: Label, target: nat, k: Label, base: nat)
    ensures Holes(Fill(xs, l, target), k, base) == if k == l then [] else Holes(xs, k, base)
  {
    if xs != [] {
      HolesFill(xs[1..], l, target, k, base + 1);
      assert Fill(xs, l, target)[1..] == Fill(xs[1..], l, target);
    }
  }

  /** Every hole is one of the jumps emitted for it. */
  lemma {:induction false} HolesAreJumps(pre: seq<Instr>, xs: seq<Sym>, suf: seq<Instr>, l: Label)
    ensures forall a :: a in Holes(xs, l, |pre|) ==> a < |pre + Emitted(xs) + suf| && (pre + Emitted(xs) + suf)[a] == Jump(0)
  {
    var code := pre + Emitted(xs) + suf;
    forall a | a in Holes(xs, l, |pre|) ensures a < |code| && code[a] == Jump(0) {
      HolesMember(xs, l, |pre|, a);
      assert code[a] == Emitted(xs)[a - |pre|];
    }
  }

  /** `code` with every address of `holes` made a jump to `target`. */
  ghost predicate PatchedTo(before: seq<Instr>, holes: seq<nat>, target: nat, after: seq<Instr>) {
    && |after| == |before|
    && forall i :: 0 <= i < |after| ==> after[i] == if i in holes then Jump(target) else before[i]
  }

  /** Overwriting the holes of a shape, wherever it stands, gives the code of the filled shape and changes nothing else. */
  lemma {:induction false} PatchFills(pre: seq<Instr>, xs: seq<Sym>, suf: seq<Instr>, l: Label, target: nat, after: seq<Instr>)
    requires PatchedTo(pre + Emitted(xs) + suf, Holes(xs, l, |pre|), target, after)
    ensures after == pre + Emitted(Fill(xs, l, target)) + suf
  {
    var before := pre + Emitted(xs) + suf;
    var want := pre + Emitted(Fill(xs, l, target)) + suf;
    forall i | 0 <= i < |after| ensures after[i] == want[i] {
      HolesMember(xs, l, |pre|, i);
      if |pre| <= i < |pre| + |xs| {
        assert before[i] == Emitted(xs)[i - |pre|];
        assert want[i] == Emitted(Fill(xs, l, target))[i - |pre|];
      }
    }
  }

  // ---------- statements leave no jump to the end of an `if` open ----------

  lemma {:induction false} LoopBodyHasNone(xs: seq<Sym>, exit: nat, again: nat, k: Label)
    requires k == Join ==> NoHole(xs, Join)
    ensures NoHole(LoopBody(xs, exit, again), k)
  {
    hide NoHole, Fill;
    FillHasNoneIf(xs, Exit, exit, k);
    FillHasNoneIf(Fill(xs, Exit, exit), Again, again, k);
  }

  lemma {:induction false} FillHasNoneIf(xs: seq<Sym>, l: Label, target: nat, k: Label)
    ensures k == l || NoHole(xs, k) ==> NoHole(Fill(xs, l, target), k)
  {
  }

  lemma {:induction false} ShapeHasNoJoin(s: Stmt, base: nat, id: nat)
    ensures NoHole(Shape(s, base, id), Join)
    decreases s
  {
    hide NoHole, Fill, LoopBody, Ops, ExprCode, ExprLen, StmtLen;
    match s
    case VarDecl(x, init) =>
      HolesOps(OrNilCode(init, base), Join, 0);
      NoHoleOne(Op(DefineVar(User(x))));
      NoHoleConcat(Ops(OrNilCode(init, base)), [Op(DefineVar(User(x)))], Join);
    case ExprStmt(e) =>
      HolesOps(ExprCode(e, base), Join, 0);
      NoHoleOne(Op(Discard));
      NoHoleConcat(Ops(ExprCode(e, base)), [Op(Discard)], Join);
    case LogStmt(e) =>
      HolesOps(ExprCode(e, base), Join, 0);
      NoHoleOne(Op(Log));
      NoHoleConcat(Ops(ExprCode(e, base)), [Op(Log)], Join);
    case ReturnStmt(e) =>
      HolesOps(OrNilCode(e, base), Join, 0);
      NoHoleOne(Op(Return));
      NoHoleConcat(Ops(OrNilCode(e, base)), [Op(Return)], Join);
    case Break => NoHoleOne(Hole(Exit));
    case Continue => NoHoleOne(Hole(Again));
    case Block(ss) => BlockHasNoJoin(ss, base, id);
    case If(arms) => FillHasNoneIf(ArmsShape(arms, base, id), Join, base + ArmsLen(arms), Join);
    case While(c, b) =>
      ShapeHasNoJoin(b, base + ExprLen(c) + 1, id);
      LoopHoles(s, base, id, Join);
    case Repeat(b, c) =>
      ShapeHasNoJoin(b, base, id);
      LoopHoles(s, base, id, Join);
    case For(x, start, end, step, b) =>
      ShapeHasNoJoin(b, base + ExprLen(start) + 1 + ExprLen(end) + 1 + ExprLen(step) + 1 + 5, id + 1);
      LoopHoles(s, base, id, Join);
  }

  lemma {:induction false} NoHoleOne(x: Sym)
    ensures forall l :: x != Hole(l) ==> NoHole([x], l)
  {
  }

  predicate IsLoop(s: Stmt) { s.While? || s.Repeat? || s.For? }

  /** Shape and first address of a loop's body. */
  function BodyShape(s: Stmt, base: nat, id: nat): seq<Sym>
    requires IsLoop(s)
  {
    match s
    case While(c, b) => Shape(b, base + ExprLen(c) + 1, id)
    case Repeat(b, c) => Shape(b, base, id)
    case For(_, start, end, step, b) => Shape(b, base + ExprLen(start) + 1 + ExprLen(end) + 1 + ExprLen(step) + 1 + 5, id + 1)
  }

  /** A whole loop has no open break or continue, whatever its body holds. */
  lemma {:induction false} LoopHoles(s: Stmt, base: nat, id: nat, l: Label)
    requires IsLoop(s) && (l == Join ==> NoHole(BodyShape(s, base, id), Join))
    ensures NoHole(Shape(s, base, id), l)
  {
    hide NoHole, Fill, LoopBody, Ops, ExprCode, ExprLen, ForSetup, ForTest, ForAdvance;
    match s
    case While(c, b) =>
      var body := base + ExprLen(c) + 1;
      var exit := body + StmtLen(b) + 1;
      var inner := LoopBody(Shape(b, body, id), exit, base);
      HolesOps(ExprCode(c, base), l, 0);
      LoopBodyHasNone(Shape(b, body, id), exit, base, l);
      NoHoleOne(Op(JumpIfFalse(exit)));
      NoHoleOne(Op(Jump(base)));
      NoHoleConcat(inner, [Op(Jump(base))], l);
      NoHoleConcat([Op(JumpIfFalse(exit))], inner + [Op(Jump(base))], l);
      NoHoleConcat(Ops(ExprCode(c, base)), [Op(JumpIfFalse(exit))] + (inner + [Op(Jump(base))]), l);
    case Repeat(b, c) =>
      var check := base + StmtLen(b);
      var exit := check + ExprLen(c) + 2;
      var tail := [Op(Unary(Not)), Op(JumpIfFalse(base))];
      HolesOps(ExprCode(c, check), l, 0);
      LoopBodyHasNone(Shape(b, base, id), exit, check, l);
      NoHoleTwo(Op(Unary(Not)), Op(JumpIfFalse(base)), l);
      NoHoleConcat(Ops(ExprCode(c, check)), tail, l);
      NoHoleConcat(LoopBody(Shape(b, base, id), exit, check), Ops(ExprCode(c, check)) + tail, l);
    case For(x, start, end, step, b) =>
      var top := base + ExprLen(start) + 1 + ExprLen(end) + 1 + ExprLen(step) + 1;
      ForHoles(x, start, end, step, base, Shape(b, top + 5, id + 1), top, id, l);
      NoHoleConcat(ForSetup(x, start, end, step, base, id), ForLoop(x, Shape(b, top + 5, id + 1), top, id), l);
  }

  lemma {:induction false} NoHoleTwo(x: Sym, y: Sym, l: Label)
    requires x.Op? && y.Op?
    ensures NoHole([x, y], l)
  {
  }

  lemma {:induction false} ForHoles(x: string, start: Expr, end: Expr, step: Expr, base: nat, body: seq<Sym>, top: nat, id: nat, l: Label)
    requires l == Join ==> NoHole(body, Join)
    ensures NoHole(ForSetup(x, start, end, step, base, id), l)
    ensures NoHole(ForLoop(x, body, top, id), l)
  {
    hide LoopBody, ExprCode, ExprLen;
    var advance := top + 5 + |body|;
    LoopBodyHasNone(body, advance + 5, advance, l);
  }

  lemma {:induction false} BlockHasNoJoin(ss: seq<Stmt>, base: nat, id: nat)
    ensures NoHole(BlockShape(ss, base, id), Join)
    decreases ss
  {
    hide Shape, StmtLen, Fors;
    if ss != [] {
      ShapeHasNoJoin(ss[0], base, id);
      BlockHasNoJoin(ss[1..], base + StmtLen(ss[0]), id + Fors(ss[0]));
      NoHoleConcat(Shape(ss[0], base, id), BlockShape(ss[1..], base + StmtLen(ss[0]), id + Fors(ss[0])), Join);
    }
  }
}

/** The code generator of src/compiler/compiler.cpp: it appends to a growing code array, leaves jumps open and patches
    them once their target is known. Proved to produce the code the shapes describe. */
module BytecodeCompiler {
  import opened Wrappers
  import opened Sequences
  import opened BytecodeVm
  import opened SourceLanguage
  import opened CodeShape
  import opened StmtSimulation
  import opened Backpatch

  /** The open break and continue jumps of an enclosing loop. */
  datatype LoopContext = LoopContext(breaks: seq<nat>, continues: seq<nat>)

  /** The loop stack after code of shape `xs` was emitted at `base`: its open jumps belong to the innermost loop. */
  function Recorded(loops: seq<LoopContext>, xs: seq<Sym>, base: nat): (r: seq<LoopContext>)
    ensures |r| == |loops|
  {
    if loops == [] then [] else
    var top := loops[|loops| - 1];
    loops[|loops| - 1 := LoopContext(top.breaks + Holes(xs, Exit, base), top.continues + Holes(xs, Again, base))]
  }

  lemma {:induction false} RecordedConcat(loops: seq<LoopContext>, a: seq<Sym>, b: seq<Sym>, base: nat)
    ensures Recorded(Recorded(loops, a, base), b, base + |a|) == Recorded(loops, a + b, base)
  {
    hide Holes;
    HolesConcat(a, b, Exit, base);
    HolesConcat(a, b, Again, base);
    if loops != [] {
      var top := loops[|loops| - 1];
      assert top.breaks + Holes(a, Exit, base) + Holes(b, Exit, base + |a|) == top.breaks + Holes(a + b, Exit, base);
      assert top.continues + Holes(a, Again, base) + Holes(b, Again, base + |a|) == top.continues + Holes(a + b, Again, base);
    }
  }

  lemma {:induction false} RecordedNone(loops: seq<LoopContext>, xs: seq<Sym>, base: nat)
    requires NoHole(xs, Exit) && NoHole(xs, Again)
    ensures Recorded(loops, xs, base) == loops
  {
    NoHoles(xs, Exit, base);
    NoHoles(xs, Again, base);
    if loops != [] {
      var top := loops[|loops| - 1];
      assert top.breaks + [] == top.breaks && top.continues + [] == top.continues;
    }
  }

  lemma {:induction false} RecordedOps(loops: seq<LoopContext>, f: seq<Instr>, base: nat)
    ensures Recorded(loops, Ops(f), base) == loops
  {
    HolesOps(f, Exit, base);
    HolesOps(f, Again, base);
    RecordedNone(loops, Ops(f), base);
  }

  lemma {:induction false} Regroup(p: seq<Instr>, a: seq<Instr>, b: seq<Instr>, c: seq<Instr>, d: seq<Instr>)
    ensures p + a + b + c + d == p + (a + (b + (c + d)))
  {
  }

  /** Code of shape `xs` was appended, and its open jumps recorded. */
  ghost predicate Grown(code0: seq<Instr>, loops0: seq<LoopContext>, xs: seq<Sym>, code1: seq<Instr>, loops1: seq<LoopContext>) {
    code1 == code0 + Emitted(xs) && loops1 == Recorded(loops0, xs, |code0|)
  }

  lemma {:induction false} GrownThen(code0: seq<Instr>, loops0: seq<LoopContext>, a: seq<Sym>, code1: seq<Instr>, loops1: seq<LoopContext>,
                                     b: seq<Sym>, code2: seq<Instr>, loops2: seq<LoopContext>)
    requires Grown(code0, loops0, a, code1, loops1) && Grown(code1, loops1, b, code2, loops2)
    ensures Grown(code0, loops0, a + b, code2, loops2)
  {
    hide Recorded, Emitted;
    EmittedConcat(a, b);
    RecordedConcat(loops0, a, b, |code0|);
  }

  lemma {:induction false} GrownOps(code0: seq<Instr>, loops: seq<LoopContext>, f: seq<Instr>)
    ensures Grown(code0, loops, Ops(f), code0 + f, loops)
  {
    hide Recorded, Emitted;
    EmittedOps(f);
    RecordedOps(loops, f, |code0|);
  }

  lemma {:induction false} GrownOp(code0: seq<Instr>, loops: seq<LoopContext>, i: Instr)
    ensures Grown(code0, loops, [Op(i)], code0 + [i], loops)
  {
    hide Recorded;
    assert Ops([i]) == [Op(i)];
    GrownOps(code0, loops, [i]);
  }

  lemma {:induction false} GrownNothing(code0: seq<Instr>, loops: seq<LoopContext>)
    ensures Grown(code0, loops, [], code0, loops)
  {
    hide Recorded;
    RecordedNone(loops, [], |code0|);
  }

  /** A leaf statement: an expression, then one instruction. */
  lemma {:induction false} GrownLeaf(code0: seq<Instr>, loops: seq<LoopContext>, f: seq<Instr>, i: Instr)
    ensures Grown(code0, loops, Ops(f) + [Op(i)], code0 + f + [i], loops)
  {
    hide Grown;
    GrownOps(code0, loops, f);
    GrownOp(code0 + f, loops, i);
    GrownThen(code0, loops, Ops(f), code0 + f, loops, [Op(i)], code0 + f + [i], loops);
  }

  lemma {:induction false} OneHole(l: Label, k: Label, at: nat)
    requires k != l
    ensures Holes([Hole(l)], l, at) == [at] && Holes([Hole(l)], k, at) == []
  {
    assert [Hole(l)][1..] == [];
  }

  class Compiler {
    var code: seq<Instr>
    var loops: seq<LoopContext>
    var loopCounter: nat

    constructor ()
      ensures code == [] && loops == [] && loopCounter == 0
    {
      code, loops, loopCounter := [], [], 0;
    }

    method Emit(i: Instr) returns (at: nat)
      modifies this`code
      ensures at == |old(code)| && code == old(code) + [i]
    {
      at := |code|;
      code := code + [i];
    }

    /** Point the jump at `at` to the next instruction to be emitted. */
    method PatchJump(at: nat)
      requires at < |code| && (code[at].Jump? || code[at].JumpIfFalse?)
      modifies this`code
      ensures code == old(code)[at := if old(code)[at].Jump? then Jump(|code|) else JumpIfFalse(|code|)]
    {
      code := code[at := if code[at].Jump? then Jump(|code|) else JumpIfFalse(|code|)];
    }

    method PatchAll(holes: seq<nat>, target: nat)
      requires forall a :: a in holes ==> a < |code| && code[a].Jump?
      modifies this`code
      ensures PatchedTo(old(code), holes, target, code)
    {
      for k := 0 to |holes|
        invariant |code| == |old(code)|
        invariant forall i :: 0 <= i < |code| ==> code[i] == if i in holes[..k] then Jump(target) else old(code)[i]
      {
        assert holes[k] in holes;
        code := code[holes[k] := Jump(target)];
        assert holes[..k + 1] == holes[..k] + [holes[k]];
      }
      assert holes[..|holes|] == holes;
    }

    // ---------- expressions ----------

    method CompileExpression(e: Expr)
      modifies this`code
      ensures code == old(code) + ExprCode(e, |old(code)|)
      decreases e, 1
    {
      match e
      case Lit(v) => var _ := Emit(PushConst(v));
      case Var(x) => var _ := Emit(LoadVar(User(x)));
      case UnaryExpr(op, e1) =>
        CompileExpression(e1);
        var _ := Emit(Unary(op));
      case BinaryExpr(_, _, _) => CompileBinary(e);
      case AndExpr(_, _) => CompileBinary(e);
      case OrExpr(_, _) => CompileBinary(e);
      case Assign(x, e1) =>
        CompileExpression(e1);
        var _ := Emit(Dup);
        var _ := Emit(DefineVar(User(x)));
    }

    method CompileBinary(e: Expr)
      requires e.BinaryExpr? || e.AndExpr? || e.OrExpr?
      modifies this`code
      ensures code == old(code) + ExprCode(e, |old(code)|)
      decreases e, 0, 1
    {
      var folded := TryFold(e);
      if folded.Some? {
        var _ := Emit(PushConst(folded.value));
      } else if e.AndExpr? {
        CompileAnd(e);
      } else if e.OrExpr? {
        CompileOr(e);
      } else {
        CompileEager(e);
      }
    }

    method CompileEager(e: Expr)
      requires e.BinaryExpr? && TryFold(e).None?
      modifies this`code
      ensures code == old(code) + ExprCode(e, |old(code)|)
      decreases e, 0, 0
    {
      hide TryFold;
      ghost var pre := code;
      CompileExpression(e.left);
      CompileExpression(e.right);
      var _ := Emit(Binary(e.bin));
      ghost var left := ExprCode(e.left, |pre|);
      Regroup(pre, left, ExprCode(e.right, |pre| + |left|), [Binary(e.bin)], []);
    }

    method CompileAnd(e: Expr)
      requires e.AndExpr? && TryFold(e).None?
      modifies this`code
      ensures code == old(code) + ExprCode(e, |old(code)|)
      decreases e, 0, 0
    {
      hide TryFold;
      ghost var pre := code;
      CompileExpression(e.left);
      var elseJump := Emit(JumpIfFalse(0));
      CompileExpression(e.right);
      ghost var left, right := ExprCode(e.left, |pre|), ExprCode(e.right, elseJump + 1);
      CloseLogical(elseJump, Bool(false), pre + left, right);
      ghost var end := elseJump + |right| + 4;
      Regroup(pre, left, [JumpIfFalse(end)], right, [Unary(Not), Unary(Not), Jump(end + 1), PushConst(Bool(false))]);
    }

    method CompileOr(e: Expr)
      requires e.OrExpr? && TryFold(e).None?
      modifies this`code
      ensures code == old(code) + ExprCode(e, |old(code)|)
      decreases e, 0, 0
    {
      hide TryFold;
      ghost var pre := code;
      CompileExpression(e.left);
      var _ := Emit(Unary(Not));
      var jumpToTrue := Emit(JumpIfFalse(0));
      CompileExpression(e.right);
      ghost var left, right := ExprCode(e.left, |pre|), ExprCode(e.right, jumpToTrue + 1);
      CloseLogical(jumpToTrue, Bool(true), pre + left + [Unary(Not)], right);
      ghost var end := jumpToTrue + |right| + 4;
      assert pre + left + [Unary(Not)] + [JumpIfFalse(end)] == pre + left + [Unary(Not), JumpIfFalse(end)];
      Regroup(pre, left, [Unary(Not), JumpIfFalse(end)], right, [Unary(Not), Unary(Not), Jump(end + 1), PushConst(Bool(true))]);
    }

    /** The end of `&&` and `||`: normalise the right operand, and put the constant the open jump leads to. */
    method CloseLogical(jump: nat, constant: Value, ghost pre: seq<Instr>, ghost right: seq<Instr>)
      requires jump == |pre| && code == pre + [JumpIfFalse(0)] + right
      modifies this`code
      ensures var otherwise := |pre| + 1 + |right| + 3;
              code == pre + [JumpIfFalse(otherwise)] + right
                    + [Unary(Not), Unary(Not), Jump(otherwise + 1), PushConst(constant)]
    {
      var _ := Emit(Unary(Not));
      var _ := Emit(Unary(Not));
      var endJump := Emit(Jump(0));
      PatchJump(jump);
      var _ := Emit(PushConst(constant));
      PatchJump(endJump);
    }

    method CompileOrNil(e: Option<Expr>)
      modifies this`code
      ensures code == old(code) + OrNilCode(e, |old(code)|)
    {
      if e.Some? {
        CompileExpression(e.value);
      } else {
        var _ := Emit(PushConst(Nil));
      }
    }

    // ---------- statements ----------

    /** Compile `s`. It fails, as the source throws, exactly when a break or continue stands outside every loop;
        otherwise the code of `s` is appended, nothing emitted before is altered, and its open jumps are recorded with
        the innermost enclosing loop. */
    method CompileStatement(s: Stmt) returns (ok: bool)
      modifies this
      ensures ok <==> WellPlaced(s, old(loops) != [])
      ensures ok ==> Grown(old(code), old(loops), Shape(s, |old(code)|, old(loopCounter)), code, loops)
      ensures ok ==> loopCounter == old(loopCounter) + Fors(s)
      decreases s, 2
    {
      hide Grown;
      match s
      case VarDecl(_, _) => CompileLeaf(s); ok := true;
      case ExprStmt(_) => CompileLeaf(s); ok := true;
      case LogStmt(_) => CompileLeaf(s); ok := true;
      case ReturnStmt(_) => CompileLeaf(s); ok := true;
      case Break => ok := CompileJump(s);
      case Continue => ok := CompileJump(s);
      case Block(ss) => ok := CompileBlock(s, ss);
      case If(_) => ok := CompileIf(s);
      case While(_, _) => ok := CompileWhile(s);
      case Repeat(_, _) => ok := CompileRepeat(s);
      case For(_, _, _, _, _) => ok := CompileFor(s);
    }

    method CompileLeaf(s: Stmt)
      requires s.VarDecl? || s.ExprStmt? || s.LogStmt? || s.ReturnStmt?
      modifies this`code
      ensures Grown(old(code), loops, Shape(s, |old(code)|, loopCounter), code, loops)
    {
      hide Grown, Ops, ExprCode, ExprLen;
      match s
      case VarDecl(x, init) =>
        CompileOrNil(init);
        var _ := Emit(DefineVar(User(x)));
        GrownLeaf(old(code), loops, OrNilCode(init, |old(code)|), DefineVar(User(x)));
      case ExprStmt(e) =>
        CompileExpression(e);
        var _ := Emit(Discard);
        GrownLeaf(old(code), loops, ExprCode(e, |old(code)|), Discard);
      case LogStmt(e) =>
        CompileExpression(e);
        var _ := Emit(Log);
        GrownLeaf(old(code), loops, ExprCode(e, |old(code)|), Log);
      case ReturnStmt(e) =>
        CompileOrNil(e);
        var _ := Emit(Return);
        GrownLeaf(old(code), loops, OrNilCode(e, |old(code)|), Return);
    }

    method CompileJump(s: Stmt) returns (ok: bool)
      requires s.Break? || s.Continue?
      modifies this`code, this`loops
      ensures ok <==> old(loops) != []
      ensures ok ==> Grown(old(code), old(loops), Shape(s, |old(code)|, loopCounter), code, loops)
    {
      if loops == [] { return false; }
      var at := Emit(Jump(0));
      var top := loops[|loops| - 1];
      var now := if s.Break? then top.(breaks := top.breaks + [at]) else top.(continues := top.continues + [at]);
      loops := loops[|loops| - 1 := now];
      assert Emitted(Shape(s, at, loopCounter)) == [Jump(0)];
      OneHole(Exit, Again, at);
      OneHole(Again, Exit, at);
      assert top.breaks + [] == top.breaks && top.continues + [] == top.continues;
      return true;
    }

    method CompileBlock(s: Stmt, ss: seq<Stmt>) returns (ok: bool)
      requires s == Block(ss)
      modifies this
      ensures ok <==> AllPlaced(ss, old(loops) != [])
      ensures ok ==> Grown(old(code), old(loops), BlockShape(ss, |old(code)|, old(loopCounter)), code, loops)
      ensures ok ==> loopCounter == old(loopCounter) + ForsIn(ss)
      decreases s, 1
    {
      hide BlockDone, Shape, Fors, WellPlaced, Grown, AllPlaced;
      ghost var done: seq<Sym> := [];
      ghost var start := BlockStart(ss, code, loops, loopCounter);
      BlockStarts(start);
      for i := 0 to |ss|
        invariant |loops| == |old(loops)|
        invariant BlockDone(start, done, i, code, loops, loopCounter)
      {
        ghost var code1, loops1, id1 := code, loops, loopCounter;
        ok := CompileStatement(ss[i]);
        BlockNext(start, done, i, code1, loops1, id1, ok, code, loops, loopCounter);
        if !ok { return; }
        done := done + Shape(ss[i], |code1|, id1);
      }
      BlockEnds(start, done, code, loops, loopCounter);
      ok := true;
    }

    method CompileIf(s: Stmt) returns (ok: bool)
      requires s.If?
      modifies this
      ensures ok <==> ArmsPlaced(s.arms, old(loops) != [])
      ensures ok ==> Grown(old(code), old(loops), Shape(s, |old(code)|, old(loopCounter)), code, loops)
      ensures ok ==> loopCounter == old(loopCounter) + ForsInArms(s.arms)
      decreases s, 1
    {
      hide IfDone, Shape, Fors, WellPlaced, Grown;
      ghost var done: seq<Sym> := [];
      ghost var start := Start(s.arms, code, loops, loopCounter);
      var jumpsToEnd: seq<nat> := [];
      var rest := s.arms;
      IfStarts(start);
      while rest.When?
        invariant rest == s.arms || rest < s.arms
        invariant |loops| == |old(loops)|
        invariant IfDone(start, done, rest, jumpsToEnd, code, loops, loopCounter)
        decreases rest
      {
        ghost var code1, loops1, id1 := code, loops, loopCounter;
        var at;
        ok, at := CompileArm(s, rest);
        IfArm(start, done, rest, jumpsToEnd, code1, loops1, id1, ok, at, code, loops, loopCounter);
        if !ok { return; }
        jumpsToEnd := jumpsToEnd + [at];
        done := done + ArmShape(rest, |code1|, id1);
        rest := rest.rest;
      }
      ghost var code1, loops1, id1 := code, loops, loopCounter;
      ok := true;
      if rest.orElse.Some? {
        ok := CompileStatement(rest.orElse.value);
      }
      IfElse(start, done, rest, jumpsToEnd, code1, loops1, id1, ok, code, loops, loopCounter);
      if !ok { return; }
      CloseIf(jumpsToEnd, old(code), ArmsShape(s.arms, |old(code)|, old(loopCounter)), old(loops));
      IfShape(s, |old(code)|, old(loopCounter));
    }

    /** One arm: condition, open jump to the next arm, body, open jump to the end. */
    method CompileArm(ghost s: Stmt, arm: Arms) returns (ok: bool, at: nat)
      requires arm.When? && s.If? && (arm == s.arms || arm < s.arms)
      modifies this
      ensures ok <==> WellPlaced(arm.body, old(loops) != [])
      ensures ok ==> Grown(old(code), old(loops), ArmShape(arm, |old(code)|, old(loopCounter)), code, loops)
      ensures ok ==> loopCounter == old(loopCounter) + Fors(arm.body) && at == |code| - 1
      decreases s, 0
    {
      hide Shape, Fors, WellPlaced, ExprCode, ExprLen, ArmShape, Grown;
      at := 0;
      ghost var loops0, id := loops, loopCounter;
      CompileExpression(arm.cond);
      var jumpToNext := Emit(JumpIfFalse(0));
      ghost var code1 := code;
      ok := CompileStatement(arm.body);
      if !ok { return; }
      ghost var code2 := code;
      GrownPrefix(code1, loops0, Shape(arm.body, |code1|, id), code2, loops);
      at := Emit(Jump(0));
      PatchJump(jumpToNext);
      ArmGrown(arm, old(code), loops0, id, code1, code2, loops, code);
    }

    method CloseIf(jumps: seq<nat>, ghost pre: seq<Instr>, ghost xs: seq<Sym>, ghost loops0: seq<LoopContext>)
      requires Grown(pre, loops0, xs, code, loops) && jumps == Holes(xs, Join, |pre|)
      modifies this`code
      ensures Grown(pre, loops0, Fill(xs, Join, |pre| + |xs|), code, loops)
    {
      hide Emitted, Fill, Holes, PatchedTo;
      assert code == pre + Emitted(xs) + [];
      HolesAreJumps(pre, xs, [], Join);
      PatchAll(jumps, |code|);
      PatchFills(pre, xs, [], Join, |code|, code);
      assert pre + Emitted(Fill(xs, Join, |code|)) + [] == pre + Emitted(Fill(xs, Join, |code|));
      HolesFill(xs, Join, |code|, Exit, |pre|);
      HolesFill(xs, Join, |code|, Again, |pre|);
    }

    /** The end of every loop: take its open jumps off the loop stack and patch them. */
    method CloseLoop(exit: nat, again: nat, ghost pre: seq<Instr>, ghost body: seq<Sym>, ghost suf: seq<Instr>, ghost outer: seq<LoopContext>)
      requires code == pre + Emitted(body) + suf
      requires loops == Recorded(outer + [LoopContext([], [])], body, |pre|)
      modifies this`code, this`loops
      ensures code == pre + Emitted(LoopBody(body, exit, again)) + suf && loops == outer
    {
      hide Emitted, Fill, Holes, PatchedTo;
      var top := loops[|loops| - 1];
      loops := loops[..|loops| - 1];
      assert [] + Holes(body, Exit, |pre|) == Holes(body, Exit, |pre|) && [] + Holes(body, Again, |pre|) == Holes(body, Again, |pre|);
      assert top == LoopContext(Holes(body, Exit, |pre|), Holes(body, Again, |pre|));
      HolesAreJumps(pre, body, suf, Exit);
      PatchAll(top.breaks, exit);
      PatchFills(pre, body, suf, Exit, exit, code);
      HolesFill(body, Exit, exit, Again, |pre|);
      HolesAreJumps(pre, Fill(body, Exit, exit), suf, Again);
      PatchAll(top.continues, again);
      PatchFills(pre, Fill(body, Exit, exit), suf, Again, again, code);
    }

    method CompileWhile(s: Stmt) returns (ok: bool)
      requires s.While?
      modifies this
      ensures ok <==> WellPlaced(s.body, true)
      ensures ok ==> Grown(old(code), old(loops), Shape(s, |old(code)|, old(loopCounter)), code, loops)
      ensures ok ==> loopCounter == old(loopCounter) + Fors(s.body)
      decreases s, 1
    {
      hide Shape, StmtLen, Fors, WellPlaced, Emitted, ExprCode, ExprLen, Recorded, LoopBody;
      ghost var cond := ExprCode(s.cond, |code|);
      var loopStart := |code|;
      CompileExpression(s.cond);
      var exitJump := Emit(JumpIfFalse(0));
      ghost var outer, id := loops, loopCounter;
      loops := loops + [LoopContext([], [])];
      ok := CompileStatement(s.body);
      if !ok { return; }
      ghost var body := Shape(s.body, exitJump + 1, id);
      var _ := Emit(Jump(loopStart));
      var loopEnd := |code|;
      assert code == old(code) + cond + [JumpIfFalse(0)] + Emitted(body) + [Jump(loopStart)];
      PatchJump(exitJump);
      ghost var pre := old(code) + cond + [JumpIfFalse(loopEnd)];
      assert code == pre + Emitted(body) + [Jump(loopStart)];
      CloseLoop(loopEnd, loopStart, pre, body, [Jump(loopStart)], outer);
      WhileEmitted(s, old(code), id, code);
      LoopRecorded(outer, s, |old(code)|, id);
    }

    method CompileRepeat(s: Stmt) returns (ok: bool)
      requires s.Repeat?
      modifies this
      ensures ok <==> WellPlaced(s.body, true)
      ensures ok ==> Grown(old(code), old(loops), Shape(s, |old(code)|, old(loopCounter)), code, loops)
      ensures ok ==> loopCounter == old(loopCounter) + Fors(s.body)
      decreases s, 1
    {
      hide Shape, StmtLen, Fors, WellPlaced, Emitted, ExprCode, ExprLen, Recorded, LoopBody;
      var bodyStart := |code|;
      ghost var outer, id := loops, loopCounter;
      loops := loops + [LoopContext([], [])];
      ok := CompileStatement(s.body);
      if !ok { return; }
      ghost var body := Shape(s.body, bodyStart, id);
      var conditionCheck := |code|;
      CompileExpression(s.cond);
      var _ := Emit(Unary(Not));
      var _ := Emit(JumpIfFalse(bodyStart));
      var loopEnd := |code|;
      ghost var suf := ExprCode(s.cond, conditionCheck) + [Unary(Not), JumpIfFalse(bodyStart)];
      assert code == old(code) + Emitted(body) + suf;
      CloseLoop(loopEnd, conditionCheck, old(code), body, suf, outer);
      RepeatEmitted(s, old(code), id, code);
      LoopRecorded(outer, s, |old(code)|, id);
    }

    method CompileFor(s: Stmt) returns (ok: bool)
      requires s.For?
      modifies this
      ensures ok <==> WellPlaced(s.body, true)
      ensures ok ==> Grown(old(code), old(loops), Shape(s, |old(code)|, old(loopCounter)), code, loops)
      ensures ok ==> loopCounter == old(loopCounter) + 1 + Fors(s.body)
      decreases s, 1
    {
      hide Shape, StmtLen, Fors, WellPlaced, Emitted, ExprCode, ExprLen, Recorded, LoopBody, ForSetup;
      var id := loopCounter;
      loopCounter := loopCounter + 1;
      CompileForSetup(s, id);
      var loopStart := |code|;
      ghost var setup := Emitted(ForSetup(s.x, s.start, s.end, s.step, |old(code)|, id));
      var exitJump := CompileForTest(s.x, id);
      ghost var outer := loops;
      loops := loops + [LoopContext([], [])];
      ok := CompileStatement(s.body);
      if !ok { return; }
      ghost var body := Shape(s.body, loopStart + 5, id + 1);
      var incrementLabel := |code|;
      CompileForAdvance(s.x, id, loopStart);
      var loopEnd := |code|;
      ghost var suf := Emitted(ForAdvance(s.x, id, loopStart));
      TestPatched(old(code) + setup, s.x, id, loopEnd, Emitted(body) + suf);
      assert code == old(code) + setup + (Emitted(ForTest(s.x, id, 0)) + (Emitted(body) + suf));
      PatchJump(exitJump);
      ghost var pre := old(code) + setup + Emitted(ForTest(s.x, id, loopEnd));
      assert code == pre + Emitted(body) + suf;
      CloseLoop(loopEnd, incrementLabel, pre, body, suf, outer);
      ForEmitted(s, old(code), id, code);
      LoopRecorded(outer, s, |old(code)|, id);
    }

    method CompileForSetup(s: Stmt, id: nat)
      requires s.For?
      modifies this`code
      ensures code == old(code) + Emitted(ForSetup(s.x, s.start, s.end, s.step, |old(code)|, id))
    {
      hide ExprCode, ExprLen, Emitted, ForSetup;
      CompileExpression(s.start);
      var _ := Emit(DefineVar(User(s.x)));
      CompileExpression(s.end);
      var _ := Emit(DefineVar(Hidden(ForEnd(id))));
      CompileExpression(s.step);
      var _ := Emit(DefineVar(Hidden(ForStep(id))));
      SetupEmitted(s, old(code), id);
    }

    method CompileForTest(x: string, id: nat) returns (exitJump: nat)
      modifies this`code
      ensures code == old(code) + Emitted(ForTest(x, id, 0)) && exitJump == |old(code)| + 4
    {
      var _ := Emit(LoadVar(User(x)));
      var _ := Emit(LoadVar(Hidden(ForEnd(id))));
      var _ := Emit(LoadVar(Hidden(ForStep(id))));
      var _ := Emit(Range);
      exitJump := Emit(JumpIfFalse(0));
    }

    method CompileForAdvance(x: string, id: nat, loopStart: nat)
      modifies this`code
      ensures code == old(code) + Emitted(ForAdvance(x, id, loopStart))
    {
      var _ := Emit(LoadVar(User(x)));
      var _ := Emit(LoadVar(Hidden(ForStep(id))));
      var _ := Emit(Binary(Add));
      var _ := Emit(DefineVar(User(x)));
      var _ := Emit(Jump(loopStart));
    }
  }

  /** Where a block began. */
  datatype BlockStart = BlockStart(ss: seq<Stmt>, code: seq<Instr>, loops: seq<LoopContext>, id: nat)

  /** The first `i` statements of the block are compiled. */
  ghost predicate BlockDone(s: BlockStart, done: seq<Sym>, i: nat, code: seq<Instr>, loops: seq<LoopContext>, id: nat) {
    && i <= |s.ss|
    && Grown(s.code, s.loops, done, code, loops)
    && done + BlockShape(s.ss[i..], |code|, id) == BlockShape(s.ss, |s.code|, s.id)
    && id + ForsIn(s.ss[i..]) == s.id + ForsIn(s.ss)
    && (AllPlaced(s.ss, s.loops != []) <==> AllPlaced(s.ss[i..], s.loops != []))
  }

  lemma {:induction false} BlockStarts(s: BlockStart)
    ensures BlockDone(s, [], 0, s.code, s.loops, s.id)
  {
    hide Grown;
    GrownNothing(s.code, s.loops);
    assert s.ss[0..] == s.ss;
  }

  lemma {:induction false} BlockNext(s: BlockStart, done: seq<Sym>, i: nat, code: seq<Instr>, loops: seq<LoopContext>, id: nat,
                                     ok: bool, code2: seq<Instr>, loops2: seq<LoopContext>, id2: nat)
    requires i < |s.ss| && BlockDone(s, done, i, code, loops, id)
    requires ok <==> WellPlaced(s.ss[i], loops != [])
    requires ok ==> Grown(code, loops, Shape(s.ss[i], |code|, id), code2, loops2) && id2 == id + Fors(s.ss[i])
    ensures !ok ==> !AllPlaced(s.ss, s.loops != [])
    ensures ok ==> |loops2| == |loops| && BlockDone(s, done + Shape(s.ss[i], |code|, id), i + 1, code2, loops2, id2)
  {
    hide Grown, Shape, Fors, WellPlaced;
    assert s.ss[i..][0] == s.ss[i] && s.ss[i..][1..] == s.ss[i + 1..];
    GrownLength(s.code, s.loops, done, code, loops);
    if ok {
      var xs := Shape(s.ss[i], |code|, id);
      GrownThen(s.code, s.loops, done, code, loops, xs, code2, loops2);
      GrownLength(code, loops, xs, code2, loops2);
      Associative(done, xs, BlockShape(s.ss[i + 1..], |code2|, id2));
    }
  }

  lemma {:induction false} BlockEnds(s: BlockStart, done: seq<Sym>, code: seq<Instr>, loops: seq<LoopContext>, id: nat)
    requires BlockDone(s, done, |s.ss|, code, loops, id)
    ensures AllPlaced(s.ss, s.loops != []) && id == s.id + ForsIn(s.ss)
    ensures Grown(s.code, s.loops, BlockShape(s.ss, |s.code|, s.id), code, loops)
  {
    hide Grown;
    assert s.ss[|s.ss|..] == [];
    assert done + [] == done;
  }

  /** Where an `if` began. */
  datatype Start = Start(arms: Arms, code: seq<Instr>, loops: seq<LoopContext>, id: nat)

  /** Some arms of the `if` are compiled, `rest` is still to come, and `jumps` are their open jumps to the end. */
  ghost predicate IfDone(s: Start, done: seq<Sym>, rest: Arms, jumps: seq<nat>, code: seq<Instr>, loops: seq<LoopContext>, id: nat) {
    && Grown(s.code, s.loops, done, code, loops)
    && done + ArmsShape(rest, |code|, id) == ArmsShape(s.arms, |s.code|, s.id)
    && id + ForsInArms(rest) == s.id + ForsInArms(s.arms)
    && (ArmsPlaced(s.arms, s.loops != []) <==> ArmsPlaced(rest, s.loops != []))
    && jumps == Holes(done, Join, |s.code|)
  }

  lemma {:induction false} IfStarts(s: Start)
    ensures IfDone(s, [], s.arms, [], s.code, s.loops, s.id)
  {
    hide Grown, Holes;
    GrownNothing(s.code, s.loops);
    NoHoles([], Join, |s.code|);
  }

  lemma {:induction false} IfArm(s: Start, done: seq<Sym>, rest: Arms, jumps: seq<nat>, code: seq<Instr>, loops: seq<LoopContext>, id: nat,
                                 ok: bool, at: nat, code2: seq<Instr>, loops2: seq<LoopContext>, id2: nat)
    requires rest.When? && IfDone(s, done, rest, jumps, code, loops, id)
    requires ok <==> WellPlaced(rest.body, loops != [])
    requires ok ==> Grown(code, loops, ArmShape(rest, |code|, id), code2, loops2) && id2 == id + Fors(rest.body) && at == |code2| - 1
    ensures !ok ==> !ArmsPlaced(s.arms, s.loops != [])
    ensures ok ==> |loops2| == |loops| && IfDone(s, done + ArmShape(rest, |code|, id), rest.rest, jumps + [at], code2, loops2, id2)
  {
    hide Grown, Holes, ArmShape, Fors, WellPlaced, ArmsShape;
    GrownLength(s.code, s.loops, done, code, loops);
    if ok {
      var xs := ArmShape(rest, |code|, id);
      GrownThen(s.code, s.loops, done, code, loops, xs, code2, loops2);
      GrownLength(code, loops, xs, code2, loops2);
      IfArmJump(|s.code|, done, rest, |code|, id);
      IfArmRest(done, rest, |code|, id);
    }
  }

  /** The last instruction of the arm is its open jump to the end. */
  lemma {:induction false} IfArmJump(base: nat, done: seq<Sym>, rest: Arms, at: nat, id: nat)
    requires rest.When? && at == base + |done|
    ensures var xs := ArmShape(rest, at, id);
            Holes(done + xs, Join, base) == Holes(done, Join, base) + [at + |xs| - 1]
  {
    hide Holes, ArmShape;
    ArmJoins(rest, at, id);
    HolesConcat(done, ArmShape(rest, at, id), Join, base);
  }

  lemma {:induction false} IfArmRest(done: seq<Sym>, rest: Arms, at: nat, id: nat)
    requires rest.When?
    ensures var xs := ArmShape(rest, at, id);
            done + ArmsShape(rest, at, id) == done + xs + ArmsShape(rest.rest, at + |xs|, id + Fors(rest.body))
  {
    hide ArmShape, ArmsShape, Fors;
    ArmFirst(rest, at, id);
    var xs := ArmShape(rest, at, id);
    Associative(done, xs, ArmsShape(rest.rest, at + |xs|, id + Fors(rest.body)));
  }

  lemma {:induction false} IfElse(s: Start, done: seq<Sym>, rest: Arms, jumps: seq<nat>, code: seq<Instr>, loops: seq<LoopContext>, id: nat,
                                  ok: bool, code2: seq<Instr>, loops2: seq<LoopContext>, id2: nat)
    requires rest.Otherwise? && IfDone(s, done, rest, jumps, code, loops, id)
    requires rest.orElse.None? ==> ok && code2 == code && loops2 == loops && id2 == id
    requires rest.orElse.Some? ==> (ok <==> WellPlaced(rest.orElse.value, loops != []))
    requires rest.orElse.Some? && ok ==>
               Grown(code, loops, Shape(rest.orElse.value, |code|, id), code2, loops2) && id2 == id + Fors(rest.orElse.value)
    ensures ok <==> ArmsPlaced(s.arms, s.loops != [])
    ensures ok ==> Grown(s.code, s.loops, ArmsShape(s.arms, |s.code|, s.id), code2, loops2)
    ensures ok ==> id2 == s.id + ForsInArms(s.arms) && jumps == Holes(ArmsShape(s.arms, |s.code|, s.id), Join, |s.code|)
  {
    hide Grown, Holes, Shape, Fors, WellPlaced;
    GrownLength(s.code, s.loops, done, code, loops);
    if rest.orElse.None? {
      assert done + [] == done;
    } else if ok {
      var xs := Shape(rest.orElse.value, |code|, id);
      ShapeHasNoJoin(rest.orElse.value, |code|, id);
      NoHoles(xs, Join, |code|);
      HolesConcat(done, xs, Join, |s.code|);
      GrownThen(s.code, s.loops, done, code, loops, xs, code2, loops2);
      assert jumps + [] == jumps;
    }
  }

  lemma {:induction false} GrownPrefix(code0: seq<Instr>, loops0: seq<LoopContext>, xs: seq<Sym>, code1: seq<Instr>, loops1: seq<LoopContext>)
    requires Grown(code0, loops0, xs, code1, loops1)
    ensures |code1| == |code0| + |xs| && code1[..|code0|] == code0
    ensures forall i :: 0 <= i < |code0| ==> code1[i] == code0[i]
  {
  }

  lemma {:induction false} ArmGrown(arm: Arms, code0: seq<Instr>, loops0: seq<LoopContext>, id: nat, code1: seq<Instr>,
                                    code2: seq<Instr>, loops2: seq<LoopContext>, code3: seq<Instr>)
    requires arm.When? && code1 == code0 + ExprCode(arm.cond, |code0|) + [JumpIfFalse(0)]
    requires Grown(code1, loops0, Shape(arm.body, |code1|, id), code2, loops2)
    requires |code1| <= |code2| && code3 == (code2 + [Jump(0)])[|code1| - 1 := JumpIfFalse(|code2| + 1)]
    ensures Grown(code0, loops0, ArmShape(arm, |code0|, id), code3, loops2)
  {
    hide Shape, ExprCode, ExprLen, ArmShape, Recorded, Emitted;
    ArmEmitted(arm, code0, id, code3);
    ArmRecorded(arm, loops0, |code0|, id);
  }

  /** One arm of an `if` on its own. */
  function ArmShape(arm: Arms, base: nat, id: nat): (r: seq<Sym>)
    requires arm.When?
    ensures |r| == ExprLen(arm.cond) + 1 + StmtLen(arm.body) + 1
  {
    var first := base + ExprLen(arm.cond) + 1;
    Ops(ExprCode(arm.cond, base)) + ([Op(JumpIfFalse(first + StmtLen(arm.body) + 1))] + (Shape(arm.body, first, id) + [Hole(Join)]))
  }

  lemma {:induction false} IfShape(s: Stmt, base: nat, id: nat)
    requires s.If?
    ensures Shape(s, base, id) == Fill(ArmsShape(s.arms, base, id), Join, base + |ArmsShape(s.arms, base, id)|)
  {
    hide Fill;
  }

  lemma {:induction false} ArmFirst(arm: Arms, base: nat, id: nat)
    requires arm.When?
    ensures ArmsShape(arm, base, id)
         == ArmShape(arm, base, id) + ArmsShape(arm.rest, base + |ArmShape(arm, base, id)|, id + Fors(arm.body))
  {
    hide Ops, ExprCode, Shape, Fors, StmtLen, ExprLen;
    var first := base + ExprLen(arm.cond) + 1;
    var next := first + StmtLen(arm.body) + 1;
    var rest := ArmsShape(arm.rest, next, id + Fors(arm.body));
    SymRegroup(Ops(ExprCode(arm.cond, base)), [Op(JumpIfFalse(next))], Shape(arm.body, first, id), [Hole(Join)], rest);
  }

  lemma {:induction false} SymRegroup(a: seq<Sym>, b: seq<Sym>, c: seq<Sym>, d: seq<Sym>, e: seq<Sym>)
    ensures a + (b + (c + (d + e))) == a + (b + (c + d)) + e
  {
  }

  /** The only jump to the end that an arm leaves open is its last instruction. */
  lemma {:induction false} ArmJoins(arm: Arms, base: nat, id: nat)
    requires arm.When?
    ensures Holes(ArmShape(arm, base, id), Join, base) == [base + |ArmShape(arm, base, id)| - 1]
  {
    ArmHoles(arm, base, id, Join);
    var first := base + ExprLen(arm.cond) + 1;
    ShapeHasNoJoin(arm.body, first, id);
    NoHoles(Shape(arm.body, first, id), Join, first);
    OneHole(Join, Exit, first + StmtLen(arm.body));
  }

  lemma {:induction false} ArmHoles(arm: Arms, base: nat, id: nat, l: Label)
    requires arm.When?
    ensures var first := base + ExprLen(arm.cond) + 1;
            Holes(ArmShape(arm, base, id), l, base)
            == Holes(Shape(arm.body, first, id), l, first) + Holes([Hole(Join)], l, first + StmtLen(arm.body))
  {
    hide Holes, Ops, ExprCode, Shape, StmtLen, ExprLen;
    var first := base + ExprLen(arm.cond) + 1;
    var jump := Op(JumpIfFalse(first + StmtLen(arm.body) + 1));
    var cond := Ops(ExprCode(arm.cond, base));
    var tail := Shape(arm.body, first, id) + [Hole(Join)];
    HolesConcat(cond, [jump] + tail, l, base);
    HolesConcat([jump], tail, l, first - 1);
    HolesConcat(Shape(arm.body, first, id), [Hole(Join)], l, first);
    HolesOps(ExprCode(arm.cond, base), l, base);
    NoHoleOne(jump);
    NoHoles([jump], l, first - 1);
  }

  lemma {:induction false} ArmRecorded(arm: Arms, loops: seq<LoopContext>, base: nat, id: nat)
    requires arm.When?
    ensures var first := base + ExprLen(arm.cond) + 1;
            Recorded(loops, ArmShape(arm, base, id), base) == Recorded(loops, Shape(arm.body, first, id), first)
  {
    hide Holes, ArmShape, Shape, StmtLen, ExprLen;
    ArmHoles(arm, base, id, Exit);
    ArmHoles(arm, base, id, Again);
    var last := base + ExprLen(arm.cond) + 1 + StmtLen(arm.body);
    NoHoleOne(Hole(Join));
    NoHoles([Hole(Join)], Exit, last);
    NoHoles([Hole(Join)], Again, last);
    var body, first := Shape(arm.body, base + ExprLen(arm.cond) + 1, id), base + ExprLen(arm.cond) + 1;
    assert Holes(body, Exit, first) + [] == Holes(body, Exit, first) && Holes(body, Again, first) + [] == Holes(body, Again, first);
  }

  lemma {:induction false} ArmEmitted(arm: Arms, pre: seq<Instr>, id: nat, code: seq<Instr>)
    requires arm.When?
    requires var first := |pre| + ExprLen(arm.cond) + 1;
             code == (pre + ExprCode(arm.cond, |pre|) + [JumpIfFalse(0)] + Emitted(Shape(arm.body, first, id)) + [Jump(0)])
                     [first - 1 := JumpIfFalse(first + StmtLen(arm.body) + 1)]
    ensures code == pre + Emitted(ArmShape(arm, |pre|, id))
  {
    hide Emitted, Ops, ExprCode, ExprLen, Shape, StmtLen;
    var first := |pre| + ExprLen(arm.cond) + 1;
    var next := first + StmtLen(arm.body) + 1;
    var cond, body := ExprCode(arm.cond, |pre|), Shape(arm.body, first, id);
    assert code == pre + cond + [JumpIfFalse(next)] + Emitted(body) + [Jump(0)];
    LeafEmitted(cond, JumpIfFalse(next), body + [Hole(Join)]);
    EmittedConcat(body, [Hole(Join)]);
    EmittedHole();
    Regroup(pre, cond, [JumpIfFalse(next)], Emitted(body), [Jump(0)]);
  }

  lemma {:induction false} EmittedHole()
    ensures Emitted([Hole(Join)]) == [Jump(0)]
  {
  }

  /** What a finished loop leaves on the loop stack: nothing. */
  lemma {:induction false} LoopRecorded(loops: seq<LoopContext>, s: Stmt, base: nat, id: nat)
    requires IsLoop(s)
    ensures Recorded(loops, Shape(s, base, id), base) == loops
  {
    hide Shape, Recorded;
    LoopHoles(s, base, id, Exit);
    LoopHoles(s, base, id, Again);
    RecordedNone(loops, Shape(s, base, id), base);
  }

  lemma {:induction false} EmittedOp(i: Instr)
    ensures Emitted([Op(i)]) == [i]
  {
  }

  lemma {:induction false} WhileEmitted(s: Stmt, pre: seq<Instr>, id: nat, code: seq<Instr>)
    requires s.While?
    requires var cond := ExprCode(s.cond, |pre|);
             var body := |pre| + |cond| + 1;
             var exit := body + StmtLen(s.body) + 1;
             code == pre + cond + [JumpIfFalse(exit)] + Emitted(LoopBody(Shape(s.body, body, id), exit, |pre|)) + [Jump(|pre|)]
    ensures code == pre + Emitted(Shape(s, |pre|, id))
  {
    hide Emitted, LoopBody, ExprCode, ExprLen, Ops, StmtLen;
    var cond := ExprCode(s.cond, |pre|);
    var body := |pre| + |cond| + 1;
    var exit := body + StmtLen(s.body) + 1;
    var inner := LoopBody(Shape(s.body, body, id), exit, |pre|);
    EmittedConcat(Ops(cond), [Op(JumpIfFalse(exit))] + (inner + [Op(Jump(|pre|))]));
    EmittedConcat([Op(JumpIfFalse(exit))], inner + [Op(Jump(|pre|))]);
    EmittedConcat(inner, [Op(Jump(|pre|))]);
    EmittedOps(cond);
    EmittedOp(JumpIfFalse(exit));
    EmittedOp(Jump(|pre|));
    Regroup(pre, cond, [JumpIfFalse(exit)], Emitted(inner), [Jump(|pre|)]);
  }

  lemma {:induction false} RepeatEmitted(s: Stmt, pre: seq<Instr>, id: nat, code: seq<Instr>)
    requires s.Repeat?
    requires var check := |pre| + StmtLen(s.body);
             var cond := ExprCode(s.cond, check);
             code == pre + Emitted(LoopBody(Shape(s.body, |pre|, id), check + |cond| + 2, check))
                   + (cond + [Unary(Not), JumpIfFalse(|pre|)])
    ensures code == pre + Emitted(Shape(s, |pre|, id))
  {
    hide Emitted, LoopBody, ExprCode, ExprLen, Ops, StmtLen;
    var check := |pre| + StmtLen(s.body);
    var cond := ExprCode(s.cond, check);
    var inner := LoopBody(Shape(s.body, |pre|, id), check + |cond| + 2, check);
    var tail := [Op(Unary(Not)), Op(JumpIfFalse(|pre|))];
    EmittedConcat(inner, Ops(cond) + tail);
    EmittedConcat(Ops(cond), tail);
    EmittedOps(cond);
    EmittedTwo(Unary(Not), JumpIfFalse(|pre|));
  }

  lemma {:induction false} EmittedTwo(i: Instr, j: Instr)
    ensures Emitted([Op(i), Op(j)]) == [i, j]
  {
  }

  lemma {:induction false} SetupEmitted(s: Stmt, pre: seq<Instr>, id: nat)
    requires s.For?
    ensures var second := |pre| + ExprLen(s.start) + 1;
            var third := second + ExprLen(s.end) + 1;
            pre + ExprCode(s.start, |pre|) + [DefineVar(User(s.x))] + ExprCode(s.end, second)
              + [DefineVar(Hidden(ForEnd(id)))] + ExprCode(s.step, third) + [DefineVar(Hidden(ForStep(id)))]
            == pre + Emitted(ForSetup(s.x, s.start, s.end, s.step, |pre|, id))
  {
    hide Emitted, ExprCode, ExprLen, Ops;
    var second := |pre| + ExprLen(s.start) + 1;
    var third := second + ExprLen(s.end) + 1;
    var c1, c2, c3 := ExprCode(s.start, |pre|), ExprCode(s.end, second), ExprCode(s.step, third);
    var i1, i2, i3 := DefineVar(User(s.x)), DefineVar(Hidden(ForEnd(id))), DefineVar(Hidden(ForStep(id)));
    var r3 := Ops(c3) + [Op(i3)];
    var r2 := Ops(c2) + ([Op(i2)] + r3);
    LeafEmitted(c3, i3, []);
    assert Ops(c3) + ([Op(i3)] + []) == r3 && Emitted([]) == [];
    LeafEmitted(c2, i2, r3);
    LeafEmitted(c1, i1, r2);
    Regroup(pre, c1, [i1], c2, [i2]);
    Regroup(pre + (c1 + ([i1] + (c2 + [i2]))), c3, [i3], [], []);
    assert pre + c1 + [i1] + c2 + [i2] + c3 + [i3] == pre + (c1 + ([i1] + (c2 + ([i2] + (c3 + [i3])))));
  }

  lemma {:induction false} LeafEmitted(f: seq<Instr>, i: Instr, rest: seq<Sym>)
    ensures Emitted(Ops(f) + ([Op(i)] + rest)) == f + ([i] + Emitted(rest))
  {
    hide Emitted;
    EmittedConcat(Ops(f), [Op(i)] + rest);
    EmittedConcat([Op(i)], rest);
    EmittedOps(f);
    EmittedOp(i);
  }

  lemma {:induction false} TestPatched(pre: seq<Instr>, x: string, id: nat, exit: nat, rest: seq<Instr>)
    ensures (pre + (Emitted(ForTest(x, id, 0)) + rest))[|pre| + 4 := JumpIfFalse(exit)]
         == pre + (Emitted(ForTest(x, id, exit)) + rest)
    ensures (pre + (Emitted(ForTest(x, id, 0)) + rest))[|pre| + 4] == JumpIfFalse(0)
  {
  }

  lemma {:induction false} ForShape(s: Stmt, base: nat, id: nat)
    requires s.For?
    ensures var top := base + ExprLen(s.start) + 1 + ExprLen(s.end) + 1 + ExprLen(s.step) + 1;
            var advance := top + 5 + StmtLen(s.body);
            Shape(s, base, id) == ForSetup(s.x, s.start, s.end, s.step, base, id)
              + (ForTest(s.x, id, advance + 5)
              + (LoopBody(Shape(s.body, top + 5, id + 1), advance + 5, advance) + ForAdvance(s.x, id, top)))
  {
    hide LoopBody, ExprLen, ForSetup, ForTest, ForAdvance;
  }

  lemma {:induction false} ForEmitted(s: Stmt, pre: seq<Instr>, id: nat, code: seq<Instr>)
    requires s.For?
    requires var top := |pre| + ExprLen(s.start) + 1 + ExprLen(s.end) + 1 + ExprLen(s.step) + 1;
             var advance := top + 5 + StmtLen(s.body);
             code == pre + Emitted(ForSetup(s.x, s.start, s.end, s.step, |pre|, id)) + Emitted(ForTest(s.x, id, advance + 5))
                   + Emitted(LoopBody(Shape(s.body, top + 5, id + 1), advance + 5, advance)) + Emitted(ForAdvance(s.x, id, top))
    ensures code == pre + Emitted(Shape(s, |pre|, id))
  {
    hide Emitted, LoopBody, ExprLen, Shape, ForSetup, ForTest, ForAdvance;
    ForShape(s, |pre|, id);
    var top := |pre| + ExprLen(s.start) + 1 + ExprLen(s.end) + 1 + ExprLen(s.step) + 1;
    var advance := top + 5 + StmtLen(s.body);
    var setup := ForSetup(s.x, s.start, s.end, s.step, |pre|, id);
    var inner := LoopBody(Shape(s.body, top + 5, id + 1), advance + 5, advance);
    var test, last := ForTest(s.x, id, advance + 5), ForAdvance(s.x, id, top);
    EmittedConcat(setup, test + (inner + last));
    EmittedConcat(test, inner + last);
    EmittedConcat(inner, last);
    Regroup(pre, Emitted(setup), Emitted(test), Emitted(inner), Emitted(last));
  }

  lemma {:induction false} GrownLength(code0: seq<Instr>, loops0: seq<LoopContext>, xs: seq<Sym>, code1: seq<Instr>, loops1: seq<LoopContext>)
    requires Grown(code0, loops0, xs, code1, loops1)
    ensures |code1| == |code0| + |xs| && |loops1| == |loops0|
  {
  }
}

/** How sharp the judgements of the MIR are (src/mir/effects.cpp, src/mir/folding.cpp): which operations may raise and really
    can, which constants must fold, and what the operations compute, told by the operators of the language. */
module MirOperations {
  import opened Wrappers
  import opened Int64
  import opened MirEffects
  import BytecodeVm
  import IntPower

  // ---------- operations that may raise, and can ----------

  /** Some operand values of the declared types make the operation raise. */
  ghost predicate CanFail(ins: Instr) {
    exists vs: seq<Value> :: Fitting(ins.operands, vs) && Compute(ins.op, vs).None?
  }

  predicate NoDoubles(os: seq<Operand>) {
    forall k :: 0 <= k < |os| ==> OperandType(os[k]) != DoubleType
  }

  /** Integer operations that never raise and are judged able to: `-1 - x`, `x % -1`, powers with exponent 0 or 1, and the test
      of a range whose step is a constant other than 0. */
  predicate Overcautious(ins: Instr) {
    if |ins.operands| == 3 then
      && ins.op == RangeInBounds && AllNumeric(ins.operands)
      && IntConstant(ins, 2).Some? && IntConstant(ins, 2).value != 0
    else if |ins.operands| == 2 then
      var a, b := IntConstant(ins, 0), IntConstant(ins, 1);
      match ins.op
      case Sub => a == Some(-1) && b.None?
      case Mod => a.None? && b == Some(-1)
      case Pow => a.None? && (b == Some(0) || b == Some(1))
      case _ => false
    else false
  }

  predicate Arithmetic(op: Opcode) { op in {Add, Sub, Mul, Div, Mod, Pow, Shl, Shr, Ushr} }

  /** The operand itself if it is constant, otherwise the value chosen for it. */
  function Pick(o: Operand, x: Value): Value {
    if o.Const? then o.v else x
  }

  lemma {:induction false} PairFits(a: Operand, b: Operand, x: Value, y: Value)
    requires HasType(Pick(a, x), OperandType(a)) && HasType(Pick(b, y), OperandType(b))
    ensures Fitting([a, b], [Pick(a, x), Pick(b, y)])
  {
  }

  /** The extreme operand that overflows, for a left or right operand that is known. */
  function Against(op: Opcode, left: bool, c: int64): int64 {
    match op
    case Add => if c > 0 then MAX else MIN
    case Sub => if left then (if c >= 0 then MIN else MAX) else (if c > 0 then MIN else MAX)
    case Mul => if c == -1 then MIN else MAX
    case Div => if left then 0 else MIN
    case Mod => 0
    case Pow => if left then -1 else MAX
    case _ => 64
  }

  lemma {:induction false} KnownLeftFails(op: Opcode, c: int64)
    requires Arithmetic(op) && !LeftRule(op, c) && !(op == Sub && c == -1)
    ensures OnInts(op, c, Against(op, true, c)).None?
  {
    if op == Mul && c != -1 { Twice(c); }
  }

  lemma {:induction false} KnownRightFails(op: Opcode, x: int64, c: int64)
    requires Arithmetic(op) && !RightRule(op, c) && !(op == Mod && c == -1) && !(op == Pow && (c == 0 || c == 1))
    ensures OnInts(op, Against(op, false, c), c).None?
  {
    if op == Mul && c != -1 { Twice(c); }
    if op == Pow && c > 1 { BigPower(c); }
  }

  lemma {:induction false} Twice(c: int)
    requires c >= 2 || c <= -2
    ensures !Fits(c * MAX) && !Fits(MAX * c)
  {
  }

  lemma {:induction false} BigPower(c: nat)
    requires c >= 2
    ensures !Fits(IntPower.Pow(MAX, c))
  {
    IntPower.PowNotZero(MAX, c - 2);
    var p := IntPower.Pow(MAX, c - 2);
    assert IntPower.Pow(MAX, c) == MAX * (MAX * p);
    IntPower.ProductAssoc(MAX, MAX, p);
    SignedProduct(MAX * MAX, p);
    IntPower.Grows(MAX * MAX, Abs(p));
  }

  lemma {:induction false} NeitherKnownFails(op: Opcode)
    requires Arithmetic(op)
    ensures OnInts(op, MIN, Against(op, true, MIN)).None?
  {
    KnownLeftFails(op, MIN);
  }

  /** Two integer operands of which at most one is a constant: some values overflow, unless a rule excludes it. */
  lemma {:induction false} ArithmeticFails(ins: Instr) returns (x: int64, y: int64)
    requires Arithmetic(ins.op) && |ins.operands| == 2 && !(IntConstant(ins, 0).Some? && IntConstant(ins, 1).Some?)
    requires var a, b := IntConstant(ins, 0), IntConstant(ins, 1);
             !(a.Some? && LeftRule(ins.op, a.value)) && !(b.Some? && RightRule(ins.op, b.value)) && !Overcautious(ins)
    ensures IntConstant(ins, 0).Some? ==> x == IntConstant(ins, 0).value
    ensures IntConstant(ins, 1).Some? ==> y == IntConstant(ins, 1).value
    ensures OnInts(ins.op, x, y).None?
  {
    hide OnInts, LeftRule, RightRule;
    var op := ins.op;
    var a, b := IntConstant(ins, 0), IntConstant(ins, 1);
    if a.Some? {
      KnownLeftFails(op, a.value);
      x, y := a.value, Against(op, true, a.value);
    } else if b.Some? {
      KnownRightFails(op, 0, b.value);
      x, y := Against(op, false, b.value), b.value;
    } else {
      NeitherKnownFails(op);
      x, y := MIN, Against(op, true, MIN);
    }
  }

  // ---------- the operands of the declared types ----------

  /** An integer operand is a constant or has the type of integers. */
  predicate IntOperand(o: Operand) { OperandType(o) == IntType }

  lemma {:induction false} IntPair(ins: Instr)
    requires WellTyped(ins) && Arithmetic(ins.op) && NoDoubles(ins.operands) && !HasText(ins)
    ensures |ins.operands| == 2 && IntOperand(ins.operands[0]) && IntOperand(ins.operands[1])
  {
    if AllNumeric(ins.operands) {
      assert Numeric(OperandType(ins.operands[0])) && Numeric(OperandType(ins.operands[1]));
    }
  }

  lemma {:induction false} TwoConstants(ins: Instr)
    requires |ins.operands| == 2 && ins.operands[0].Const? && ins.operands[1].Const?
    ensures Constants(ins.operands) == Some([ins.operands[0].v, ins.operands[1].v])
  {
    var os := ins.operands;
    assert Constants(os[2..]) == Some([]);
    assert os[1..][1..] == os[2..];
    assert Constants(os[1..]) == Some([os[1].v] + []) && [os[1].v] + [] == [os[1].v];
    assert [os[0].v] + [os[1].v] == [os[0].v, os[1].v];
  }

  lemma {:induction false} KnownPairFails(ins: Instr)
    requires ins.result.Some? && Arithmetic(ins.op) && |ins.operands| == 2
    requires IntConstant(ins, 0).Some? && IntConstant(ins, 1).Some? && Fold(ins).None?
    ensures Compute(ins.op, [ins.operands[0].v, ins.operands[1].v]).None?
  {
    hide OnInts;
    TwoConstants(ins);
  }

  lemma {:induction false} PairComputes(op: Opcode, x: int64, y: int64)
    requires Arithmetic(op)
    ensures Compute(op, [Int(x), Int(y)]) == OnInts(op, x, y)
  {
    hide OnInts;
  }

  lemma {:induction false} ArithmeticCanFail(ins: Instr)
    requires WellTyped(ins) && ins.result.Some? && Arithmetic(ins.op) && NoDoubles(ins.operands)
    requires CanRaise(ins) && !Overcautious(ins)
    ensures CanFail(ins)
  {
    hide Fitting, OnInts, Compute, WellTyped, Fold, LeftRule, RightRule, Overcautious, NoDoubles, Against;
    IntPair(ins) by { NoTextRaises(ins); }
    var os := ins.operands;
    var x, y := 0, 0;
    if IntConstant(ins, 0).Some? && IntConstant(ins, 1).Some? {
      KnownPairFails(ins);
    } else {
      RulesSilent(ins);
      x, y := ArithmeticFails(ins);
      PairComputes(ins.op, x, y);
    }
    PairFits(os[0], os[1], Int(x), Int(y));
    assert os == [os[0], os[1]];
  }

  lemma {:induction false} NoTextRaises(ins: Instr)
    requires WellTyped(ins) && ins.result.Some? && Arithmetic(ins.op) && CanRaise(ins)
    ensures !HasText(ins)
  {
    if ins.op != Add {
      if AllNumeric(ins.operands) { NotText(ins); } else { IntsNotText(ins); }
    }
  }

  lemma {:induction false} RulesSilent(ins: Instr)
    requires ins.result.Some? && Arithmetic(ins.op) && CanRaise(ins) && |ins.operands| == 2
    requires !(IntConstant(ins, 0).Some? && IntConstant(ins, 1).Some?)
    ensures var a, b := IntConstant(ins, 0), IntConstant(ins, 1);
            !(a.Some? && LeftRule(ins.op, a.value)) && !(b.Some? && RightRule(ins.op, b.value))
  {
    hide Fold;
  }

  lemma {:induction false} ComparisonCanFail(ins: Instr)
    requires WellTyped(ins) && Ordering(ins.op) && !AllNumeric(ins.operands)
    ensures CanFail(ins)
  {
    var os := ins.operands;
    var j: nat :| j < 2 && !Numeric(OperandType(os[j]));
    var x, y := Pick(os[0], Sample(OperandType(os[0]))), Pick(os[1], Sample(OperandType(os[1])));
    PairFits(os[0], os[1], x, y);
    assert os == [os[0], os[1]];
    assert Compute(ins.op, [x, y]).None?;
  }

  /** A value of the type; for the unknown type one that is no number. */
  function Sample(ty: Type): Value {
    match ty
    case IntType => Int(0)
    case DoubleType => Double(0.0)
    case BoolType => Bool(false)
    case TextType => Text("")
    case Unknown => Nil
  }

  lemma {:induction false} NegationCanFail(ins: Instr)
    requires WellTyped(ins) && ins.result.Some? && ins.op == Neg && CanRaise(ins)
    ensures CanFail(ins)
  {
    var o := ins.operands[0];
    assert Numeric(OperandType(o));
    assert ins.operands == [o];
    if o.Const? {
      assert Constants(ins.operands[1..]) == Some([]);
      assert Constants(ins.operands) == Some([o.v] + []) && [o.v] + [] == [o.v];
      assert Fitting(ins.operands, [o.v]);
    } else {
      assert Fitting(ins.operands, [Int(MIN)]);
    }
  }

  lemma {:induction false} RangeCanFail(ins: Instr)
    requires WellTyped(ins) && ins.op == RangeInBounds && NoDoubles(ins.operands) && !Overcautious(ins)
    ensures CanFail(ins)
  {
    var os := ins.operands;
    var vs := [Pick(os[0], Sample(OperandType(os[0]))), Pick(os[1], Sample(OperandType(os[1]))), Pick(os[2], Sample(OperandType(os[2])))];
    assert Fitting(os, vs);
    if !AllNumeric(os) {
      var j: nat :| j < 3 && !Numeric(OperandType(os[j]));
      assert !IsNumber(vs[j]);
    } else {
      assert Numeric(OperandType(os[2]));
    }
    assert Compute(ins.op, vs).None?;
  }

  // ---------- operations that cannot raise all the same ----------

  lemma {:induction false} OvercautiousPair(op: Opcode, x: int64)
    ensures OnInts(Sub, -1, x).Some? && OnInts(Mod, x, -1).Some? && OnInts(Pow, x, 0).Some? && OnInts(Pow, x, 1).Some?
  {
    assert IntPower.Pow(x, 0) == 1 && IntPower.Pow(x, 1) == x * IntPower.Pow(x, 0);
  }

  lemma {:induction false} OvercautiousComputes(ins: Instr, vs: seq<Value>)
    requires WellTyped(ins) && NoDoubles(ins.operands) && Overcautious(ins) && Fitting(ins.operands, vs)
    ensures Compute(ins.op, vs).Some?
  {
    hide OnInts, Fitting, WellTyped, NoDoubles;
    SameLength(ins.operands, vs);
    if |vs| == 3 {
      NumericFits(ins.operands, vs, 0);
      NumericFits(ins.operands, vs, 1);
      FittingAt(ins.operands, vs, 2);
    } else {
      OvercautiousIsNumeric(ins);
      IntPair(ins);
      FittingAt(ins.operands, vs, 0);
      FittingAt(ins.operands, vs, 1);
      assert vs == [Int(vs[0].i), Int(vs[1].i)];
      PairComputes(ins.op, vs[0].i, vs[1].i);
      OvercautiousPair(ins.op, if ins.op == Sub then vs[1].i else vs[0].i);
    }
  }

  lemma {:induction false} OvercautiousIsNumeric(ins: Instr)
    requires WellTyped(ins) && Overcautious(ins) && |ins.operands| == 2
    ensures Arithmetic(ins.op) && !HasText(ins)
  {
    NotText(ins);
  }

  lemma {:induction false} OneUnknown(os: seq<Operand>, k: nat)
    requires k < |os| && !os[k].Const?
    ensures Constants(os).None?
    decreases k
  {
    if k > 0 { OneUnknown(os[1..], k - 1); }
  }

  lemma {:induction false} OvercautiousJudged(ins: Instr)
    requires WellTyped(ins) && NoDoubles(ins.operands) && Overcautious(ins)
    ensures CanRaise(ins)
  {
    hide NoDoubles, WellTyped;
    if |ins.operands| == 2 {
      OvercautiousIsNumeric(ins);
      IntPair(ins);
      OneUnknown(ins.operands, if ins.op == Sub then 1 else 0);
    } else if Fold(ins).Some? {
      ConstantsLength(ins.operands);
    }
  }

  lemma {:induction false} ConstantsLength(os: seq<Operand>)
    requires Constants(os).Some?
    ensures |Constants(os).value| == |os|
  {
    if os != [] { ConstantsLength(os[1..]); }
  }

  // ---------- the judgement ----------

  lemma {:induction false} CanRaiseMeans(ins: Instr)
    requires WellTyped(ins) && ins.result.Some? && MayThrow in ClassifyOpcode(ins.op) && !ins.op.Effectful?
    requires NoDoubles(ins.operands) && CanRaise(ins) && !Overcautious(ins)
    ensures CanFail(ins)
  {
    hide Overcautious, WellTyped, Fold, LeftRule, RightRule, CanFail;
    if Arithmetic(ins.op) {
      ArithmeticCanFail(ins);
    } else if Ordering(ins.op) {
      ComparisonCanFail(ins);
    } else if ins.op == Neg {
      NegationCanFail(ins);
    } else if ins.op == RangeInBounds {
      RangeCanFail(ins);
    }
  }

  /** A computation on integers, truth values, text and values of unknown type that has a result: it is judged able to raise
      exactly if some operands of the declared types make it raise, or it is one of the four overcautious forms, which never raise. */
  lemma {:induction false} MayThrowExactly(ins: Instr)
    requires WellTyped(ins) && ins.result.Some? && NoDoubles(ins.operands)
    requires !ins.op.Load? && !ins.op.Store? && !ins.op.Effectful?
    ensures MayThrow in Classify(ins) <==> CanFail(ins) || Overcautious(ins)
    ensures Removable(ins) <==> !CanFail(ins) && !Overcautious(ins)
    ensures Overcautious(ins) ==> !CanFail(ins)
  {
    hide Overcautious, WellTyped, CanRaise, NoDoubles, Fitting, Compute;
    if Overcautious(ins) {
      OvercautiousJudged(ins);
      OvercautiousThrows(ins);
      forall vs | Fitting(ins.operands, vs) ensures Compute(ins.op, vs).Some? { OvercautiousComputes(ins, vs); }
    }
    if MayThrow !in ClassifyOpcode(ins.op) {
      assert ClassifyOpcode(ins.op) == {Pure};
      forall vs | Fitting(ins.operands, vs) ensures Compute(ins.op, vs).Some? { PlainlyPure(ins, vs); }
    } else if CanRaise(ins) {
      if !Overcautious(ins) { CanRaiseMeans(ins); }
    } else {
      forall vs | Fitting(ins.operands, vs) ensures Compute(ins.op, vs).Some? { NeverRaises(ins, vs); }
    }
  }

  lemma {:induction false} OvercautiousThrows(ins: Instr)
    requires Overcautious(ins)
    ensures MayThrow in ClassifyOpcode(ins.op)
  {
  }

  // ---------- constants that must fold ----------

  predicate SameKind(vs: seq<Value>) {
    forall j, k :: 0 <= j < |vs| && 0 <= k < |vs| ==> TypeOf(vs[j]) == TypeOf(vs[k])
  }

  /** An operation on constants folds exactly if it computes a value and they are of one kind, or are numbers that are compared;
      but type tests, null tests and range tests never fold, logic folds only on truth values, and only integers are widened. */
  lemma {:induction false} LiteralsFold(ins: Instr)
    requires Constants(ins.operands).Some?
    ensures var vs := Constants(ins.operands).value;
            Fold(ins).Some? <==>
            && ins.result.Some? && Compute(ins.op, vs).Some?
            && (SameKind(vs) || (ins.op in {Eq, Ne, Lt, Le, Gt, Ge} && forall k :: 0 <= k < |vs| ==> IsNumber(vs[k])))
            && !ins.op.TypeTest? && !ins.op.IsNull? && !ins.op.RangeInBounds?
            && (ins.op in {Not, And, Or} ==> forall k :: 0 <= k < |vs| ==> vs[k].Bool?)
            && (ins.op.Widen? ==> vs[0].Int?)
  {
    hide Constants, OnInts, OnDoubles, Rounded;
    var vs := Constants(ins.operands).value;
    if |vs| == 1 {
      OneFolds(ins.op, vs[0]);
      assert vs == [vs[0]];
    } else if |vs| == 2 {
      if TypeOf(vs[0]) == TypeOf(vs[1]) { PairFolds(ins.op, vs[0], vs[1]); } else { MixedFolds(ins.op, vs[0], vs[1]); }
      assert vs == [vs[0], vs[1]];
    }
  }

  /** The exceptions above, for one list of constants. */
  predicate Excluded(op: Opcode, vs: seq<Value>) {
    || op.TypeTest? || op.IsNull? || op.RangeInBounds?
    || (op in {Not, And, Or} && exists k :: 0 <= k < |vs| && !vs[k].Bool?)
    || (op.Widen? && |vs| > 0 && !vs[0].Int?)
  }

  lemma {:induction false} OneFolds(op: Opcode, a: Value)
    ensures Foldable(op, [a]) && FoldValue(op, [a]).Some? <==> Compute(op, [a]).Some? && !Excluded(op, [a])
  {
    hide Rounded;
    var vs := [a];
    assert vs[0] == a;
  }

  lemma {:induction false} MixedFolds(op: Opcode, a: Value, b: Value)
    requires TypeOf(a) != TypeOf(b)
    ensures Foldable(op, [a, b]) && FoldValue(op, [a, b]).Some? <==> op in {Eq, Ne, Lt, Le, Gt, Ge} && IsNumber(a) && IsNumber(b)
    ensures op in {Eq, Ne, Lt, Le, Gt, Ge} && IsNumber(a) && IsNumber(b) ==> Compute(op, [a, b]).Some?
  {
    hide Rounded, OnInts, EqualValues, Show;
    var vs := [a, b];
    assert vs[0] == a && vs[1] == b;
    assert Ordering(op) && IsNumber(a) && IsNumber(b) ==> OnPair(op, a, b).Some?;
  }

  lemma {:induction false} PairFolds(op: Opcode, a: Value, b: Value)
    requires TypeOf(a) == TypeOf(b)
    ensures Foldable(op, [a, b]) && FoldValue(op, [a, b]).Some? <==> Compute(op, [a, b]).Some? && !Excluded(op, [a, b])
  {
    if IsNumber(a) { NumbersFold(op, a, b); } else { OthersFold(op, a, b); }
  }

  lemma {:induction false} NumbersFold(op: Opcode, a: Value, b: Value)
    requires TypeOf(a) == TypeOf(b) && IsNumber(a)
    ensures Foldable(op, [a, b]) && FoldValue(op, [a, b]).Some? <==> Compute(op, [a, b]).Some? && !Excluded(op, [a, b])
  {
    hide Rounded, EqualValues, OnInts, OnDoubles;
    var vs := [a, b];
    assert vs[0] == a && vs[1] == b;
    NumbersCompute(op, a, b);
  }

  lemma {:induction false} NumbersCompute(op: Opcode, a: Value, b: Value)
    requires TypeOf(a) == TypeOf(b) && IsNumber(a)
    ensures Ordering(op) ==> OnDoubles(op, Rounded(a), Rounded(b)).Some? && Compute(op, [a, b]).Some?
    ensures !(op in {Add, Sub, Mul, Div, Mod, Pow, BitAnd, BitOr, BitXor, Shl, Shr, Ushr, Eq, Ne, And, Or}) && !Ordering(op) ==>
              Compute(op, [a, b]).None?
    ensures op in {BitAnd, BitOr, BitXor, Shl, Shr, Ushr} && a.Double? ==> Compute(op, [a, b]).None?
  {
    hide Rounded, EqualValues;
    var vs := [a, b];
    assert vs[0] == a && vs[1] == b;
  }

  lemma {:induction false} OthersFold(op: Opcode, a: Value, b: Value)
    requires TypeOf(a) == TypeOf(b) && !IsNumber(a)
    ensures Foldable(op, [a, b]) && FoldValue(op, [a, b]).Some? <==> Compute(op, [a, b]).Some? && !Excluded(op, [a, b])
  {
    hide Rounded, EqualValues, OnInts, OnDoubles, Show;
    var vs := [a, b];
    assert vs[0] == a && vs[1] == b;
  }

  // ---------- the operations, told by those of the language ----------

  function FromLanguage(v: BytecodeVm.Value): Value {
    match v
    case Nil => Nil
    case Bool(b) => Bool(b)
    case Int(i) => Int(i)
  }

  function BinaryOpcode(op: BytecodeVm.BinaryOp): Opcode {
    match op
    case Add => Add
    case Sub => Sub
    case Mul => Mul
    case Div => Div
    case Mod => Mod
    case Pow => Pow
    case Eq => Eq
    case Neq => Ne
    case Lt => Lt
    case Gt => Gt
    case Lte => Le
    case Gte => Ge
    case BitAnd => BitAnd
    case BitOr => BitOr
    case BitXor => BitXor
    case Shl => Shl
    case Shr => Shr
    case Ushr => Ushr
  }

  function UnaryOpcode(op: BytecodeVm.UnaryOp): Opcode {
    match op
    case Neg => Neg
    case Not => Not
    case BitNot => BitNot
  }

  function Outcome(r: BytecodeVm.Result<BytecodeVm.Value>): Option<Value> {
    match r
    case Ok(v) => Some(FromLanguage(v))
    case Err(_) => None
  }

  /** On nil, truth values and integers the MIR computes what the stack machine computes, and raises where that raises. */
  lemma {:induction false} SameAsMachine(op: BytecodeVm.BinaryOp, a: BytecodeVm.Value, b: BytecodeVm.Value)
    ensures Compute(BinaryOpcode(op), [FromLanguage(a), FromLanguage(b)]) == Outcome(BytecodeVm.ApplyBinary(op, a, b))
  {
    var x, y := FromLanguage(a), FromLanguage(b);
    var vs := [x, y];
    assert vs[0] == x && vs[1] == y;
    if a.Int? && b.Int? { assert Number(x) == Number(y) <==> a.i == b.i; }
  }

  lemma {:induction false} SameAsMachineOnOne(op: BytecodeVm.UnaryOp, a: BytecodeVm.Value)
    ensures Compute(UnaryOpcode(op), [FromLanguage(a)]) == Outcome(BytecodeVm.ApplyUnary(op, a))
  {
  }

  /** `+` with text on either side takes any operand on the other, and is never judged able to raise. */
  lemma {:induction false} TextIsSafe(result: nat, a: Operand, b: Operand)
    requires OperandType(a) == TextType || OperandType(b) == TextType
    ensures WellTyped(Instr(Some(result), Add, [a, b])) && !CanRaise(Instr(Some(result), Add, [a, b]))
  {
  }

  // ---------- tests ----------

  /** What counts as false. */
  lemma {:induction false} FalseLaw(v: Value)
    ensures Compute(Not, [v]) == Some(Bool(v in {Nil, Bool(false), Int(0), Double(0.0), Text("")}))
  {
  }

  /** What the tests of types answer, and that a value has the type it is given. */
  lemma {:induction false} TestLaw(v: Value)
    ensures Compute(IsNull, [v]) == Some(Bool(v == Nil)) && Compute(Widen, [v]) == Some(v)
    ensures Compute(TypeTest(IntType), [v]) == Some(Bool(v.Int?)) && Compute(TypeTest(DoubleType), [v]) == Some(Bool(v.Int? || v.Double?))
    ensures Compute(TypeTest(BoolType), [v]) == Some(Bool(v.Bool?)) && Compute(TypeTest(TextType), [v]) == Some(Bool(v.Text?))
    ensures HasType(v, TypeOf(v))
  {
  }

  /** Logic is on truth values, whatever the operands; values of different kinds are equal only as numbers. */
  lemma {:induction false} LogicLaw(a: Value, b: Value)
    ensures Compute(And, [a, b]) == Some(Bool(Compute(Not, [a]) == Compute(Not, [b]) == Some(Bool(false))))
    ensures Compute(Or, [a, b]) == Some(Bool(Compute(Not, [a]) == Some(Bool(false)) || Compute(Not, [b]) == Some(Bool(false))))
    ensures !(IsNumber(a) && IsNumber(b)) ==> Compute(Eq, [a, b]) == Some(Bool(a == b)) && Compute(Ne, [a, b]) == Some(Bool(a != b))
  {
    var vs := [a, b];
    assert vs[0] == a && vs[1] == b;
  }

  /** The test of a counted loop: with a step up it goes on while something positive is missing to the end, with a step down while
      something negative is, and a step of zero or an operand that is no number raises. */
  lemma {:induction false} RangeLaw(current: Value, end: Value, step: Value, d: real)
    ensures (IsNumber(current) && IsNumber(end) && IsNumber(step) && Number(step) != 0.0) <==> Compute(RangeInBounds, [current, end, step]).Some?
    ensures IsNumber(current) && IsNumber(end) && IsNumber(step) && Number(end) == Number(current) + d ==>
              && (Number(step) > 0.0 ==> Compute(RangeInBounds, [current, end, step]) == Some(Bool(d > 0.0)))
              && (Number(step) < 0.0 ==> Compute(RangeInBounds, [current, end, step]) == Some(Bool(d < 0.0)))
  {
  }

  // ---------- text ----------

  /** The number that decimal digits stand for. */
  function Digits(s: string): int {
    if s == "" then 0 else Digits(s[..|s| - 1]) * 10 + (s[|s| - 1] as int - '0' as int)
  }

  /** A number that is not negative is printed in decimal digits, without a zero in front; a minus sign makes it negative. */
  lemma {:induction false} IntegerPrints(i: int)
    ensures i >= 0 ==> Digits(ShowInt(i)) == i && (forall k :: 0 <= k < |ShowInt(i)| ==> '0' <= ShowInt(i)[k] <= '9')
    ensures i >= 0 ==> ShowInt(i) != "" && (i > 0 ==> ShowInt(i)[0] != '0')
    ensures i < 0 ==> ShowInt(i) == "-" + ShowInt(-i)
    decreases if i < 0 then 1 - i else i
  {
    if i >= 10 {
      IntegerPrints(i / 10);
      LastDigit(i);
      assert ShowInt(i)[..|ShowInt(i)| - 1] == ShowInt(i / 10);
    } else if i >= 0 {
      assert ShowInt(i)[..0] == "" && Digits("") == 0;
    }
  }

  lemma {:induction false} LastDigit(i: int)
    requires i >= 0
    ensures i / 10 * 10 + i % 10 == i
  {
  }

  /** `+` with text on one side joins the text with what the other side prints. */
  lemma {:induction false} TextLaw(t: string, v: Value)
    ensures Compute(Add, [Text(t), v]) == Some(Text(t + Show(v))) && Compute(Add, [v, Text(t)]) == Some(Text(Show(v) + t))
    ensures Show(Nil) == "nil" && Show(Bool(true)) == "true" && Show(Bool(false)) == "false" && Show(Text(t)) == t
    ensures v.Int? ==> Show(v) == ShowInt(v.i)
  {
    hide ShowInt;
    var a, b := [Text(t), v], [v, Text(t)];
    assert a[0] == Text(t) && a[1] == v && b[0] == v && b[1] == Text(t);
  }

  // ---------- numbers ----------

  predicate OneDouble(a: Value, b: Value) { IsNumber(a) && IsNumber(b) && (a.Double? || b.Double?) }

  /** On a double beside a number: sums, differences and quotients undo each other, up to results that are no doubles, and
      dividing by zero raises. */
  lemma {:induction false} DoubleArithmetic(a: Value, b: Value, r: finite)
    requires OneDouble(a, b)
    ensures Compute(Add, [a, b]) == Some(Double(r)) <==> r - Number(b) == Number(a)
    ensures Compute(Sub, [a, b]) == Some(Double(r)) <==> r + Number(b) == Number(a)
    ensures Number(b) == 0.0 ==> Compute(Div, [a, b]) == Compute(Mod, [a, b]) == None
    ensures Number(b) != 0.0 ==> (Compute(Div, [a, b]) == Some(Double(r)) <==> r * Number(b) == Number(a))
  {
    hide OnDoubles;
    MixedPair(Add, a, b);
    MixedPair(Sub, a, b);
    MixedPair(Div, a, b);
    MixedPair(Mod, a, b);
    Sums(Number(a), Number(b), r);
    if Number(b) != 0.0 { QuotientOf(Number(a), Number(b), r); }
  }

  lemma {:induction false} Sums(x: finite, y: finite, r: finite)
    ensures OnDoubles(Add, x, y) == Some(Double(r)) <==> r - y == x
    ensures OnDoubles(Sub, x, y) == Some(Double(r)) <==> r + y == x
    ensures OnDoubles(Div, x, 0.0) == OnDoubles(Mod, x, 0.0) == None
  {
  }

  lemma {:induction false} QuotientOf(x: finite, y: finite, r: finite)
    requires y != 0.0
    ensures OnDoubles(Div, x, y) == Some(Double(r)) <==> r * y == x
  {
    var z := x / y;
    assert OnDoubles(Div, x, y) == CheckedDouble(z);
    Quotients(x, y, z, r);
  }

  lemma {:induction false} MixedPair(op: Opcode, a: Value, b: Value)
    requires OneDouble(a, b)
    ensures op in {Add, Sub, Mul, Div, Mod, Lt, Le, Gt, Ge} ==> Compute(op, [a, b]) == OnDoubles(op, Number(a), Number(b))
    ensures Compute(Eq, [a, b]) == Some(Bool(Number(a) == Number(b)))
    ensures Compute(Ne, [a, b]) == Some(Bool(Number(a) != Number(b)))
  {
    hide OnDoubles, OnInts;
    var vs := [a, b];
    assert vs[0] == a && vs[1] == b;
  }

  lemma {:induction false} Quotients(x: real, y: real, z: real, r: real)
    requires y != 0.0 && z == x / y
    ensures z == r <==> r * y == x
  {
    assert z * y == x;
    if z < r { NotEqual(z, r, y); }
    if r < z { NotEqual(r, z, y); }
  }

  lemma {:induction false} NotEqual(a: real, b: real, y: real)
    requires a < b && y != 0.0
    ensures a * y != b * y
  {
    if y > 0.0 { Wider(a, b, y); } else { Wider(a, b, -y); }
  }

  /** The remainder of doubles has the sign of the dividend, is smaller than the divisor, and is off by a whole multiple of it. */
  lemma {:induction false} DoubleRemainder(a: Value, b: Value) returns (q: int, r: finite)
    requires OneDouble(a, b) && Number(b) != 0.0
    ensures Compute(Mod, [a, b]) == Some(Double(r))
    ensures Number(a) == q as real * Number(b) + r && AbsR(r) < AbsR(Number(b)) && (r != 0.0 ==> (r > 0.0 <==> Number(a) > 0.0))
  {
    MixedPair(Mod, a, b);
    q := RealQuotient(Number(a), Number(b));
    r := RealMod(Number(a), Number(b));
  }

  lemma {:induction false} RealQuotient(x: real, y: real) returns (q: int)
    requires y != 0.0
    ensures var r := RealMod(x, y); x == q as real * y + r && AbsR(r) < AbsR(y) && (r != 0.0 ==> (r > 0.0 <==> x > 0.0))
  {
    hide RealMod;
    var n, p := WholePart(x, y);
    q := SignedMultiple(n, y, p, x < 0.0);
  }

  lemma {:induction false} WholePart(x: real, y: real) returns (n: int, p: real)
    requires y != 0.0
    ensures p == n as real * AbsR(y) && 0.0 <= AbsR(x) - p < AbsR(y)
    ensures RealMod(x, y) == if x < 0.0 then p - AbsR(x) else AbsR(x) - p
  {
    hide AbsR;
    assert AbsR(y) > 0.0 by { Positive(y); }
    n := (AbsR(x) / AbsR(y)).Floor;
    p := n as real * AbsR(y);
    FloorBelow(AbsR(x), AbsR(y));
    FloorAbove(AbsR(x), AbsR(y));
  }

  lemma {:induction false} Positive(y: real)
    requires y != 0.0
    ensures AbsR(y) > 0.0
  {
  }

  lemma {:induction false} SignedMultiple(n: int, y: real, p: real, negative: bool) returns (q: int)
    requires p == n as real * AbsR(y)
    ensures q as real * y == if negative then -p else p
  {
    q := if negative == (y < 0.0) then n else -n;
    Negated(n, y);
  }

  lemma {:induction false} Negated(n: int, y: real)
    ensures (-n) as real * y == -(n as real * y) && n as real * -y == -(n as real * y)
  {
  }

  lemma {:induction false} FloorAbove(x: real, y: real)
    requires x >= 0.0 && y > 0.0
    ensures x < (x / y).Floor as real * y + y
  {
    var z := x / y;
    assert z * y == x;
    var n := z.Floor as real;
    assert n + 1.0 > z;
    Wider(z, n + 1.0, y);
    assert (n + 1.0) * y == n * y + y;
  }

  lemma {:induction false} Wider(a: real, b: real, y: real)
    requires a < b && y > 0.0
    ensures a * y < b * y
  {
    assert (b - a) * y > 0.0;
  }

  /** The comparisons of numbers are told by what has to be added to the one to get the other. */
  lemma {:induction false} DoubleOrder(a: Value, b: Value, d: real)
    requires OneDouble(a, b) && Number(b) == Number(a) + d
    ensures Compute(Lt, [a, b]) == Compute(Gt, [b, a]) == Some(Bool(d > 0.0))
    ensures Compute(Le, [a, b]) == Compute(Ge, [b, a]) == Some(Bool(d >= 0.0))
    ensures Compute(Eq, [a, b]) == Compute(Eq, [b, a]) == Some(Bool(d == 0.0))
    ensures Compute(Ne, [a, b]) == Compute(Ne, [b, a]) == Some(Bool(d != 0.0))
  {
    MixedPair(Lt, a, b);
    MixedPair(Le, a, b);
    MixedPair(Gt, b, a);
    MixedPair(Ge, b, a);
  }
}

/** What an instruction may do besides computing its result (src/mir/effects.cpp): which operations cannot raise, and which
    instructions may therefore be deleted when nothing reads their result. */
module MirEffects {
  import opened Wrappers
  import opened Int64
  import Bits
  import Doubles
  import IntPower

  // ---------- values and types ----------

  /** The largest finite double. */
  const HUGE: real := 179769313486231570814527423731704356798070567525844996598917476803157260780028538760589558632766878171540458953514382464234321326889464182768467546703537516986049910576551282076245490090389328944075868508455133942304583236903222948165808559332123348274797826204144723168738177180919299881250404026184124858368 as real

  /** Doubles are finite: an operation whose result is not raises. */
  type finite = r: real | -HUGE <= r <= HUGE

  datatype Value = Nil | Bool(b: bool) | Int(i: int64) | Double(d: finite) | Text(s: string)

  datatype Type = IntType | DoubleType | BoolType | TextType | Unknown

  function TypeOf(v: Value): Type {
    match v
    case Nil => Unknown
    case Bool(_) => BoolType
    case Int(_) => IntType
    case Double(_) => DoubleType
    case Text(_) => TextType
  }

  /** Widening an integer changes nothing at run time, so a value of type double may be an integer. */
  predicate HasType(v: Value, ty: Type) {
    match ty
    case Unknown => true
    case IntType => v.Int?
    case DoubleType => v.Int? || v.Double?
    case BoolType => v.Bool?
    case TextType => v.Text?
  }

  // ---------- instructions ----------

  /** The opcodes that compute or access a local; `Effectful` stands for every other one: calls, output, allocation, heap
      access, checks, tasks, threads, locks, native resources and lifetime events. Some of them read
      a local (moves, drops, ends of borrows), some set one (borrows). */
  datatype Opcode =
    | Add | Sub | Mul | Div | Mod | Pow | Neg
    | BitAnd | BitOr | BitXor | BitNot
    | Shl | Shr | Ushr
    | Eq | Ne | Lt | Le | Gt | Ge
    | Not | And | Or
    | Widen | TypeTest(tested: Type) | IsNull
    | RangeInBounds
    | Load(slot: string) | Store(slot: string)
    | Effectful(name: string, ty: Type, source: Option<string>, target: Option<string>)

  datatype ValueId = Param(index: nat) | BlockParam(index: nat) | Temp(index: nat)

  datatype Operand = Const(v: Value) | Use(id: ValueId, ty: Type)

  datatype Instr = Instr(result: Option<nat>, op: Opcode, operands: seq<Operand>)

  function OperandType(o: Operand): Type {
    match o
    case Const(v) => TypeOf(v)
    case Use(_, ty) => ty
  }

  // ---------- arithmetic on doubles ----------

  function AbsR(x: real): (r: real)
    ensures r >= 0.0
  {
    if x < 0.0 then -x else x
  }

  /** The remainder of a division that rounds towards zero. */
  function RealMod(x: real, y: real): (r: real)
    requires y != 0.0
    ensures AbsR(r) <= AbsR(x)
  {
    var q := (AbsR(x) / AbsR(y)).Floor;
    FloorBelow(AbsR(x), AbsR(y));
    var m := AbsR(x) - q as real * AbsR(y);
    if x < 0.0 then -m else m
  }

  lemma {:induction false} FloorBelow(x: real, y: real)
    requires x >= 0.0 && y > 0.0
    ensures var q := (x / y).Floor; 0.0 <= q as real * y <= x
  {
    var z := x / y;
    assert z * y == x;
    assert z >= 0.0;
    RealScaled(z.Floor as real, z, y);
    RealScaled(0.0, z.Floor as real, y);
  }

  lemma {:induction false} RealScaled(a: real, b: real, y: real)
    requires a <= b && y > 0.0
    ensures a * y <= b * y
  {
  }

  function CheckedDouble(r: real): Option<Value> {
    if -HUGE <= r <= HUGE then Some(Double(r)) else None
  }

  predicate IsNumber(v: Value) { v.Int? || v.Double? }

  function Number(v: Value): (r: real)
    requires IsNumber(v)
    ensures -HUGE <= r <= HUGE
  {
    if v.Int? then v.i as real else v.d
  }

  /** Powers of doubles are not modelled. */
  function OnDoubles(op: Opcode, x: finite, y: finite): Option<Value> {
    match op
    case Add => CheckedDouble(x + y)
    case Sub => CheckedDouble(x - y)
    case Mul => CheckedDouble(x * y)
    case Div => if y == 0.0 then None else CheckedDouble(x / y)
    case Mod => if y == 0.0 then None else Some(Double(RealMod(x, y)))
    case Lt => Some(Bool(x < y))
    case Le => Some(Bool(x <= y))
    case Gt => Some(Bool(x > y))
    case Ge => Some(Bool(x >= y))
    case _ => None
  }

  // ---------- arithmetic on integers ----------

  function IntOrNone(r: Option<int64>): Option<Value> {
    if r.Some? then Some(Int(r.value)) else None
  }

  function OnInts(op: Opcode, x: int64, y: int64): Option<Value> {
    match op
    case Add => IntOrNone(CheckedAdd(x, y))
    case Sub => IntOrNone(CheckedSub(x, y))
    case Mul => IntOrNone(CheckedMul(x, y))
    case Div => if y == 0 || (x == MIN && y == -1) then None else QuotientFits(x, y); Some(Int(TruncDiv(x, y)))
    case Mod =>
      if y == 0 then None else if x == MIN && y == -1 then Some(Int(0)) else QuotientFits(x, y); Some(Int(TruncMod(x, y)))
    case Pow => if y < 0 || !Fits(IntPower.Pow(x, y)) then None else Some(Int(IntPower.Pow(x, y)))
    case BitAnd => Some(Int(Bits.BitAnd(x, y)))
    case BitOr => Some(Int(Bits.BitOr(x, y)))
    case BitXor => Some(Int(Bits.BitXor(x, y)))
    case Shl => if 0 <= y < 64 then Some(Int(Bits.ShiftLeft(x, y))) else None
    case Shr => if 0 <= y < 64 then Some(Int(Bits.ShiftRight(x, y))) else None
    case Ushr => if 0 <= y < 64 then Some(Int(Bits.ShiftRightLogical(x, y))) else None
    case Lt => Some(Bool(x < y))
    case Le => Some(Bool(x <= y))
    case Gt => Some(Bool(x > y))
    case Ge => Some(Bool(x >= y))
    case _ => None
  }

  // ---------- what operations compute ----------

  predicate Truthy(v: Value) {
    match v
    case Nil => false
    case Bool(b) => b
    case Int(i) => i != 0
    case Double(d) => d != 0.0
    case Text(s) => s != ""
  }

  predicate EqualValues(a: Value, b: Value) {
    if IsNumber(a) && IsNumber(b) then Number(a) == Number(b) else a == b
  }

  function ShowInt(i: int): string
    decreases if i < 0 then 1 - i else i
  {
    if i < 0 then "-" + ShowInt(-i)
    else if i < 10 then ['0' + i as char]
    else ShowInt(i / 10) + ['0' + (i % 10) as char]
  }

  /** Of a double only the whole part is printed here. */
  function Show(v: Value): string {
    match v
    case Nil => "nil"
    case Bool(b) => if b then "true" else "false"
    case Int(i) => ShowInt(i)
    case Double(d) => ShowInt(d.Floor)
    case Text(s) => s
  }

  function OnPair(op: Opcode, a: Value, b: Value): Option<Value> {
    match op
    case Eq => Some(Bool(EqualValues(a, b)))
    case Ne => Some(Bool(!EqualValues(a, b)))
    case And => Some(Bool(Truthy(a) && Truthy(b)))
    case Or => Some(Bool(Truthy(a) || Truthy(b)))
    case _ =>
      if op.Add? && (a.Text? || b.Text?) then Some(Text(Show(a) + Show(b)))
      else if a.Int? && b.Int? then OnInts(op, a.i, b.i)
      else if IsNumber(a) && IsNumber(b) then OnDoubles(op, Number(a), Number(b))
      else None
  }

  function OnOne(op: Opcode, a: Value): Option<Value> {
    match op
    case Not => Some(Bool(!Truthy(a)))
    case Widen => Some(a)
    case TypeTest(ty) => Some(Bool(HasType(a, ty)))
    case IsNull => Some(Bool(a == Nil))
    case BitNot => if a.Int? then Some(Int(Bits.BitNot(a.i))) else None
    case Neg =>
      if a.Int? then (if a.i == MIN then None else Some(Int(-a.i)))
      else if a.Double? then Some(Double(-a.d))
      else None
    case _ => None
  }

  function InRange(current: Value, end: Value, step: Value): Option<Value> {
    if !IsNumber(current) || !IsNumber(end) || !IsNumber(step) then None
    else if Number(step) > 0.0 then Some(Bool(Number(current) < Number(end)))
    else if Number(step) < 0.0 then Some(Bool(Number(current) > Number(end)))
    else None
  }

  /** The result of an operation that touches no memory; none where it raises. */
  function Compute(op: Opcode, vs: seq<Value>): Option<Value> {
    if |vs| == 1 then OnOne(op, vs[0])
    else if |vs| == 2 then OnPair(op, vs[0], vs[1])
    else if |vs| == 3 && op.RangeInBounds? then InRange(vs[0], vs[1], vs[2])
    else None
  }

  // ---------- the classifier ----------

  datatype Effect = Pure | ReadsMemory | WritesMemory | MayThrow | Calls

  function ClassifyOpcode(op: Opcode): set<Effect> {
    match op
    case BitAnd => {Pure}
    case BitOr => {Pure}
    case BitXor => {Pure}
    case BitNot => {Pure}
    case Not => {Pure}
    case And => {Pure}
    case Or => {Pure}
    case Widen => {Pure}
    case TypeTest(_) => {Pure}
    case IsNull => {Pure}
    case Load(_) => {ReadsMemory}
    case Store(_) => {WritesMemory}
    case Effectful(_, _, _, _) => {Calls, MayThrow, ReadsMemory, WritesMemory}
    case _ => {Pure, MayThrow}
  }

  function Constants(os: seq<Operand>): Option<seq<Value>> {
    if os == [] then Some([])
    else
      var rest := Constants(os[1..]);
      if os[0].Const? && rest.Some? then Some([os[0].v] + rest.value) else None
  }

  /** The number as the evaluator compares it: integers become the nearest double first. */
  function Rounded(v: Value): (r: real)
    requires IsNumber(v)
    ensures -HUGE <= r <= HUGE
  {
    if v.Int? then RoundFits(v.i); Doubles.Round(v.i) as real else v.d
  }

  lemma {:induction false} RoundFits(i: int64)
    ensures -HUGE <= Doubles.Round(i) as real <= HUGE
  {
    var n: int := if i < 0 then -(i as int) else i;
    Doubles.NotNegative(n);
    Doubles.RoundAtMost(n);
  }

  predicate SameNumbers(a: Value, b: Value) { (a.Int? && b.Int?) || (a.Double? && b.Double?) }

  predicate Ordering(op: Opcode) { op in {Lt, Le, Gt, Ge} }

  /** The operand kinds on which the evaluator folds an operation. */
  predicate Foldable(op: Opcode, vs: seq<Value>) {
    if |vs| == 1 then
      match op
      case Neg => IsNumber(vs[0])
      case BitNot => vs[0].Int?
      case Not => vs[0].Bool?
      case Widen => vs[0].Int?
      case _ => false
    else if |vs| == 2 then
      var a, b := vs[0], vs[1];
      match op
      case Add => SameNumbers(a, b) || (a.Text? && b.Text?)
      case Sub => SameNumbers(a, b)
      case Mul => SameNumbers(a, b)
      case Div => SameNumbers(a, b)
      case Mod => SameNumbers(a, b)
      case Pow => SameNumbers(a, b)
      case BitAnd => a.Int? && b.Int?
      case BitOr => a.Int? && b.Int?
      case BitXor => a.Int? && b.Int?
      case Shl => a.Int? && b.Int?
      case Shr => a.Int? && b.Int?
      case Ushr => a.Int? && b.Int?
      case And => a.Bool? && b.Bool?
      case Or => a.Bool? && b.Bool?
      case Eq => TypeOf(a) == TypeOf(b) || (IsNumber(a) && IsNumber(b))
      case Ne => TypeOf(a) == TypeOf(b) || (IsNumber(a) && IsNumber(b))
      case _ => Ordering(op) && IsNumber(a) && IsNumber(b)
    else false
  }

  /** Widening gives a double, and numbers that are ordered or of two kinds are compared as doubles. Everything else is
      what the operation computes. */
  function FoldValue(op: Opcode, vs: seq<Value>): Option<Value>
    requires Foldable(op, vs)
  {
    if op.Widen? then Some(Double(Rounded(vs[0])))
    else if Ordering(op) then OnDoubles(op, Rounded(vs[0]), Rounded(vs[1]))
    else if op in {Eq, Ne} && TypeOf(vs[0]) != TypeOf(vs[1]) then Some(Bool((Rounded(vs[0]) == Rounded(vs[1])) == op.Eq?))
    else Compute(op, vs)
  }

  /** The shared evaluator (src/mir/folding.cpp), on constant operands. */
  function Fold(ins: Instr): Option<Value> {
    var vs := Constants(ins.operands);
    if ins.result.None? || vs.None? || !Foldable(ins.op, vs.value) then None else FoldValue(ins.op, vs.value)
  }

  lemma {:induction false} FoldComputes(op: Opcode, vs: seq<Value>)
    requires Foldable(op, vs) && FoldValue(op, vs).Some?
    ensures Compute(op, vs).Some?
  {
    hide Rounded;
  }

  /** The integer constant at operand `k`, if there is one. */
  function IntConstant(ins: Instr, k: nat): Option<int64> {
    if k < |ins.operands| && ins.operands[k].Const? && ins.operands[k].v.Int? then Some(ins.operands[k].v.i) else None
  }

  predicate Numeric(ty: Type) { ty == IntType || ty == DoubleType }

  predicate AllNumeric(os: seq<Operand>) {
    os != [] && forall k :: 0 <= k < |os| ==> Numeric(OperandType(os[k]))
  }

  /** A constant right operand with which the operation is taken never to raise. */
  predicate RightRule(op: Opcode, c: int64) {
    match op
    case Add => c == 0
    case Sub => c == 0
    case Mul => c == 0 || c == 1
    case Div => c != 0 && c != -1
    case Mod => c != 0 && c != -1
    case Shl => 0 <= c < 64
    case Shr => 0 <= c < 64
    case Ushr => 0 <= c < 64
    case _ => false
  }

  /** The same for a constant left operand. */
  predicate LeftRule(op: Opcode, c: int64) {
    match op
    case Add => c == 0
    case Mul => c == 0 || c == 1
    case _ => false
  }

  predicate HasText(ins: Instr) {
    |ins.operands| == 2 && (OperandType(ins.operands[0]) == TextType || OperandType(ins.operands[1]) == TextType)
  }

  predicate CanRaise(ins: Instr) {
    if ins.result.None? then true
    else if Fold(ins).Some? then false
    else
      var a, b := IntConstant(ins, 0), IntConstant(ins, 1);
      match ins.op
      case Add => !HasText(ins) && !(a.Some? && LeftRule(Add, a.value)) && !(b.Some? && RightRule(Add, b.value))
      case Sub => !(b.Some? && RightRule(Sub, b.value))
      case Mul => !(a.Some? && LeftRule(Mul, a.value)) && !(b.Some? && RightRule(Mul, b.value))
      case Div => DivisionCanRaise(a, b)
      case Mod => DivisionCanRaise(a, b)
      case Shl => !(b.Some? && RightRule(Shl, b.value))
      case Shr => !(b.Some? && RightRule(Shr, b.value))
      case Ushr => !(b.Some? && RightRule(Ushr, b.value))
      case Eq => false
      case Ne => false
      case Lt => !AllNumeric(ins.operands)
      case Le => !AllNumeric(ins.operands)
      case Gt => !AllNumeric(ins.operands)
      case Ge => !AllNumeric(ins.operands)
      case _ => true
  }

  predicate DivisionCanRaise(dividend: Option<int64>, divisor: Option<int64>) {
    if divisor.None? || divisor.value == 0 then true
    else if divisor.value == -1 then dividend.None? || dividend.value == MIN
    else false
  }

  function Classify(ins: Instr): set<Effect> {
    var effects := ClassifyOpcode(ins.op);
    if MayThrow in effects && Pure in effects && !CanRaise(ins) then effects - {MayThrow} else effects
  }

  predicate Removable(ins: Instr) {
    ins.result.Some? && Classify(ins) <= {Pure, ReadsMemory}
  }

  // ---------- what the classifier may assume ----------

  predicate Arity(op: Opcode, n: nat) {
    match op
    case Load(_) => n == 0
    case Store(_) => n == 1
    case Effectful(_, _, _, _) => true
    case Neg => n == 1
    case BitNot => n == 1
    case Not => n == 1
    case Widen => n == 1
    case TypeTest(_) => n == 1
    case IsNull => n == 1
    case RangeInBounds => n == 3
    case _ => n == 2
  }

  predicate AllInts(os: seq<Operand>) {
    forall k :: 0 <= k < |os| ==> OperandType(os[k]) == IntType
  }

  /** The type checker's rules: arithmetic is on numbers, except that `+` also joins text, and bit operations are on
      integers. A store has no result. */
  predicate WellTyped(ins: Instr) {
    && Arity(ins.op, |ins.operands|)
    && (ins.op in {Sub, Mul, Div, Mod, Pow, Neg, Widen} ==> AllNumeric(ins.operands))
    && (ins.op in {BitAnd, BitOr, BitXor, BitNot, Shl, Shr, Ushr} ==> AllInts(ins.operands))
    && (ins.op == Add ==> AllNumeric(ins.operands) || HasText(ins))
    && (ins.op.Store? ==> ins.result.None?)
  }

  /** Values that fit the declared types of the operands. */
  ghost predicate Fitting(os: seq<Operand>, vs: seq<Value>) {
    |vs| == |os| && forall k :: 0 <= k < |os| ==> HasType(vs[k], OperandType(os[k])) && (os[k].Const? ==> vs[k] == os[k].v)
  }

  lemma {:induction false} FittingAt(os: seq<Operand>, vs: seq<Value>, k: nat)
    requires Fitting(os, vs) && k < |os|
    ensures HasType(vs[k], OperandType(os[k])) && (os[k].Const? ==> vs[k] == os[k].v)
  {
  }

  lemma {:induction false} ConstantsFit(os: seq<Operand>, vs: seq<Value>)
    requires Constants(os).Some? && Fitting(os, vs)
    ensures vs == Constants(os).value
  {
    hide HasType;
    if os != [] {
      FittingAt(os, vs, 0);
      assert Fitting(os[1..], vs[1..]) by {
        forall k | 0 <= k < |os[1..]|
          ensures HasType(vs[1..][k], OperandType(os[1..][k])) && (os[1..][k].Const? ==> vs[1..][k] == os[1..][k].v)
        {
          FittingAt(os, vs, k + 1);
        }
      }
      ConstantsFit(os[1..], vs[1..]);
      assert vs == [vs[0]] + vs[1..];
    }
  }

  // ---------- the rules about constants ----------

  /** The operands an operation accepts at all. */
  predicate Takes(op: Opcode, x: Value) {
    if op in {Shl, Shr, Ushr} then x.Int? else IsNumber(x) || (op == Add && x.Text?)
  }

  lemma {:induction false} NeutralInts(op: Opcode, x: int64, c: int64)
    ensures RightRule(op, c) ==> OnInts(op, x, c).Some?
    ensures LeftRule(op, c) ==> OnInts(op, c, x).Some?
  {
  }

  lemma {:induction false} SmallQuotient(x: real, c: real)
    requires c >= 1.0 || c <= -1.0
    ensures AbsR(x / c) <= AbsR(x)
  {
    var q := x / c;
    assert q * c == x;
    if c >= 1.0 {
      if q >= 0.0 { RealScaled(1.0, c, 1.0); assert q * c >= q; } else { assert q * c <= q; }
    } else {
      if q >= 0.0 { assert q * c <= -q; } else { assert q * c >= -q; }
    }
  }

  lemma {:induction false} NeutralDoubles(op: Opcode, x: finite, c: int64)
    requires !(op in {Shl, Shr, Ushr})
    ensures RightRule(op, c) ==> OnDoubles(op, x, c as real).Some?
    ensures LeftRule(op, c) ==> OnDoubles(op, c as real, x).Some?
  {
    if op == Div && RightRule(op, c) { SmallQuotient(x, c as real); }
    if op == Mul && RightRule(op, c) { assert x * 0.0 == 0.0 && x * 1.0 == x; }
  }

  /** The rules look at the constant alone. What they promise holds exactly for the operands the operation takes: numbers,
      for `+` also text, for shifts only integers. On anything else the operation raises, so the rules rest on the types. */
  lemma {:induction false} RightRuleExact(op: Opcode, x: Value, c: int64)
    requires RightRule(op, c)
    ensures Compute(op, [x, Int(c)]).Some? <==> Takes(op, x)
  {
    hide OnInts, OnDoubles;
    if x.Int? {
      NeutralInts(op, x.i, c);
    } else if x.Double? {
      if op in {Shl, Shr, Ushr} { ShiftsNeedInts(op, x.d, c as real); } else { NeutralDoubles(op, x.d, c); }
    }
  }

  lemma {:induction false} ShiftsNeedInts(op: Opcode, x: finite, y: finite)
    requires op in {Shl, Shr, Ushr}
    ensures OnDoubles(op, x, y).None?
  {
  }

  lemma {:induction false} LeftRuleExact(op: Opcode, c: int64, x: Value)
    requires LeftRule(op, c)
    ensures Compute(op, [Int(c), x]).Some? <==> Takes(op, x)
  {
    hide OnInts, OnDoubles;
    if x.Int? {
      NeutralInts(op, x.i, c);
    } else if x.Double? {
      NeutralDoubles(op, x.d, c);
    }
  }

  // ---------- operations that cannot raise ----------

  lemma {:induction false} Comparisons(op: Opcode, a: Value, b: Value)
    requires op in {Lt, Le, Gt, Ge} && IsNumber(a) && IsNumber(b)
    ensures OnPair(op, a, b).Some?
  {
  }

  lemma {:induction false} NumericFits(os: seq<Operand>, vs: seq<Value>, k: nat)
    requires Fitting(os, vs) && AllNumeric(os) && k < |os|
    ensures IsNumber(vs[k])
  {
    FittingAt(os, vs, k);
    assert Numeric(OperandType(os[k]));
  }

  lemma {:induction false} IntsFit(os: seq<Operand>, vs: seq<Value>, k: nat)
    requires Fitting(os, vs) && AllInts(os) && k < |os|
    ensures vs[k].Int?
  {
    FittingAt(os, vs, k);
  }

  /** An operand accepted by the type checker is one the operation takes. */
  lemma {:induction false} TypedTakes(ins: Instr, vs: seq<Value>, k: nat)
    requires WellTyped(ins) && Fitting(ins.operands, vs) && k < 2 && |ins.operands| == 2 && !HasText(ins)
    requires ins.op in {Add, Sub, Mul, Div, Mod, Shl, Shr, Ushr}
    ensures Takes(ins.op, vs[k])
  {
    hide HasType, Fitting;
    if ins.op in {Shl, Shr, Ushr} {
      IntsFit(ins.operands, vs, k);
    } else {
      NumericFits(ins.operands, vs, k);
    }
  }

  lemma {:induction false} TextJoins(ins: Instr, vs: seq<Value>)
    requires ins.op == Add && HasText(ins) && Fitting(ins.operands, vs)
    ensures Compute(ins.op, vs).Some?
  {
    hide OnInts, OnDoubles, Show;
    FittingAt(ins.operands, vs, 0);
    FittingAt(ins.operands, vs, 1);
  }

  lemma {:induction false} RuledOut(ins: Instr, vs: seq<Value>)
    requires WellTyped(ins) && Fitting(ins.operands, vs) && !HasText(ins) && |ins.operands| == 2
    requires ins.op in {Add, Sub, Mul, Div, Mod, Shl, Shr, Ushr}
    requires var a, b := IntConstant(ins, 0), IntConstant(ins, 1);
             (a.Some? && LeftRule(ins.op, a.value)) || (b.Some? && RightRule(ins.op, b.value))
    ensures Compute(ins.op, vs).Some?
  {
    hide HasType, Takes, Compute, WellTyped, LeftRule, RightRule;
    var a, b := IntConstant(ins, 0), IntConstant(ins, 1);
    FittingAt(ins.operands, vs, 0);
    FittingAt(ins.operands, vs, 1);
    assert vs == [vs[0], vs[1]];
    if b.Some? && RightRule(ins.op, b.value) {
      TypedTakes(ins, vs, 0);
      RightRuleExact(ins.op, vs[0], b.value);
    } else {
      TypedTakes(ins, vs, 1);
      LeftRuleExact(ins.op, a.value, vs[1]);
    }
  }

  lemma {:induction false} DividedByMinusOne(op: Opcode, x: int64)
    requires (op == Div || op == Mod) && x != MIN
    ensures Compute(op, [Int(x), Int(-1)]).Some?
  {
  }

  lemma {:induction false} DivisionRuledOut(ins: Instr, vs: seq<Value>)
    requires WellTyped(ins) && Fitting(ins.operands, vs) && (ins.op == Div || ins.op == Mod)
    requires !DivisionCanRaise(IntConstant(ins, 0), IntConstant(ins, 1))
    ensures Compute(ins.op, vs).Some?
  {
    hide HasType, Compute;
    var a, b := IntConstant(ins, 0), IntConstant(ins, 1);
    if b.value == -1 {
      FittingAt(ins.operands, vs, 0);
      FittingAt(ins.operands, vs, 1);
      assert vs == [Int(a.value), Int(-1)];
      DividedByMinusOne(ins.op, a.value);
    } else {
      NotText(ins);
      RuledOut(ins, vs);
    }
  }

  lemma {:induction false} NotText(ins: Instr)
    requires AllNumeric(ins.operands)
    ensures !HasText(ins)
  {
    if |ins.operands| == 2 {
      assert Numeric(OperandType(ins.operands[0])) && Numeric(OperandType(ins.operands[1]));
    }
  }

  /** An operation judged unable to raise succeeds on all operand values of the declared types. */
  lemma {:induction false} NeverRaises(ins: Instr, vs: seq<Value>)
    requires WellTyped(ins) && Fitting(ins.operands, vs) && !CanRaise(ins)
    ensures Compute(ins.op, vs).Some?
  {
    hide Fitting, OnInts, OnDoubles, OnOne, AllNumeric, AllInts, Foldable, FoldValue;
    if Fold(ins).Some? {
      ConstantsFit(ins.operands, vs);
      FoldComputes(ins.op, vs);
    } else if ins.op == Add && HasText(ins) {
      TextJoins(ins, vs);
    } else if ins.op == Div || ins.op == Mod {
      DivisionRuledOut(ins, vs);
    } else if ins.op in {Lt, Le, Gt, Ge} {
      NumericFits(ins.operands, vs, 0);
      NumericFits(ins.operands, vs, 1);
      SameLength(ins.operands, vs);
      Comparisons(ins.op, vs[0], vs[1]);
    } else if ins.op == Eq || ins.op == Ne {
      SameLength(ins.operands, vs);
    } else {
      if AllNumeric(ins.operands) { NotText(ins); } else { IntsNotText(ins); }
      RuledOut(ins, vs);
    }
  }

  lemma {:induction false} IntsNotText(ins: Instr)
    ensures AllInts(ins.operands) ==> !HasText(ins)
  {
  }

  lemma {:induction false} SameLength(os: seq<Operand>, vs: seq<Value>)
    requires Fitting(os, vs)
    ensures |vs| == |os|
  {
  }

  /** The opcodes classified as pure without a throw flag compute a result on all values of the declared types. */
  lemma {:induction false} PlainlyPure(ins: Instr, vs: seq<Value>)
    requires WellTyped(ins) && Fitting(ins.operands, vs) && ClassifyOpcode(ins.op) == {Pure}
    ensures Compute(ins.op, vs).Some?
  {
    hide Fitting, AllInts;
    SameLength(ins.operands, vs);
    if ins.op in {BitAnd, BitOr, BitXor} {
      IntsFit(ins.operands, vs, 0);
      IntsFit(ins.operands, vs, 1);
    } else if ins.op == BitNot {
      IntsFit(ins.operands, vs, 0);
    }
  }

  /** A removable instruction that computes always has a result. */
  lemma {:induction false} RemovableComputes(ins: Instr, vs: seq<Value>)
    requires WellTyped(ins) && Fitting(ins.operands, vs) && Removable(ins) && !ins.op.Load?
    ensures Compute(ins.op, vs).Some?
  {
    hide Fitting, Compute, CanRaise;
    if MayThrow in ClassifyOpcode(ins.op) {
      assert MayThrow !in Classify(ins);
      NeverRaises(ins, vs);
    } else {
      assert WritesMemory in ClassifyOpcode(ins.op) ==> WritesMemory in Classify(ins);
      PlainlyPure(ins, vs);
    }
  }

  /** Only operations that compute and loads of locals are removable. */
  lemma {:induction false} RemovableShape(ins: Instr)
    requires Removable(ins)
    ensures ins.result.Some? && !ins.op.Store? && !ins.op.Effectful?
  {
    hide CanRaise;
    assert WritesMemory in ClassifyOpcode(ins.op) ==> WritesMemory in Classify(ins);
  }
}

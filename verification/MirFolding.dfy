/** The shared evaluator of the MIR (src/mir/folding.cpp) against what the operations compute at run time: on which constants
    the folded value is the computed one. */
module MirFolding {
  import opened Wrappers
  import opened Int64
  import opened MirEffects
  import opened MirExecution
  import opened MirTypeSafety
  import Doubles

  /** What is found at run time where a constant is known: the constant, or for a double the integer it was widened from,
      because widening changes nothing at run time. */
  predicate Stands(v: Value, c: Value) {
    v == c || (v.Int? && c.Double? && c.d == Rounded(v))
  }

  // ---------- when folding is right ----------

  /** Two integers that become the same double, in the order that makes the comparison of doubles wrong. */
  predicate Blurred(op: Opcode, x: int64, y: int64) {
    Doubles.Round(x) == Doubles.Round(y) && if op in {Lt, Ge} then x < y else x > y
  }

  /** The double `d` lies between the integer `x` and the double `r` that `x` becomes, so that it compares differently with
      the two; `left` if the integer is the left operand. */
  predicate Crossed(op: Opcode, left: bool, x: real, r: real, d: real) {
    var lo, hi := if x < r then x else r, if x < r then r else x;
    if op in {Eq, Ne} then x != r && (d == x || d == r)
    else if left == (op in {Lt, Ge}) then lo < d <= hi
    else lo <= d < hi
  }

  predicate Compares(op: Opcode) { Ordering(op) || op in {Eq, Ne} }

  /** The condition on the constants under which folding is right. */
  predicate FoldsTruly(op: Opcode, vs: seq<Value>) {
    if |vs| != 2 || !Compares(op) then true
    else
      var a, b := vs[0], vs[1];
      if a.Int? && b.Int? then Ordering(op) ==> !Blurred(op, a.i, b.i)
      else if a.Int? && b.Double? then !Crossed(op, true, a.i as real, Rounded(a), b.d)
      else if a.Double? && b.Int? then !Crossed(op, false, b.i as real, Rounded(b), a.d)
      else true
  }

  lemma {:induction false} OrderedIntegers(op: Opcode, x: int64, y: int64)
    requires Ordering(op)
    ensures OnInts(op, x, y) == OnDoubles(op, Rounded(Int(x)), Rounded(Int(y))) <==> !Blurred(op, x, y)
  {
    hide Doubles.Round;
    if x <= y { Doubles.RoundKeepsOrder(x, y); }
    if y <= x { Doubles.RoundKeepsOrder(y, x); }
  }

  lemma {:induction false} IntegerAndDouble(op: Opcode, a: Value, b: Value)
    requires Compares(op) && ((a.Int? && b.Double?) || (a.Double? && b.Int?))
    ensures Compute(op, [a, b]).Some? && FoldValue(op, [a, b]).Some?
    ensures Compute(op, [a, b]) == FoldValue(op, [a, b]) <==> FoldsTruly(op, [a, b])
  {
    hide Rounded;
    RoundedDouble(a);
    RoundedDouble(b);
    var vs := [a, b];
    assert vs[0] == a && vs[1] == b;
    match op
    case Eq =>
    case Ne =>
    case Lt =>
    case Le =>
    case Gt =>
    case Ge =>
  }

  lemma {:induction false} RoundedDouble(v: Value)
    ensures v.Double? ==> Rounded(v) == v.d
  {
  }

  lemma {:induction false} ComparisonIsBool(op: Opcode, vs: seq<Value>)
    requires Compares(op) && |vs| == 2 && Compute(op, vs).Some?
    ensures Compute(op, vs).value.Bool?
  {
  }

  /** For every folded operation: the folded constant stands for what the operation computes exactly if it folds truly. */
  lemma {:induction false} FoldExact(op: Opcode, vs: seq<Value>)
    requires Foldable(op, vs) && FoldValue(op, vs).Some?
    ensures Compute(op, vs).Some?
    ensures Stands(Compute(op, vs).value, FoldValue(op, vs).value) <==> FoldsTruly(op, vs)
  {
    hide OnDoubles, OnInts, Rounded, Blurred, Crossed;
    FoldComputes(op, vs);
    if |vs| == 2 && Compares(op) {
      ComparisonIsBool(op, vs);
      assert vs == [vs[0], vs[1]];
      if vs[0].Int? && vs[1].Int? {
        if Ordering(op) { OrderedIntegers(op, vs[0].i, vs[1].i); }
      } else if (vs[0].Int? && vs[1].Double?) || (vs[0].Double? && vs[1].Int?) {
        IntegerAndDouble(op, vs[0], vs[1]);
      } else if vs[0].Double? && vs[1].Double? {
        RoundedDouble(vs[0]);
        RoundedDouble(vs[1]);
      }
    }
  }

  // ---------- folding and execution ----------

  lemma {:induction false} ConstantsAre(st: State, os: seq<Operand>)
    requires Constants(os).Some?
    ensures ValuesOf(st, os) == Constants(os).value
  {
    if os != [] {
      ConstantsAre(st, os[1..]);
      assert ValuesOf(st, os) == [ValueOf(st, os[0])] + ValuesOf(st, os[1..]);
    } else {
      assert ValuesOf(st, os) == [];
    }
  }

  lemma {:induction false} OnlyComputations(op: Opcode, vs: seq<Value>)
    requires Compute(op, vs).Some?
    ensures Computing(op)
  {
  }

  /** An instruction that folds does nothing but produce a value, wherever it stands and in whatever state; and the folded
      constant stands for that value exactly if the instruction folds truly. */
  lemma {:induction false} FoldIsExecution(w: World, ins: Instr, st: State) returns (v: Value)
    requires Fold(ins).Some?
    ensures Execute(w, ins, st) == Done(Define(st, ins.result, v))
    ensures Stands(v, Fold(ins).value) <==> FoldsTruly(ins.op, Constants(ins.operands).value)
  {
    hide Compute, ValuesOf, Define, FoldsTruly, Stands, FoldValue, Foldable;
    var vs := Constants(ins.operands).value;
    ConstantsAre(st, ins.operands);
    FoldExact(ins.op, vs);
    OnlyComputations(ins.op, vs);
    v := Compute(ins.op, vs).value;
  }

  // ---------- inputs that show the difference ----------

  const BIG: int64 := 0x20_0000_0000_0000

  /** 2^53 is below 2^53 + 1, but the evaluator folds the comparison to false. */
  lemma {:induction false} FoldsComparisonWrongly()
    ensures Compute(Lt, [Int(BIG), Int(BIG + 1)]) == Some(Bool(true))
    ensures Fold(Instr(Some(0), Lt, [Const(Int(BIG)), Const(Int(BIG + 1))])) == Some(Bool(false))
  {
    hide Doubles.Round;
    var a, b := Int(BIG), Int(BIG + 1);
    Doubles.NeighboursCollide();
    var os := [Const(a), Const(b)];
    assert os[1..] == [Const(b)] && [Const(b)][1..] == [];
    assert Constants([Const(b)]) == Some([b] + []) && [b] + [] == [b];
    assert Constants(os) == Some([a] + [b]) && [a] + [b] == [a, b];
  }

  /** Widened constants stand for integers that divide differently. */
  lemma {:induction false} WidenedDividesDifferently()
    ensures Compute(Widen, [Int(7)]) == Some(Int(7)) && FoldValue(Widen, [Int(7)]) == Some(Double(7.0))
    ensures Compute(Div, [Int(7), Int(2)]) == Some(Int(3)) && Compute(Div, [Double(7.0), Double(2.0)]) == Some(Double(3.5))
  {
    Doubles.RoundSmall(7);
    assert TruncDiv(7, 2) == 3;
  }
}

/**
 What comparisons and arithmetic mean: operands that are numbers count as real
 numbers, other operands as bytes.
 */
module QueryMeaning {
  import opened Prelude
  import opened Texts
  import opened Numbers
  import opened SqlCode
  import opened QueryExpr

  // ------------------------------------------------------------- byte order

  /** The texts agree up to `i`, where `a` ends or has the smaller byte. */
  predicate SmallerAt(a: Text, b: Text, i: nat) {
    i <= |a| && i < |b| && a[..i] == b[..i] && (i < |a| ==> a[i] < b[i])
  }

  /** `a` is a proper beginning of `b`, or has the smaller byte where they first differ. */
  ghost predicate Before(a: Text, b: Text) {
    exists i: nat :: SmallerAt(a, b, i)
  }

  lemma {:induction false} LessIsBefore(a: Text, b: Text) returns (i: nat)
    requires TextLess(a, b)
    ensures SmallerAt(a, b, i)
  {
    if a == [] || a[0] < b[0] {
      i := 0;
    } else {
      var j := LessIsBefore(a[1..], b[1..]);
      i := j + 1;
      assert a[..i] == [a[0]] + a[1..][..j] && b[..i] == [b[0]] + b[1..][..j];
    }
  }

  lemma {:induction false} BeforeIsLess(a: Text, b: Text, i: nat)
    requires SmallerAt(a, b, i)
    ensures TextLess(a, b)
    decreases i
  {
    if i > 0 {
      assert a[0] == a[..i][0] && b[0] == b[..i][0];
      assert a[1..][..i - 1] == a[..i][1..] && b[1..][..i - 1] == b[..i][1..];
      BeforeIsLess(a[1..], b[1..], i - 1);
    }
  }

  /** Comparing texts is looking at the first byte in which they differ. */
  lemma TextOrder(a: Text, b: Text)
    ensures TextLess(a, b) <==> Before(a, b)
  {
    if TextLess(a, b) { var i := LessIsBefore(a, b); }
    if Before(a, b) {
      var i: nat :| SmallerAt(a, b, i);
      BeforeIsLess(a, b, i);
    }
  }

  lemma {:induction false} TextTrichotomy(a: Text, b: Text)
    ensures TextLess(a, b) || a == b || TextLess(b, a)
  {
    if a != [] && b != [] && a[0] == b[0] {
      TextTrichotomy(a[1..], b[1..]);
      assert a == [a[0]] + a[1..] && b == [b[0]] + b[1..];
    }
  }

  // ------------------------------------------------- conditions on operands

  /** Operands with a value that is not null. */
  predicate Operands(n: Numerals, l: Expr, r: Expr, a: Text, b: Text) {
    Eval(n, l) == Val(a) && Eval(n, r) == Val(b) && a != NULL && b != NULL
  }

  function Truly(b: bool): Res { if b then Val(TRUE) else Val(FALSE) }

  /** Operands that read as numbers are compared as these numbers. */
  lemma ComparesAsNumbers(n: Numerals, l: Expr, r: Expr, a: Text, b: Text, x: Number, y: Number)
    requires Operands(n, l, r, a, b) && n.num(a) == Some(x) && n.num(b) == Some(y)
    ensures Eval(n, Op(Lt, l, r)) == Truly(Value(x) < Value(y))
    ensures Eval(n, Op(Le, l, r)) == Truly(Value(x) <= Value(y))
    ensures Eval(n, Op(Gt, l, r)) == Truly(Value(x) > Value(y))
    ensures Eval(n, Op(Ge, l, r)) == Truly(Value(x) >= Value(y))
    ensures Eval(n, Op(Eq, l, r)) == Truly(Value(x) == Value(y))
    ensures Eval(n, Op(Ne, l, r)) == Truly(Value(x) != Value(y))
  {
    ComparesValues(x, y);
    forall op | op in {Lt, Le, Gt, Ge, Eq, Ne} ensures Eval(n, Op(op, l, r)) == Val(BoolText(Decide(n, op, a, b))) {
      EvalNode(n, op, a, b, l, r);
    }
  }

  /** If one of them is no number, both are compared as texts. */
  lemma ComparesAsTexts(n: Numerals, l: Expr, r: Expr, a: Text, b: Text)
    requires Operands(n, l, r, a, b) && (n.num(a).None? || n.num(b).None?)
    ensures Eval(n, Op(Lt, l, r)) == Truly(Before(a, b))
    ensures Eval(n, Op(Le, l, r)) == Truly(Before(a, b) || a == b)
    ensures Eval(n, Op(Gt, l, r)) == Truly(Before(b, a))
    ensures Eval(n, Op(Ge, l, r)) == Truly(Before(b, a) || a == b)
    ensures Eval(n, Op(Eq, l, r)) == Truly(a == b)
    ensures Eval(n, Op(Ne, l, r)) == Truly(a != b)
  {
    TextOrder(a, b);
    TextOrder(b, a);
    TextTrichotomy(a, b);
    LessIrreflexive(a);
    if TextLess(a, b) { LessAsymmetric(a, b); }
    forall op | op in {Lt, Le, Gt, Ge, Eq, Ne} ensures Eval(n, Op(op, l, r)) == Val(BoolText(Decide(n, op, a, b))) {
      EvalNode(n, op, a, b, l, r);
    }
  }

  /** The result is written as a number of this value. */
  predicate Amounts(n: Numerals, res: Res, v: real) {
    res.Val? && n.num(res.text).Some? && Value(n.num(res.text).value) == v
  }

  lemma WrittenValue(n: Numerals, x: Number)
    requires Exact(n)
    ensures Amounts(n, Val(n.fmt(x)), Value(x))
  {
    assert n.num(n.fmt(x)) == Some(x);
  }

  /** Arithmetic on operands that read as numbers; a quotient fails exactly if its divisor is zero. */
  lemma CalculatesAsNumbers(n: Numerals, l: Expr, r: Expr, a: Text, b: Text, x: Number, y: Number)
    requires Exact(n) && Operands(n, l, r, a, b) && n.num(a) == Some(x) && n.num(b) == Some(y)
    ensures Amounts(n, Eval(n, Op(Add, l, r)), Value(x) + Value(y))
    ensures Amounts(n, Eval(n, Op(Sub, l, r)), Value(x) - Value(y))
    ensures Amounts(n, Eval(n, Op(Mul, l, r)), Value(x) * Value(y))
    ensures Eval(n, Op(Div, l, r)).Err? <==> Value(y) == 0.0
    ensures Value(y) != 0.0 ==> Amounts(n, Eval(n, Op(Div, l, r)), Value(x) / Value(y))
  {
    AddsValues(x, y);
    WrittenValue(n, Plus(x, y));
    WrittenValue(n, Minus(x, y));
    WrittenValue(n, Times(x, y));
    EvalNode(n, Add, a, b, l, r);
    EvalNode(n, Sub, a, b, l, r);
    EvalNode(n, Mul, a, b, l, r);
    EvalNode(n, Div, a, b, l, r);
    if y.p != 0 {
      DividesValues(x, y);
      WrittenValue(n, Over(x, y));
    } else {
      Scaled(y);
    }
  }

  /** Arithmetic on anything else fails. */
  lemma OnlyNumbersCalculate(n: Numerals, op: BinOp, l: Expr, r: Expr, a: Text, b: Text)
    requires Operands(n, l, r, a, b) && op in {Add, Sub, Mul, Div} && (n.num(a).None? || n.num(b).None?)
    ensures Eval(n, Op(op, l, r)).Err?
  {
    EvalNode(n, op, a, b, l, r);
  }
}

/**
 Conditions at run time.  Every value is a text; the empty text is null.  A
 column item holds the value of the row that was set last.
 */
module QueryExpr {
  import opened Prelude
  import opened Texts
  import opened Numbers
  import opened SqlCode

  const NULL: Text := []
  const TRUE: Text := [116, 114, 117, 101]
  const FALSE: Text := [102, 97, 108, 115, 101]

  datatype LitKind = LInt | LFloat | LText | LBool

  datatype Expr =
    | Fixed(kind: LitKind, text: Text)
    | Slot(tbl: nat, col: nat, value: Text)
    | Op(op: BinOp, l: Expr, r: Expr)

  /**
   How texts stand for numbers and truth values: `num` reads a number, `fmt` writes one,
   `overflow` writes what dividing by zero gives, `truth` is the reading of a truth value,
   `shown` rounds a number for output.
   */
  datatype Numerals = Numerals(num: Text -> Option<Number>, fmt: Number -> Text, overflow: Number -> Text,
                               truth: Text -> bool, shown: Text -> Text)

  /** Arithmetic without rounding: what is written is read back. */
  ghost predicate Exact(n: Numerals) {
    && (forall x: Number :: n.num(n.fmt(x)) == Some(x))
    && n.num(NULL) == None && n.num(TRUE) == None && n.num(FALSE) == None
    && n.truth(TRUE) && !n.truth(FALSE)
  }

  /** Decimal numbers and quotients; a truth value is true if it starts so. */
  function Standard(): Numerals {
    Numerals(Read, Write, (x: Number) => [105, 110, 102], (t: Text) => TRUE <= t, (t: Text) => t)
  }

  /** There is an exact way of reading and writing numbers. */
  lemma StandardExact()
    ensures Exact(Standard())
  {
    forall x: Number ensures Read(Write(x)) == Some(x) { ReadBack(x); }
    assert !AllDigits(TRUE) by { assert TRUE[0] == 116; }
    assert !AllDigits(FALSE) by { assert FALSE[0] == 102; }
    NoPoint(TRUE);
    NoPoint(FALSE);
    NoPoint(NULL);
  }

  lemma NoPoint(t: Text)
    requires POINT !in t && SLASH !in t && MINUS !in t && (t == [] || !AllDigits(t))
    ensures Read(t) == None
  {
    FindAbsent(t, SLASH);
    FindAbsent(t, POINT);
    assert t[..|t|] == t;
  }

  function BoolText(b: bool): Text { if b then TRUE else FALSE }

  predicate Arithmetic(op: BinOp) { op in {Add, Sub, Mul, Div} }
  predicate Comparison(op: BinOp) { op in {Eq, Ne, Ge, Gt, Le, Lt} }

  // ------------------------------------------------------------- comparisons

  predicate Compare(op: BinOp, less: bool, same: bool) {
    match op
    case Eq => same
    case Ne => !same
    case Lt => less
    case Le => less || same
    case Gt => !less && !same
    case Ge => !less
    case _ => false
  }

  predicate CompareTexts(op: BinOp, a: Text, b: Text) { Compare(op, TextLess(a, b), a == b) }
  predicate CompareNumbers(op: BinOp, a: Number, b: Number) { Compare(op, Below(a, b), Same(a, b)) }

  // -------------------------------------------------------------- evaluation

  datatype Res = Err | Val(text: Text)

  /** The written result of an operation; only a compacted quotient can have the divisor zero. */
  function Calculated(n: Numerals, op: BinOp, x: Number, y: Number): Text {
    match op
    case Add => n.fmt(Plus(x, y))
    case Sub => n.fmt(Minus(x, y))
    case Mul => n.fmt(Times(x, y))
    case _ => if y.p == 0 then n.overflow(x) else n.fmt(Over(x, y))
  }

  function Calculate(n: Numerals, op: BinOp, a: Text, b: Text): Res {
    if n.num(a).None? || n.num(b).None? then Err
    else
      var x, y := n.num(a).value, n.num(b).value;
      if op == Div && y.p == 0 then Err else Val(Calculated(n, op, x, y))
  }

  /** As numbers if both are, else as texts. */
  predicate Decide(n: Numerals, op: BinOp, a: Text, b: Text) {
    if n.num(a).Some? && n.num(b).Some? then CompareNumbers(op, n.num(a).value, n.num(b).value)
    else CompareTexts(op, a, b)
  }

  /** `exec_condition` */
  function Eval(n: Numerals, e: Expr): Res {
    match e
    case Fixed(_, text) => Val(text)
    case Slot(_, _, value) => Val(value)
    case Op(op, l, r) =>
      var a := Eval(n, l);
      if a.Err? || a.text == NULL then a
      else if op == And && !n.truth(a.text) then a
      else if op == Or && n.truth(a.text) then a
      else
        var b := Eval(n, r);
        if b.Err? || b.text == NULL then b
        else if op == And then (if n.truth(b.text) then Val(TRUE) else b)
        else if op == Or then (if n.truth(b.text) then b else Val(FALSE))
        else if Arithmetic(op) then Calculate(n, op, a.text, b.text)
        else Val(BoolText(Decide(n, op, a.text, b.text)))
  }

  // ----------------------------------------------------------------- folding

  predicate Numeric(e: Expr) { e.Fixed? && (e.kind == LInt || e.kind == LFloat) }
  predicate Textual(e: Expr) { e.Fixed? && e.kind == LText }
  predicate Boolean(e: Expr) { e.Fixed? && e.kind == LBool }

  function NumberOf(n: Numerals, text: Text): Number {
    if n.num(text).Some? then n.num(text).value else Ratio(0, 1)
  }

  /** One node whose operands have been compacted. */
  function FoldOp(n: Numerals, op: BinOp, l: Expr, r: Expr): Expr {
    if Arithmetic(op) && Numeric(l) && Numeric(r) then
      Fixed(if op != Div && l.kind == LInt && r.kind == LInt then LInt else LFloat,
          Calculated(n, op, NumberOf(n, l.text), NumberOf(n, r.text)))
    else if Comparison(op) && Numeric(l) && Numeric(r) then
      Fixed(LBool, BoolText(CompareNumbers(op, NumberOf(n, l.text), NumberOf(n, r.text))))
    else if Comparison(op) && Textual(l) && Textual(r) then
      Fixed(LBool, BoolText(CompareTexts(op, l.text, r.text)))
    else if op == And && Boolean(l) && Boolean(r) then
      Fixed(LBool, BoolText(n.truth(l.text) && n.truth(r.text)))
    else if op == Or && Boolean(l) && Boolean(r) then
      Fixed(LBool, BoolText(n.truth(l.text) || n.truth(r.text)))
    else Op(op, l, r)
  }

  /** `compact_condition` */
  function Fold(n: Numerals, e: Expr): Expr {
    match e
    case Op(op, l, r) => FoldOp(n, op, Fold(n, l), Fold(n, r))
    case _ => e
  }

  /** Numbers are numbers and truth values are truth values, as the machine builds them. */
  predicate Literals(n: Numerals, e: Expr) {
    match e
    case Fixed(kind, text) =>
      (kind in {LInt, LFloat} ==> n.num(text).Some?) && (kind == LBool ==> text in {TRUE, FALSE})
    case Slot(_, _, _) => true
    case Op(_, l, r) => Literals(n, l) && Literals(n, r)
  }

  /**
   When folding one node is right: a constant divisor is not zero, and of two constant
   texts none is null and they do not compare one way as texts and another as numbers.
   */
  predicate Guard(n: Numerals, op: BinOp, l: Expr, r: Expr) {
    && (op == Div && Numeric(l) && Numeric(r) ==> NumberOf(n, r.text).p != 0)
    && (Comparison(op) && Textual(l) && Textual(r) ==>
          (l.text != NULL && r.text != NULL
           && (n.num(l.text).Some? && n.num(r.text).Some? ==>
                 (CompareNumbers(op, n.num(l.text).value, n.num(r.text).value) <==> CompareTexts(op, l.text, r.text)))))
  }

  predicate Foldable(n: Numerals, e: Expr) {
    match e
    case Op(op, l, r) => Foldable(n, l) && Foldable(n, r) && Guard(n, op, Fold(n, l), Fold(n, r))
    case _ => true
  }

  /** The condition usually given: every constant text has some contents and does not read as a number. */
  predicate PlainTexts(n: Numerals, e: Expr) {
    match e
    case Fixed(kind, text) => kind == LText ==> text != NULL && n.num(text).None?
    case Slot(_, _, _) => true
    case Op(_, l, r) => PlainTexts(n, l) && PlainTexts(n, r)
  }

  predicate Divisors(n: Numerals, e: Expr) {
    match e
    case Op(op, l, r) =>
      Divisors(n, l) && Divisors(n, r)
      && (op == Div && Numeric(Fold(n, l)) && Numeric(Fold(n, r)) ==> NumberOf(n, Fold(n, r).text).p != 0)
    case _ => true
  }

  lemma {:induction false} PlainFoldable(n: Numerals, e: Expr)
    requires PlainTexts(n, e) && Divisors(n, e)
    ensures Foldable(n, e) && PlainTexts(n, Fold(n, e))
  {
    if e.Op? {
      PlainFoldable(n, e.l);
      PlainFoldable(n, e.r);
    }
  }

  lemma CalculatedReads(n: Numerals, op: BinOp, x: Number, y: Number)
    requires Exact(n) && Arithmetic(op) && (op == Div ==> y.p != 0)
    ensures n.num(Calculated(n, op, x, y)).Some?
  {
    match op
    case Add => assert n.num(n.fmt(Plus(x, y))).Some?;
    case Sub => assert n.num(n.fmt(Minus(x, y))).Some?;
    case Mul => assert n.num(n.fmt(Times(x, y))).Some?;
    case Div => assert n.num(n.fmt(Over(x, y))).Some?;
  }

  lemma FoldOpLiterals(n: Numerals, op: BinOp, l: Expr, r: Expr)
    requires Exact(n) && Literals(n, l) && Literals(n, r) && Guard(n, op, l, r)
    ensures Literals(n, FoldOp(n, op, l, r))
  {
    if Arithmetic(op) && Numeric(l) && Numeric(r) {
      CalculatedReads(n, op, NumberOf(n, l.text), NumberOf(n, r.text));
    }
  }

  lemma {:induction false} FoldLiterals(n: Numerals, e: Expr)
    requires Exact(n) && Literals(n, e) && Foldable(n, e)
    ensures Literals(n, Fold(n, e))
  {
    if e.Op? {
      FoldLiterals(n, e.l);
      FoldLiterals(n, e.r);
      FoldOpLiterals(n, e.op, Fold(n, e.l), Fold(n, e.r));
    }
  }

  lemma EvalNode(n: Numerals, op: BinOp, a: Text, b: Text, l: Expr, r: Expr)
    requires Eval(n, l) == Val(a) && Eval(n, r) == Val(b) && a != NULL && b != NULL && op != And && op != Or
    ensures Eval(n, Op(op, l, r))
         == if Arithmetic(op) then Calculate(n, op, a, b) else Val(BoolText(Decide(n, op, a, b)))
  {
  }

  lemma FoldNumbersIff(n: Numerals, op: BinOp, l: Expr, r: Expr)
    requires Exact(n) && Literals(n, l) && Literals(n, r) && Numeric(l) && Numeric(r) && op != And && op != Or
    ensures Eval(n, FoldOp(n, op, l, r)) == Eval(n, Op(op, l, r)) <==> (op == Div ==> NumberOf(n, r.text).p != 0)
  {
    EvalNode(n, op, l.text, r.text, l, r);
    var x, y := n.num(l.text).value, n.num(r.text).value;
    assert NumberOf(n, l.text) == x && NumberOf(n, r.text) == y;
    if Arithmetic(op) {
      assert Eval(n, FoldOp(n, op, l, r)) == Val(Calculated(n, op, x, y));
    } else {
      assert Eval(n, FoldOp(n, op, l, r)) == Val(BoolText(CompareNumbers(op, x, y)));
    }
  }

  lemma FoldTextsIff(n: Numerals, op: BinOp, l: Expr, r: Expr)
    requires Exact(n) && Textual(l) && Textual(r) && Comparison(op)
    ensures Eval(n, FoldOp(n, op, l, r)) == Eval(n, Op(op, l, r)) <==> Guard(n, op, l, r)
  {
    assert Eval(n, FoldOp(n, op, l, r)) == Val(BoolText(CompareTexts(op, l.text, r.text)));
    if l.text == NULL || r.text == NULL {
      assert Eval(n, Op(op, l, r)) == Val(NULL);
    } else {
      EvalNode(n, op, l.text, r.text, l, r);
    }
  }

  lemma FoldTruths(n: Numerals, op: BinOp, l: Expr, r: Expr)
    requires Exact(n) && Literals(n, l) && Literals(n, r) && Boolean(l) && Boolean(r) && (op == And || op == Or)
    ensures Eval(n, FoldOp(n, op, l, r)) == Eval(n, Op(op, l, r))
  {
  }

  /** Folding one node keeps its value exactly when the guard holds. */
  lemma FoldOpIff(n: Numerals, op: BinOp, l: Expr, r: Expr)
    requires Exact(n) && Literals(n, l) && Literals(n, r)
    ensures Eval(n, FoldOp(n, op, l, r)) == Eval(n, Op(op, l, r)) <==> Guard(n, op, l, r)
  {
    if Numeric(l) && Numeric(r) && op != And && op != Or {
      FoldNumbersIff(n, op, l, r);
    } else if Textual(l) && Textual(r) && Comparison(op) {
      FoldTextsIff(n, op, l, r);
    } else if Boolean(l) && Boolean(r) && (op == And || op == Or) {
      FoldTruths(n, op, l, r);
    } else {
      assert FoldOp(n, op, l, r) == Op(op, l, r);
    }
  }

  /** Only the values of the operands matter. */
  lemma SameOperands(n: Numerals, op: BinOp, l: Expr, r: Expr, l': Expr, r': Expr)
    requires Eval(n, l) == Eval(n, l') && Eval(n, r) == Eval(n, r')
    ensures Eval(n, Op(op, l, r)) == Eval(n, Op(op, l', r'))
  {
  }

  /** Constant folding preserves evaluation, whatever the columns hold. */
  lemma {:induction false} FoldCorrect(n: Numerals, e: Expr)
    requires Exact(n) && Literals(n, e) && Foldable(n, e)
    ensures Eval(n, Fold(n, e)) == Eval(n, e)
  {
    if e.Op? {
      FoldCorrect(n, e.l);
      FoldCorrect(n, e.r);
      FoldLiterals(n, e.l);
      FoldLiterals(n, e.r);
      FoldOpIff(n, e.op, Fold(n, e.l), Fold(n, e.r));
      SameOperands(n, e.op, e.l, e.r, Fold(n, e.l), Fold(n, e.r));
    }
  }

  /** Two null texts: the folded comparison is true, the evaluated one is null. */
  lemma FoldedNull(n: Numerals)
    requires Exact(n)
    ensures var e := Op(Eq, Fixed(LText, NULL), Fixed(LText, NULL));
            Eval(n, e) == Val(NULL) && Eval(n, Fold(n, e)) == Val(TRUE)
  {
    var l := Fixed(LText, NULL);
    assert Fold(n, l) == l;
    assert Fold(n, Op(Eq, l, l)) == FoldOp(n, Eq, l, l);
  }

  // ------------------------------------------------------ three-valued logic

  datatype Truth = Yes | No | Unknown

  predicate Condition(e: Expr) {
    match e
    case Fixed(kind, _) => kind == LBool
    case Slot(_, _, _) => false
    case Op(op, l, r) => Comparison(op) || ((op == And || op == Or) && Condition(l) && Condition(r))
  }

  function TruthOf(t: Text): Truth {
    if t == TRUE then Yes else if t == FALSE then No else Unknown
  }

  /** SQL's three-valued reading; a comparison that fails is unknown. */
  function Kleene(n: Numerals, e: Expr): Truth {
    match e
    case Op(op, l, r) =>
      if op == And then
        var a, b := Kleene(n, l), Kleene(n, r);
        if a == No || b == No then No else if a == Yes && b == Yes then Yes else Unknown
      else if op == Or then
        var a, b := Kleene(n, l), Kleene(n, r);
        if a == Yes || b == Yes then Yes else if a == No && b == No then No else Unknown
      else if Eval(n, e).Err? then Unknown
      else TruthOf(Eval(n, e).text)
    case Fixed(_, text) => TruthOf(text)
    case Slot(_, _, value) => TruthOf(value)
  }

  /** Evaluation gives null or exactly the three-valued result. */
  lemma {:induction false} NullOrKleene(n: Numerals, e: Expr)
    requires Exact(n) && Literals(n, e) && Condition(e)
    ensures Eval(n, e).Val? ==> Eval(n, e).text in {NULL, TRUE, FALSE}
    ensures Eval(n, e).Val? && Eval(n, e).text != NULL ==> TruthOf(Eval(n, e).text) == Kleene(n, e)
  {
    if e.Op? && (e.op == And || e.op == Or) {
      NullOrKleene(n, e.l);
      NullOrKleene(n, e.r);
    }
  }

  /** What WHERE lets through. */
  predicate Accepted(n: Numerals, e: Expr) { Eval(n, e) == Val(TRUE) }

  /** A row that WHERE accepts is one that three-valued logic accepts. */
  lemma AcceptedIsTrue(n: Numerals, e: Expr)
    requires Exact(n) && Literals(n, e) && Condition(e) && Accepted(n, e)
    ensures Kleene(n, e) == Yes
  {
    NullOrKleene(n, e);
  }

  /** No OR has an unknown or failing left operand, no AND a failing one. */
  predicate LeftKnown(n: Numerals, e: Expr) {
    match e
    case Op(op, l, r) =>
      if op == And then LeftKnown(n, l) && LeftKnown(n, r)
      else if op == Or then LeftKnown(n, l) && LeftKnown(n, r) && Eval(n, l) in {Val(TRUE), Val(FALSE)}
      else true
    case _ => true
  }

  /** Where the left operands of OR are known, WHERE accepts exactly what three-valued logic does. */
  lemma {:induction false} AcceptedIff(n: Numerals, e: Expr)
    requires Exact(n) && Literals(n, e) && Condition(e) && LeftKnown(n, e)
    ensures Accepted(n, e) <==> Kleene(n, e) == Yes
  {
    NullOrKleene(n, e);
    if e.Op? && (e.op == And || e.op == Or) {
      AcceptedIff(n, e.l);
      AcceptedIff(n, e.r);
      NullOrKleene(n, e.l);
      NullOrKleene(n, e.r);
    }
  }

  /**
   Where acceptance turns on an OR whose right operand alone is true, its left operand evaluates to
   false: operands of AND matter if both are true, the left operand of OR if it is true, the right one
   if the left one is not.
   */
  predicate NothingLost(n: Numerals, e: Expr) {
    match e
    case Op(op, l, r) =>
      if op == And then Kleene(n, l) == Yes && Kleene(n, r) == Yes ==> NothingLost(n, l) && NothingLost(n, r)
      else if op == Or then
        && (Kleene(n, l) == Yes ==> NothingLost(n, l))
        && (Kleene(n, l) != Yes && Kleene(n, r) == Yes ==> Eval(n, l) == Val(FALSE) && NothingLost(n, r))
      else true
    case _ => true
  }

  /** WHERE accepts exactly what three-valued logic does exactly where no deciding OR has a left operand in doubt. */
  lemma {:induction false} AcceptedExactly(n: Numerals, e: Expr)
    requires Exact(n) && Literals(n, e) && Condition(e)
    ensures (Accepted(n, e) <==> Kleene(n, e) == Yes) <==> NothingLost(n, e)
  {
    AcceptedMeansTrue(n, e);
    if e.Op? && (e.op == And || e.op == Or) {
      AcceptedExactly(n, e.l);
      AcceptedExactly(n, e.r);
      NullOrKleene(n, e.l);
      NullOrKleene(n, e.r);
    }
  }

  lemma AcceptedMeansTrue(n: Numerals, e: Expr)
    requires Exact(n) && Literals(n, e) && Condition(e)
    ensures Accepted(n, e) ==> Kleene(n, e) == Yes
  {
    if Accepted(n, e) { AcceptedIsTrue(n, e); }
  }

  /** An OR loses a true right operand exactly when its left operand is null or fails. */
  lemma OrLosesIff(n: Numerals, l: Expr, r: Expr)
    requires Exact(n) && Literals(n, Op(Or, l, r)) && Condition(Op(Or, l, r)) && Accepted(n, r)
    ensures Kleene(n, Op(Or, l, r)) == Yes
    ensures Accepted(n, Op(Or, l, r)) <==> Eval(n, l).Val? && Eval(n, l).text != NULL
  {
    NullOrKleene(n, l);
    NullOrKleene(n, r);
  }

  // --------------------------------------------------------------- witnesses

  const ONE: Text := [49]
  const ONE_POINT_ZERO: Text := [49, 46, 48]

  lemma ReadsOnes()
    ensures Read(ONE) == Some(Ratio(1, 1)) && Read(ONE_POINT_ZERO) == Some(Ratio(10, 10))
  {
    ReadPlainBack(1);
    ReadSignedBack(1);
    assert Decimal(1) == ONE;
    FindAbsent(ONE, SLASH);
    assert ONE[..1] == ONE;
    var t := ONE_POINT_ZERO;
    FindAbsent(t, SLASH);
    assert t[..3] == t;
    FindBehind([49], POINT, [48]);
    assert [49] + [POINT] + [48] == t;
    assert t[..1] + t[2..] == [49, 48];
    assert [49, 48][..1] == [49] && [49][..0] == [];
    assert NatOf([49, 48]) == NatOf([49]) * 10 + 0;
    assert PowerAbove(1) == 10 * PowerAbove(0);
  }

  /** Two texts that read as one number: equal when evaluated, different when folded. */
  lemma FoldedDigits()
    ensures var e := Op(Eq, Fixed(LText, ONE), Fixed(LText, ONE_POINT_ZERO));
            Eval(Standard(), e) == Val(TRUE) && Eval(Standard(), Fold(Standard(), e)) == Val(FALSE)
  {
    ReadsOnes();
    var l, r := Fixed(LText, ONE), Fixed(LText, ONE_POINT_ZERO);
    assert ONE != ONE_POINT_ZERO by { assert |ONE| != |ONE_POINT_ZERO|; }
    EvalNode(Standard(), Eq, ONE, ONE_POINT_ZERO, l, r);
    assert Fold(Standard(), Op(Eq, l, r)) == FoldOp(Standard(), Eq, l, r);
  }

  lemma OneEqualsOne(n: Numerals)
    requires Exact(n) && n.num(ONE) == Some(Ratio(1, 1))
    ensures Accepted(n, Op(Eq, Fixed(LInt, ONE), Fixed(LInt, ONE)))
  {
    EvalNode(n, Eq, ONE, ONE, Fixed(LInt, ONE), Fixed(LInt, ONE));
  }

  lemma NullEqualsNothing(n: Numerals, tbl: nat, col: nat, r: Expr)
    ensures Eval(n, Op(Eq, Slot(tbl, col, NULL), r)) == Val(NULL)
  {
  }

  lemma OrLosesWith(n: Numerals, tbl: nat, col: nat)
    requires Exact(n) && n.num(ONE) == Some(Ratio(1, 1))
    ensures var r := Op(Eq, Fixed(LInt, ONE), Fixed(LInt, ONE));
            var e := Op(Or, Op(Eq, Slot(tbl, col, NULL), Fixed(LInt, ONE)), r);
            Accepted(n, r) && Kleene(n, e) == Yes && !Accepted(n, e)
  {
    var one := Fixed(LInt, ONE);
    OneEqualsOne(n);
    NullEqualsNothing(n, tbl, col, one);
    OrLosesIff(n, Op(Eq, Slot(tbl, col, NULL), one), Op(Eq, one, one));
  }

  /** An OR with a null column on its left is null although its right operand is true. */
  lemma OrLosesNull(tbl: nat, col: nat)
    ensures var r := Op(Eq, Fixed(LInt, ONE), Fixed(LInt, ONE));
            var e := Op(Or, Op(Eq, Slot(tbl, col, NULL), Fixed(LInt, ONE)), r);
            Accepted(Standard(), r) && Kleene(Standard(), e) == Yes && !Accepted(Standard(), e)
  {
    StandardExact();
    ReadsOnes();
    OrLosesWith(Standard(), tbl, col);
  }
}

/**
 The text an item holds (`m_value`).  Constants hold theirs, each minus sign writes a number
 anew, and neither columns nor operators hold any text before they are executed.
 */
module SqlValues {
  import opened Prelude
  import opened Texts
  import N = Numbers
  import opened SqlCode
  import opened SqlParse
  import opened SqlVm
  import opened SqlCorrect
  import Q = QueryExpr

  /** `std::stoi` of digits that may stand behind a minus sign. */
  function IntOf(t: Text): int {
    if t != [] && t[0] == N.MINUS && N.AllDigits(t[1..]) then -(N.NatOf(t[1..]) as int)
    else if N.AllDigits(t) then N.NatOf(t)
    else 0
  }

  /** One minus sign; `fixed` writes the negation of a FLOAT text with two decimals. */
  function Negated(kind: Kind, t: Text, fixed: Text -> Text): Text {
    if kind == KFloat then fixed(t) else N.Signed(-IntOf(t))
  }

  function SignedText(kind: Kind, t: Text, signs: nat, fixed: Text -> Text): Text {
    if signs == 0 then t else Negated(kind, SignedText(kind, t, signs - 1, fixed), fixed)
  }

  function ValueText(it: Item, fixed: Text -> Text): Text {
    match it
    case Const(kind, text, signs) => SignedText(kind, text, signs, fixed)
    case Count(n) => N.Signed(n)
    case Offset(at) => N.Signed(at)
    case Col(_, _, _) => []
    case Node(_, _, _) => []
  }

  // ----------------------------------------------------- integers and signs

  lemma IntBack(p: int)
    ensures IntOf(N.Signed(p)) == p
  {
    if p < 0 {
      N.DecimalBack(-p);
      assert N.Signed(p)[1..] == Decimal(-p);
    } else {
      N.DecimalBack(p);
      assert Decimal(p)[0] != N.MINUS;
    }
  }

  function Alternating(t: Text, signs: nat): int
    requires N.AllDigits(t)
  {
    var n: int := N.NatOf(t);
    if signs % 2 == 0 then n else -n
  }

  lemma PlainInt(t: Text)
    requires N.AllDigits(t)
    ensures IntOf(t) == N.NatOf(t)
  {
    if t != [] { assert t[0] != N.MINUS; }
  }

  lemma NegatedInt(t: Text, fixed: Text -> Text)
    ensures Negated(KInt, t, fixed) == N.Signed(-IntOf(t)) && IntOf(Negated(KInt, t, fixed)) == -IntOf(t)
  {
    IntBack(-IntOf(t));
  }

  lemma OneMoreSign(t: Text, signs: nat)
    requires N.AllDigits(t) && signs > 0
    ensures Alternating(t, signs) == -Alternating(t, signs - 1)
  {
    assert signs % 2 == 0 <==> (signs - 1) % 2 != 0;
  }

  /** As numbers, minus signs cancel in pairs; any sign writes the number without leading zeros. */
  lemma {:induction false} SignsAlternate(t: Text, signs: nat, fixed: Text -> Text)
    requires N.AllDigits(t)
    ensures IntOf(SignedText(KInt, t, signs, fixed)) == Alternating(t, signs)
    ensures signs > 0 ==> (SignedText(KInt, t, signs, fixed)
                           == N.Signed(Alternating(t, signs)))
  {
    if signs == 0 {
      PlainInt(t);
    } else {
      SignsAlternate(t, signs - 1, fixed);
      OneMoreSign(t, signs);
      NegatedInt(SignedText(KInt, t, signs - 1, fixed), fixed);
    }
  }

  /** Digits as `to_string` writes them. */
  predicate Canonical(t: Text) { |t| == 1 || (|t| > 1 && t[0] != ZERO) }

  lemma {:induction false} DecimalCanonical(n: nat)
    ensures Canonical(Decimal(n)) && (n > 0 ==> Decimal(n)[0] != ZERO)
  {
    if n >= 10 { DecimalCanonical(n / 10); }
  }

  lemma {:induction false} CanonicalBack(t: Text)
    requires t != [] && N.AllDigits(t) && t[0] != ZERO
    ensures N.NatOf(t) > 0 && Decimal(N.NatOf(t)) == t
  {
    var front, last := t[..|t| - 1], t[|t| - 1];
    assert t == front + [last];
    if front == [] {
      assert N.NatOf(front) == 0;
    } else {
      CanonicalBack(front);
      DecimalSnoc(N.NatOf(front), last);
    }
  }

  lemma DecimalSnoc(n: nat, last: Byte)
    requires 48 <= last <= 57 && n > 0
    ensures Decimal(n * 10 + (last as int - 48)) == Decimal(n) + [last]
  {
    var c := last as int - 48;
    assert (n * 10 + c) / 10 == n && (n * 10 + c) % 10 == c;
  }

  /** The digits of a number are those it is written with exactly if there are no leading zeros. */
  lemma CanonicalIff(t: Text)
    requires t != [] && N.AllDigits(t)
    ensures Decimal(N.NatOf(t)) == t <==> Canonical(t)
  {
    DecimalCanonical(N.NatOf(t));
    if t[0] != ZERO {
      CanonicalBack(t);
    } else if |t| == 1 {
      assert t[..0] == [] && N.NatOf(t[..0]) == 0;
    }
  }

  /** Two signs before an integer restore its text exactly if it is signed already or has no leading zeros. */
  lemma DoubleSign(t: Text, signs: nat, fixed: Text -> Text)
    requires t != [] && N.AllDigits(t)
    ensures SignedText(KInt, t, signs + 2, fixed) == SignedText(KInt, t, signs, fixed) <==> signs > 0 || Canonical(t)
  {
    SignsAlternate(t, signs, fixed);
    SignsAlternate(t, signs + 2, fixed);
    CanonicalIff(t);
  }

  /** Two items hold the same; columns are compared as they are. */
  predicate SameHeld(x: Item, y: Item, fixed: Text -> Text) {
    if x.Const? && y.Const? then x.kind == y.kind && ValueText(x, fixed) == ValueText(y, fixed) else x == y
  }

  /** The literal under parentheses and signs; None for columns and operators. */
  function Core(a: Ast): Option<Datum> {
    match a
    case Literal(kind, raw) => Some(Datum(kind, Unquote(raw)))
    case Null => Some(Datum(KVarchar, NULL_TEXT))
    case Paren(e) => Core(e)
    case Plus(e) => Core(e)
    case Neg(e) => Core(e)
    case _ => None
  }

  function Signs(a: Ast): nat {
    match a
    case Paren(e) => Signs(e)
    case Plus(e) => Signs(e)
    case Neg(e) => 1 + Signs(e)
    case _ => 0
  }

  /** A literal, possibly in parentheses or behind signs. */
  predicate IsConstant(a: Ast) { Core(a).Some? }

  lemma {:induction false} ConstantTree(a: Ast)
    requires SignsOk(a)
    ensures TreeOf(a).Some? && (IsConstant(a) <==> TreeOf(a).value.Const?)
    ensures IsConstant(a) ==> TreeOf(a).value == Const(Core(a).value.kind, Core(a).value.raw, Signs(a))
    ensures IsColumn(a) <==> TreeOf(a).value.Col?
    ensures Negatable(a) && IsConstant(a) ==> Core(a).value.kind == KInt || Core(a).value.kind == KFloat
  {
    TreeIffSigns(a);
    ColumnTree(a);
    match a
    case Paren(e) => ConstantTree(e);
    case Plus(e) => ConstantTree(e);
    case Neg(e) => ConstantTree(e);
    case _ =>
  }

  /** The spelling of an INT literal is what the lexer makes: digits. */
  predicate DigitsLexed(a: Ast) {
    Core(a).Some? && Core(a).value.kind == KInt ==> Core(a).value.raw != [] && N.AllDigits(Core(a).value.raw)
  }

  lemma TwoMore(kind: Kind, t: Text, signs: nat, fixed: Text -> Text)
    ensures SignedText(kind, t, signs + 2, fixed) == Negated(kind, Negated(kind, SignedText(kind, t, signs, fixed), fixed), fixed)
  {
    assert SignedText(kind, t, signs + 1, fixed) == Negated(kind, SignedText(kind, t, signs, fixed), fixed);
  }

  /** What two more minus signs before a number that has some need to cancel. */
  predicate CancelsText(d: Datum, signs: nat, fixed: Text -> Text) {
    if d.kind == KInt then signs > 0 || Canonical(d.raw)
    else fixed(fixed(SignedText(d.kind, d.raw, signs, fixed))) == SignedText(d.kind, d.raw, signs, fixed)
  }

  predicate Cancels(a: Ast, fixed: Text -> Text) {
    if Core(a).None? then Signed(a) else CancelsText(Core(a).value, Signs(a), fixed)
  }

  lemma DoubleText(d: Datum, signs: nat, fixed: Text -> Text)
    requires d.kind == KInt ==> d.raw != [] && N.AllDigits(d.raw)
    requires d.kind == KInt || d.kind == KFloat
    ensures SignedText(d.kind, d.raw, signs + 2, fixed) == SignedText(d.kind, d.raw, signs, fixed) <==> CancelsText(d, signs, fixed)
  {
    if d.kind == KInt { DoubleSign(d.raw, signs, fixed); } else { TwoMore(d.kind, d.raw, signs, fixed); }
  }

  lemma DoubleTree(a: Ast)
    requires SignsOk(a) && Negatable(a)
    ensures TreeOf(a).Some? && TreeOf(Neg(Neg(a))).Some?
    ensures Core(a).None? ==> TreeOf(a).value.Col? && TreeOf(a).value.negated == Signed(a)
                              && TreeOf(Neg(Neg(a))).value == TreeOf(a).value.(negated := true)
    ensures Core(a).Some? ==>
              (var d := Core(a).value;
               (d.kind == KInt || d.kind == KFloat) && TreeOf(a).value == Const(d.kind, d.raw, Signs(a))
               && TreeOf(Neg(Neg(a))).value == Const(d.kind, d.raw, Signs(a) + 2))
  {
    TreeIffSigns(a);
    ColumnTree(a);
    ConstantTree(a);
  }

  /**
   Two minus signs cancel before a column that is negated anyway, and before an integer that is signed
   already or has no leading zeros; before a FLOAT they do if rewriting its text twice restores it.
   */
  lemma DoubleNegation(a: Ast, fixed: Text -> Text)
    requires SignsOk(a) && Negatable(a) && DigitsLexed(a)
    ensures TreeOf(a).Some? && TreeOf(Neg(Neg(a))).Some?
    ensures SameHeld(TreeOf(Neg(Neg(a))).value, TreeOf(a).value, fixed) <==> Cancels(a, fixed)
  {
    DoubleTree(a);
    if Core(a).Some? { DoubleText(Core(a).value, Signs(a), fixed); }
  }

  /** - - c is read as - c. */
  lemma SecondSignLost(col: Text)
    ensures TreeOf(Neg(Neg(Column(col)))) == TreeOf(Neg(Column(col))) != TreeOf(Column(col))
  {
    ColumnTree(Neg(Neg(Column(col))));
  }

  // -------------------------------------------------- what a statement says

  function Sign(op: BinOp): (t: Text)
    ensures t != []
  {
    match op
    case And => [65, 78, 68]
    case Or => [79, 82]
    case Eq => [61]
    case Ne => [33, 61]
    case Ge => [62, 61]
    case Gt => [62]
    case Le => [60, 61]
    case Lt => [60]
    case Sub => [45]
    case Add => [43]
    case Mul => [42]
    case Div => [92]
  }

  /** An expression as it is written, without parentheses and plus signs; signed numbers as numbers. */
  function Written(a: Ast, fixed: Text -> Text): Text {
    match a
    case Literal(_, raw) => Unquote(raw)
    case Null => NULL_TEXT
    case Column(col) => Unquote(col)
    case Qualified(tbl, col) => Unquote(tbl) + [N.POINT] + Unquote(col)
    case Star => [42]
    case TableStar(tbl) => Unquote(tbl) + [N.POINT, 42]
    case SchemaStar(db, tbl) => Unquote(db) + [N.POINT] + Unquote(tbl) + [N.POINT, 42]
    case Paren(e) => Written(e, fixed)
    case Plus(e) => Written(e, fixed)
    case Neg(e) => if IsConstant(e) then Negated(Core(e).value.kind, Written(e, fixed), fixed) else [N.MINUS] + Written(e, fixed)
    case Bin(op, l, r) => Written(l, fixed) + Sign(op) + Written(r, fixed)
  }

  /** Column names are not empty. */
  predicate Named(a: Ast) {
    match a
    case Column(col) => Unquote(col) != []
    case Paren(e) => Named(e)
    case Plus(e) => Named(e)
    case Neg(e) => Named(e)
    case _ => true
  }

  /** A value holds the text it is written with exactly if it is a constant; any other holds none. */
  lemma {:induction false} HeldIffConstant(a: Ast, fixed: Text -> Text)
    requires SignsOk(a) && Named(a)
    ensures TreeOf(a).Some?
    ensures ValueText(TreeOf(a).value, fixed) == Written(a, fixed) <==> IsConstant(a)
    ensures !IsConstant(a) ==> ValueText(TreeOf(a).value, fixed) == [] && Written(a, fixed) != []
  {
    ConstantTree(a);
    match a
    case Paren(e) => HeldIffConstant(e, fixed);
    case Plus(e) => HeldIffConstant(e, fixed);
    case Neg(e) => HeldIffConstant(e, fixed);
    case _ =>
  }

  // ------------------------------------------------- what a statement means

  predicate NoColumns(it: Item) {
    match it
    case Const(_, _, _) => true
    case Node(_, l, r) => NoColumns(l) && NoColumns(r)
    case _ => false
  }

  function LitKindOf(kind: Kind): Q.LitKind {
    match kind
    case KInt => Q.LInt
    case KFloat => Q.LFloat
    case _ => Q.LText
  }

  /** The expression that `exec_condition` would evaluate. */
  function ExprOf(it: Item, fixed: Text -> Text): Q.Expr
    requires NoColumns(it)
  {
    match it
    case Const(kind, _, _) => Q.Fixed(LitKindOf(kind), ValueText(it, fixed))
    case Node(op, l, r) => Q.Op(op, ExprOf(l, fixed), ExprOf(r, fixed))
  }

  /** No constant is the empty text, which is null. */
  predicate NoNulls(it: Item, fixed: Text -> Text)
    requires NoColumns(it)
  {
    match it
    case Const(_, _, _) => ValueText(it, fixed) != []
    case Node(_, l, r) => NoNulls(l, fixed) && NoNulls(r, fixed)
  }

  lemma {:induction false} ValueNotNull(n: Q.Numerals, it: Item, fixed: Text -> Text)
    requires Q.Exact(n) && NoColumns(it) && NoNulls(it, fixed)
    ensures Q.Eval(n, ExprOf(it, fixed)) != Q.Val(Q.NULL)
  {
    match it
    case Const(_, _, _) =>
    case Node(op, l, r) =>
      ValueNotNull(n, l, fixed);
      ValueNotNull(n, r, fixed);
      var a, b := Q.Eval(n, ExprOf(l, fixed)), Q.Eval(n, ExprOf(r, fixed));
      if a.Val? && b.Val? && Q.Arithmetic(op) { ResultNotNull(n, op, a.text, b.text); }
  }

  lemma ResultNotNull(n: Q.Numerals, op: BinOp, a: Text, b: Text)
    requires Q.Exact(n) && Q.Arithmetic(op)
    ensures Q.Calculate(n, op, a, b) != Q.Val(Q.NULL)
  {
    var c := Q.Calculate(n, op, a, b);
    if c.Val? {
      var x, y := n.num(a).value, n.num(b).value;
      if op == Add {
        assert n.num(n.fmt(N.Plus(x, y))).Some?;
      } else if op == Sub {
        assert n.num(n.fmt(N.Minus(x, y))).Some?;
      } else if op == Mul {
        assert n.num(n.fmt(N.Times(x, y))).Some?;
      } else {
        assert n.num(n.fmt(N.Over(x, y))).Some?;
      }
    }
  }

  /**
   A value without columns is stored as what it evaluates to exactly if it is a constant or evaluates
   to null, which it does not unless one of its constants is the empty text.
   */
  lemma HeldIsValueIff(n: Q.Numerals, a: Ast, fixed: Text -> Text)
    requires Q.Exact(n) && SignsOk(a) && (TreeOf(a).Some? ==> NoColumns(TreeOf(a).value))
    ensures TreeOf(a).Some?
    ensures var value := Q.Eval(n, ExprOf(TreeOf(a).value, fixed));
            && (value == Q.Val(ValueText(TreeOf(a).value, fixed)) <==> IsConstant(a) || value == Q.Val(Q.NULL))
            && (value == Q.Val(Q.NULL) ==> !NoNulls(TreeOf(a).value, fixed))
  {
    ConstantTree(a);
    if NoNulls(TreeOf(a).value, fixed) { ValueNotNull(n, TreeOf(a).value, fixed); }
  }
}

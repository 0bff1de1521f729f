/**
 The compiler is correct: for every expression of the grammar, translating,
 reversing, linking and running it leaves exactly its syntax tree on the stack.
 */
module SqlCorrect {
  import opened Prelude
  import opened SqlCode
  import opened SqlParse
  import opened SqlVm

  /** The tree an expression denotes; None where the machine reports an error. */
  function TreeOf(a: Ast): Option<Item> {
    match a
    case Literal(kind, raw) => Some(Const(kind, Unquote(raw), 0))
    case Null => Some(Const(KVarchar, NULL_TEXT, 0))
    case Column(col) => Some(Col([], Unquote(col), false))
    case Qualified(tbl, col) => Some(Col(Unquote(tbl), Unquote(col), false))
    case Star => None // expands to the columns of a schema
    case TableStar(_) => None
    case SchemaStar(_, _) => None
    case Paren(e) => TreeOf(e)
    case Plus(e) => TreeOf(e)
    case Neg(e) => if TreeOf(e).None? then None else NegateItem(TreeOf(e).value)
    case Bin(op, l, r) =>
      if TreeOf(l).None? || TreeOf(r).None? then None else Some(Node(op, TreeOf(l).value, TreeOf(r).value))
  }

  /** Every token of the expression has the kind its spelling has, and none is an asterisk that stands for columns. */
  predicate Lexed(a: Ast, kindOf: Text -> Kind) {
    match a
    case Literal(kind, raw) => kind != KName && kindOf(raw) == kind
    case Null => kindOf(NULL_TEXT) == KVarchar
    case Column(col) => kindOf(col) == KName
    case Qualified(tbl, col) => kindOf(tbl) == KName && kindOf(col) == KName
    case Star => false
    case TableStar(_) => false
    case SchemaStar(_, _) => false
    case Paren(e) => Lexed(e, kindOf)
    case Plus(e) => Lexed(e, kindOf)
    case Neg(e) => Lexed(e, kindOf)
    case Bin(_, l, r) => Lexed(l, kindOf) && Lexed(r, kindOf)
  }

  /** Tables start with the empty string, which stands for an absent name. */
  predicate Table(data: seq<Datum>, kindOf: Text -> Kind) {
    data != [] && data[0].raw == EMPTY && Consistent(data, kindOf)
  }

  lemma InternTable(data: seq<Datum>, d: Datum, kindOf: Text -> Kind)
    requires Table(data, kindOf) && d.kind == kindOf(d.raw)
    ensures Table(Intern(data, d), kindOf) && data <= Intern(data, d)
    ensures var i := FindData(data, d.raw); i < |Intern(data, d)| && Intern(data, d)[i] == d
  {
    InternHolds(data, d, kindOf);
  }

  /** Translation only ever appends to the table. */
  lemma {:induction false} EmitTable(a: Ast, data: seq<Datum>, kindOf: Text -> Kind)
    requires Table(data, kindOf) && Lexed(a, kindOf)
    ensures Table(Emit(a, data).data, kindOf) && data <= Emit(a, data).data
  {
    match a
    case Literal(kind, raw) => InternTable(data, Datum(kind, raw), kindOf);
    case Null => InternTable(data, Datum(KVarchar, NULL_TEXT), kindOf);
    case Column(col) => InternTable(data, Datum(KName, col), kindOf);
    case Qualified(tbl, col) =>
      InternTable(data, Datum(KName, tbl), kindOf);
      InternTable(Intern(data, Datum(KName, tbl)), Datum(KName, col), kindOf);
    case Paren(e) => EmitTable(e, data, kindOf);
    case Plus(e) => EmitTable(e, data, kindOf);
    case Neg(e) => EmitTable(e, data, kindOf);
    case Bin(_, l, r) =>
      EmitTable(l, data, kindOf);
      EmitTable(r, Emit(l, data).data, kindOf);
  }

  /** What running a piece of prefix code against the whole data segment does. */
  function Run(code: seq<Instr>, whole: seq<Datum>, st: Stack): Option<Stack>
    requires Short16(whole)
  {
    Exec(Linked(code, whole), st, DataBytes(whole))
  }

  /** Prefix code runs from its last piece to its first. */
  lemma RunAppend(a: seq<Instr>, b: seq<Instr>, whole: seq<Datum>, st: Stack)
    requires Short16(whole)
    ensures Run(a + b, whole, st)
         == (var s := Run(b, whole, st); if s.None? then None else Run(a, whole, s.value))
  {
    LinkedAppend(a, b, whole);
    ExecAppend(Linked(b, whole), Linked(a, whole), st, DataBytes(whole));
  }

  lemma RunOne(i: Instr, whole: seq<Datum>, st: Stack)
    requires Short16(whole)
    ensures Run([i], whole, st) == Exec1(LinkInstr(i, whole), st, DataBytes(whole))
  {
    LinkedOne(i, whole);
    var b := DataBytes(whole);
    var j := LinkInstr(i, whole);
    assert [j][1..] == [];
    assert Exec([j], st, b) == Exec1(j, st, b);
  }

  /** The last instruction runs first. */
  lemma ThenPush(code: seq<Instr>, i: nat, whole: seq<Datum>, st: Stack)
    requires Short16(whole) && i < |whole|
    ensures Run(code + [PushO(i)], whole, st) == Run(code, whole, st + [Offset(OffsetOf(whole, i))])
  {
    RunAppend(code, [PushO(i)], whole, st);
    RunOne(PushO(i), whole, st);
  }

  lemma MakeConst(at: nat, b: seq<Byte>, st: Stack, d: Datum)
    requires EntryAt(b, at, d) && d.kind != KName
    ensures Exec1(Call(MkExpr), st + [Offset(at)], b) == Some(st + [Const(d.kind, Unquote(d.raw), 0)])
  {
    var s := st + [Offset(at)];
    assert s[..|s| - 1] == st;
  }

  lemma MakeColumn(n: nat, t: nat, c: nat, b: seq<Byte>, st: Stack, none: Datum, tbl: Datum, col: Datum)
    requires EntryAt(b, n, none) && EntryAt(b, t, tbl) && EntryAt(b, c, col) && none.raw == EMPTY
    ensures Exec1(Call(MkColumn), st + [Offset(c)] + [Offset(t)] + [Offset(n)], b)
         == Some(st + [Col(Unquote(tbl.raw), Unquote(col.raw), false)])
  {
    var s := st + [Offset(c)] + [Offset(t)] + [Offset(n)];
    assert s[..|s| - 3] == st;
    assert s[|s| - 1] == Offset(n) && s[|s| - 2] == Offset(t) && s[|s| - 3] == Offset(c);
  }

  lemma RunLiteral(i: nat, whole: seq<Datum>, st: Stack)
    requires Short16(whole) && i < |whole| && whole[i].kind != KName
    ensures Run([Call(MkExpr), PushO(i)], whole, st)
         == Some(st + [Const(whole[i].kind, Unquote(whole[i].raw), 0)])
  {
    assert [Call(MkExpr), PushO(i)] == [Call(MkExpr)] + [PushO(i)];
    ThenPush([Call(MkExpr)], i, whole, st);
    RunOne(Call(MkExpr), whole, st + [Offset(OffsetOf(whole, i))]);
    LinkedEntry(whole, i);
    MakeConst(OffsetOf(whole, i), DataBytes(whole), st, whole[i]);
  }

  lemma RunColumn(n: nat, t: nat, c: nat, whole: seq<Datum>, st: Stack)
    requires Short16(whole) && n < |whole| && t < |whole| && c < |whole| && whole[n].raw == EMPTY
    ensures Run([Call(MkColumn), PushO(n), PushO(t), PushO(c)], whole, st)
         == Some(st + [Col(Unquote(whole[t].raw), Unquote(whole[c].raw), false)])
  {
    var x, y, z := OffsetOf(whole, c), OffsetOf(whole, t), OffsetOf(whole, n);
    RunColumnPushes(n, t, c, whole, st);
    RunOne(Call(MkColumn), whole, st + [Offset(x)] + [Offset(y)] + [Offset(z)]);
    LinkedEntry(whole, n);
    LinkedEntry(whole, t);
    LinkedEntry(whole, c);
    MakeColumn(z, y, x, DataBytes(whole), st, whole[n], whole[t], whole[c]);
  }

  lemma RunColumnPushes(n: nat, t: nat, c: nat, whole: seq<Datum>, st: Stack)
    requires Short16(whole) && n < |whole| && t < |whole| && c < |whole|
    ensures Run([Call(MkColumn), PushO(n), PushO(t), PushO(c)], whole, st)
         == Run([Call(MkColumn)], whole,
                st + [Offset(OffsetOf(whole, c))] + [Offset(OffsetOf(whole, t))] + [Offset(OffsetOf(whole, n))])
  {
    var s1 := st + [Offset(OffsetOf(whole, c))];
    var s2 := s1 + [Offset(OffsetOf(whole, t))];
    assert [Call(MkColumn), PushO(n), PushO(t), PushO(c)] == [Call(MkColumn), PushO(n), PushO(t)] + [PushO(c)];
    ThenPush([Call(MkColumn), PushO(n), PushO(t)], c, whole, st);
    assert [Call(MkColumn), PushO(n), PushO(t)] == [Call(MkColumn), PushO(n)] + [PushO(t)];
    ThenPush([Call(MkColumn), PushO(n)], t, whole, s1);
    assert [Call(MkColumn), PushO(n)] == [Call(MkColumn)] + [PushO(n)];
    ThenPush([Call(MkColumn)], n, whole, s2);
  }

  function Pushed(st: Stack, t: Option<Item>): Option<Stack> {
    if t.None? then None else Some(st + [t.value])
  }

  lemma RunNegate(code: seq<Instr>, t: Option<Item>, whole: seq<Datum>, st: Stack)
    requires Short16(whole) && Run(code, whole, st) == Pushed(st, t)
    ensures Run([Call(Negate)] + code, whole, st)
         == Pushed(st, if t.None? then None else NegateItem(t.value))
  {
    RunAppend([Call(Negate)], code, whole, st);
    if t.Some? {
      var s := st + [t.value];
      RunOne(Call(Negate), whole, s);
      assert s[..|s| - 1] == st;
    }
  }

  lemma RunApply(op: BinOp, lc: seq<Instr>, rc: seq<Instr>, l: Option<Item>, r: Option<Item>, whole: seq<Datum>, st: Stack)
    requires Short16(whole) && Run(rc, whole, st) == Pushed(st, r)
    requires r.Some? ==> Run(lc, whole, st + [r.value]) == Pushed(st + [r.value], l)
    ensures Run([Call(Apply(op))] + lc + rc, whole, st)
         == Pushed(st, if l.None? || r.None? then None else Some(Node(op, l.value, r.value)))
  {
    RunAppend([Call(Apply(op))] + lc, rc, whole, st);
    if r.Some? {
      RunAppend([Call(Apply(op))], lc, whole, st + [r.value]);
      if l.Some? {
        var s := st + [r.value] + [l.value];
        RunOne(Call(Apply(op)), whole, s);
        assert s[..|s| - 2] == st;
      }
    }
  }

  /** Main theorem: compiled code run from any stack leaves that stack plus the expression's tree. */
  lemma {:induction false} CompilerCorrect(a: Ast, data: seq<Datum>, whole: seq<Datum>, kindOf: Text -> Kind, st: Stack)
    requires Table(data, kindOf) && Lexed(a, kindOf)
    requires Emit(a, data).data <= whole && Short16(whole)
    ensures Run(Emit(a, data).code, whole, st) == Pushed(st, TreeOf(a))
    decreases a
  {
    match a
    case Paren(e) => CompilerCorrect(e, data, whole, kindOf, st);
    case Plus(e) => CompilerCorrect(e, data, whole, kindOf, st);
    case Neg(e) =>
      CompilerCorrect(e, data, whole, kindOf, st);
      RunNegate(Emit(e, data).code, TreeOf(e), whole, st);
    case Bin(op, l, r) =>
      EmitTable(l, data, kindOf);
      EmitTable(r, Emit(l, data).data, kindOf);
      CompilerCorrect(r, Emit(l, data).data, whole, kindOf, st);
      if TreeOf(r).Some? {
        CompilerCorrect(l, data, whole, kindOf, st + [TreeOf(r).value]);
      }
      RunApply(op, Emit(l, data).code, Emit(r, Emit(l, data).data).code, TreeOf(l), TreeOf(r), whole, st);
    case _ => LeafCorrect(a, data, whole, kindOf, st);
  }

  lemma LeafCorrect(a: Ast, data: seq<Datum>, whole: seq<Datum>, kindOf: Text -> Kind, st: Stack)
    requires Table(data, kindOf) && Lexed(a, kindOf) && !a.Paren? && !a.Plus? && !a.Neg? && !a.Bin?
    requires Emit(a, data).data <= whole && Short16(whole)
    ensures Run(Emit(a, data).code, whole, st) == Pushed(st, TreeOf(a))
  {
    EmitTable(a, data, kindOf);
    match a
    case Literal(kind, raw) =>
      InternTable(data, Datum(kind, raw), kindOf);
      RunLiteral(FindData(data, raw), whole, st);
    case Null =>
      InternTable(data, Datum(KVarchar, NULL_TEXT), kindOf);
      RunLiteral(FindData(data, NULL_TEXT), whole, st);
    case Column(col) =>
      InternTable(data, Datum(KName, col), kindOf);
      RunColumn(0, 0, FindData(data, col), whole, st);
    case Qualified(tbl, col) =>
      var d := Intern(data, Datum(KName, tbl));
      InternTable(data, Datum(KName, tbl), kindOf);
      InternTable(d, Datum(KName, col), kindOf);
      RunColumn(0, FindData(data, tbl), FindData(d, col), whole, st);
  }

  /** From tokens to tree: parse into an empty buffer, reverse, link and run. */
  lemma EndToEnd(toks: seq<Token>, pos: nat, a: Ast, data: seq<Datum>, kindOf: Text -> Kind, st: Stack)
    requires Table(data, kindOf) && Lexed(a, kindOf) && Fits(a, 0, true)
    requires Spells(toks, pos, a) && Stops(Peek(toks, pos + |Tokens(a)|), 0)
    ensures var r := LogicExpr(toks, pos, data, []);
            r.Good? && r.pos == pos + |Tokens(a)| && data <= r.data
            && forall whole :: r.data <= whole && Short16(whole) ==> Run(r.code, whole, st) == Pushed(st, TreeOf(a))
  {
    LogicEmits(toks, pos, a, data);
    EmitTable(a, data, kindOf);
    forall whole | Emit(a, data).data <= whole && Short16(whole)
      ensures Run(Emit(a, data).code, whole, st) == Pushed(st, TreeOf(a))
    {
      CompilerCorrect(a, data, whole, kindOf, st);
    }
  }

  // ------------------------------------------------------------- unary minus

  /** Whether a minus sign can be applied: its operand is a numeric constant or a column. */
  predicate Negatable(a: Ast) {
    match a
    case Literal(kind, _) => kind == KInt || kind == KFloat
    case Null => false
    case Column(_) => true
    case Qualified(_, _) => true
    case Star => false
    case TableStar(_) => false
    case SchemaStar(_, _) => false
    case Paren(e) => Negatable(e)
    case Plus(e) => Negatable(e)
    case Neg(e) => Negatable(e)
    case Bin(_, _, _) => false
  }

  /** Every minus sign stands where it may, and there is no asterisk for columns. */
  predicate SignsOk(a: Ast) {
    match a
    case Star => false
    case TableStar(_) => false
    case SchemaStar(_, _) => false
    case Paren(e) => SignsOk(e)
    case Plus(e) => SignsOk(e)
    case Neg(e) => SignsOk(e) && Negatable(e)
    case Bin(_, l, r) => SignsOk(l) && SignsOk(r)
    case _ => true
  }

  /** An expression without asterisks gets a tree exactly when every minus sign stands before a number or a column. */
  lemma {:induction false} TreeIffSigns(a: Ast)
    ensures TreeOf(a).Some? <==> SignsOk(a)
    ensures SignsOk(a) ==> (Negatable(a) <==> NegateItem(TreeOf(a).value).Some?)
  {
    match a
    case Paren(e) => TreeIffSigns(e);
    case Plus(e) => TreeIffSigns(e);
    case Neg(e) => TreeIffSigns(e);
    case Bin(_, l, r) => TreeIffSigns(l); TreeIffSigns(r);
    case _ =>
  }

  predicate IsColumn(a: Ast) {
    match a
    case Column(_) => true
    case Qualified(_, _) => true
    case Paren(e) => IsColumn(e)
    case Plus(e) => IsColumn(e)
    case Neg(e) => IsColumn(e)
    case _ => false
  }

  /** A minus sign already stands before the column. */
  predicate Signed(a: Ast) {
    match a
    case Paren(e) => Signed(e)
    case Plus(e) => Signed(e)
    case Neg(_) => true
    case _ => false
  }

  lemma {:induction false} ColumnTree(a: Ast)
    requires SignsOk(a)
    ensures TreeOf(a).Some? && (IsColumn(a) <==> TreeOf(a).value.Col?)
    ensures IsColumn(a) ==> TreeOf(a).value.negated == Signed(a)
  {
    TreeIffSigns(a);
    match a
    case Paren(e) => ColumnTree(e);
    case Plus(e) => ColumnTree(e);
    case Neg(e) => ColumnTree(e);
    case _ =>
  }
}

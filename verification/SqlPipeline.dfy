/** All passes in one statement: tokens in, bytes in the middle, a tree on the stack or rows in the table. */
module SqlPipeline {
  import opened Prelude
  import opened SqlCode
  import opened SqlParse
  import opened SqlVm
  import opened SqlCorrect
  import opened SqlBytes
  import opened SqlInsert
  import opened SqlDeliver

  /** Expression code: function calls, counts, and indices into a table of `size` entries. */
  predicate Expression(i: Instr, size: nat) {
    (i.Call? && !i.fn.Statement?) || (i.PushO? && 0 <= i.at < size) || (i.Push? && Int32(i.n))
  }

  predicate Expressions(code: seq<Instr>, size: nat) {
    forall i :: 0 <= i < |code| ==> Expression(code[i], size)
  }

  lemma ExpressionsAppend(a: seq<Instr>, b: seq<Instr>, m: nat, n: nat)
    requires Expressions(a, m) && Expressions(b, n) && m <= n
    ensures Expressions(a + b, n)
  {
    forall i | 0 <= i < |a + b| ensures Expression((a + b)[i], n) {
      if i < |a| { assert Expression(a[i], m); } else { assert Expression(b[i - |a|], n); }
    }
  }

  /** Every index in the code of an expression is one of its table. */
  lemma {:induction false} IndicesFit(a: Ast, data: seq<Datum>, kindOf: Text -> Kind)
    requires Table(data, kindOf) && Lexed(a, kindOf)
    ensures Expressions(Emit(a, data).code, |Emit(a, data).data|)
  {
    match a
    case Paren(e) => IndicesFit(e, data, kindOf);
    case Plus(e) => IndicesFit(e, data, kindOf);
    case Neg(e) =>
      IndicesFit(e, data, kindOf);
      ExpressionsAppend([Call(Negate)], Emit(e, data).code, |Emit(e, data).data|, |Emit(e, data).data|);
    case Bin(op, l, r) =>
      var m := Emit(l, data);
      EmitTable(l, data, kindOf);
      EmitTable(r, m.data, kindOf);
      IndicesFit(l, data, kindOf);
      IndicesFit(r, m.data, kindOf);
      ExpressionsAppend([Call(Apply(op))], m.code, |m.data|, |m.data|);
      ExpressionsAppend([Call(Apply(op))] + m.code, Emit(r, m.data).code, |m.data|, |Emit(r, m.data).data|);
    case _ => LeafIndices(a, data, kindOf);
  }

  lemma LeafIndices(a: Ast, data: seq<Datum>, kindOf: Text -> Kind)
    requires Table(data, kindOf) && Lexed(a, kindOf) && !a.Paren? && !a.Plus? && !a.Neg? && !a.Bin?
    ensures Expressions(Emit(a, data).code, |Emit(a, data).data|)
  {
    EmitTable(a, data, kindOf);
    match a
    case Literal(kind, raw) => InternTable(data, Datum(kind, raw), kindOf);
    case Null => InternTable(data, Datum(KVarchar, NULL_TEXT), kindOf);
    case Column(col) => InternTable(data, Datum(KName, col), kindOf);
    case Qualified(tbl, col) =>
      InternTable(data, Datum(KName, tbl), kindOf);
      InternTable(Intern(data, Datum(KName, tbl)), Datum(KName, col), kindOf);
  }

  lemma {:induction false} OffsetInside(data: seq<Datum>, i: nat)
    requires Short16(data) && i <= |data|
    ensures OffsetOf(data, i) <= |DataBytes(data)|
  {
    if i == |data| {
      assert data[..i] == data;
    } else {
      DatumOccurs(data, i);
    }
  }

  lemma {:induction false} LinkEncodable(code: seq<Instr>, whole: seq<Datum>)
    requires Short16(whole) && |DataBytes(whole)| < 0x8000_0000 && Expressions(code, |whole|)
    ensures AllEncodable(Link(code, whole))
  {
    if code != [] {
      assert Expression(code[0], |whole|);
      assert forall i :: 0 <= i < |code| - 1 ==> code[1..][i] == code[i + 1];
      LinkEncodable(code[1..], whole);
      if code[0].PushO? { OffsetInside(whole, code[0].at); }
      var first, rest := LinkInstr(code[0], whole), Link(code[1..], whole);
      forall i | 0 <= i < |rest| + 1 ensures Encodable(([first] + rest)[i]) {
        if i > 0 { assert Encodable(rest[i - 1]); }
      }
    }
  }

  lemma {:induction false} ReverseExpressions(code: seq<Instr>, size: nat)
    requires Expressions(code, size)
    ensures Expressions(Reverse(code), size)
  {
    if code != [] {
      assert forall i :: 0 <= i < |code| - 1 ==> code[1..][i] == code[i + 1];
      ReverseExpressions(code[1..], size);
      assert Expression(code[0], size);
      ExpressionsAppend(Reverse(code[1..]), [code[0]], size, size);
    }
  }

  lemma LinkedEncodable(code: seq<Instr>, whole: seq<Datum>)
    requires Short16(whole) && |DataBytes(whole)| < 0x8000_0000 && Expressions(code, |whole|)
    ensures AllEncodable(Linked(code, whole))
  {
    ReverseExpressions(code, |whole|);
    LinkEncodable(Reverse(code), whole);
  }

  lemma Wider(code: seq<Instr>, m: nat, n: nat)
    requires Expressions(code, m) && m <= n
    ensures Expressions(code, n)
  {
    ExpressionsAppend(code, [], m, n);
    assert code + [] == code;
  }

  /** The bytes of an expression, run from any stack, push exactly the tree of the tokens. */
  lemma Pipeline(toks: seq<Token>, pos: nat, a: Ast, data: seq<Datum>, whole: seq<Datum>, kindOf: Text -> Kind, st: Stack)
    requires Table(data, kindOf) && Lexed(a, kindOf) && Fits(a, 0, true)
    requires Spells(toks, pos, a) && Stops(Peek(toks, pos + |Tokens(a)|), 0)
    requires LogicExpr(toks, pos, data, []).Good? ==> LogicExpr(toks, pos, data, []).data <= whole
    requires Short16(whole) && |DataBytes(whole)| < 0x8000_0000
    ensures LogicExpr(toks, pos, data, []).Good? && AllEncodable(Linked(LogicExpr(toks, pos, data, []).code, whole))
    ensures RunFrom(CodeBytes(Linked(LogicExpr(toks, pos, data, []).code, whole)) + [OP_RET], 0, st, DataBytes(whole))
         == Pushed(st, TreeOf(a))
  {
    LogicEmits(toks, pos, a, data);
    var m := Emit(a, data);
    IndicesFit(a, data, kindOf);
    Wider(m.code, |m.data|, |whole|);
    LinkedEncodable(m.code, whole);
    CompilerCorrect(a, data, whole, kindOf, st);
    var code := Linked(m.code, whole);
    var bytes := CodeBytes(code) + [OP_RET];
    assert Occurs(bytes, 0, CodeBytes(code) + [OP_RET]);
    BytesRun(bytes, 0, code, st, DataBytes(whole));
  }

  // ------------------------------------------------------------------ INSERT

  /** The lengths of all lists are numbers that the machine can hold. */
  predicate Countable(ins: Insertion) {
    Int32(|ins.cols|) && Int32(|ins.sets|) && forall i :: 0 <= i < |ins.sets| ==> Int32(|ins.sets[i]|)
  }

  lemma {:induction false} NamesIndices(cols: seq<Text>, data: seq<Datum>, kindOf: Text -> Kind)
    requires Table(data, kindOf) && LexedNames(cols, kindOf)
    ensures Expressions(EmitNames(cols, data).code, |EmitNames(cols, data).data|)
    decreases |cols|
  {
    if cols != [] {
      assert forall i :: 0 <= i < |cols| - 1 ==> cols[1..][i] == cols[i + 1];
      var d := Intern(data, Datum(KName, cols[0]));
      InternTable(data, Datum(KName, cols[0]), kindOf);
      NamesTable(cols[1..], d, kindOf);
      NamesIndices(cols[1..], d, kindOf);
      ExpressionsAppend([PushO(FindData(data, cols[0]))], EmitNames(cols[1..], d).code, |d|, |EmitNames(cols[1..], d).data|);
    }
  }

  lemma {:induction false} ValuesIndices(vs: seq<Ast>, data: seq<Datum>, kindOf: Text -> Kind)
    requires Table(data, kindOf) && LexedList(vs, kindOf)
    ensures Expressions(EmitValues(vs, data).code, |EmitValues(vs, data).data|)
    decreases |vs|
  {
    if vs != [] {
      LexedTail(vs, kindOf);
      var m := Emit(vs[0], data);
      EmitTable(vs[0], data, kindOf);
      IndicesFit(vs[0], data, kindOf);
      ValuesTable(vs[1..], m.data, kindOf);
      ValuesIndices(vs[1..], m.data, kindOf);
      ExpressionsAppend(m.code, EmitValues(vs[1..], m.data).code, |m.data|, |EmitValues(vs[1..], m.data).data|);
    }
  }

  lemma {:induction false} SetsIndices(sets: seq<seq<Ast>>, data: seq<Datum>, kindOf: Text -> Kind)
    requires Table(data, kindOf) && LexedSets(sets, kindOf) && forall i :: 0 <= i < |sets| ==> Int32(|sets[i]|)
    ensures Expressions(EmitSets(sets, data).code, |EmitSets(sets, data).data|)
    decreases |sets|
  {
    if sets != [] {
      var rest := sets[1..];
      assert forall i :: 0 <= i < |rest| ==> rest[i] == sets[i + 1];
      var m := EmitValues(sets[0], data);
      var k := EmitSets(rest, m.data);
      ValuesTable(sets[0], data, kindOf);
      ValuesIndices(sets[0], data, kindOf);
      SetsTable(rest, m.data, kindOf);
      SetsIndices(rest, m.data, kindOf);
      ExpressionsAppend([Push(|sets[0]|)], m.code, |m.data|, |m.data|);
      ExpressionsAppend([Push(|sets[0]|)] + m.code, k.code, |m.data|, |k.data|);
    }
  }

  lemma BodyIndices(ins: Insertion, data: seq<Datum>, kindOf: Text -> Kind)
    requires Table(data, kindOf) && LexedNames(ins.cols, kindOf) && LexedSets(ins.sets, kindOf) && Countable(ins)
    ensures Expressions(EmitBody(ins, data).code, |EmitBody(ins, data).data|)
  {
    var c := EmitNames(ins.cols, data);
    var s := EmitSets(ins.sets, c.data);
    NamesTable(ins.cols, data, kindOf);
    NamesIndices(ins.cols, data, kindOf);
    SetsTable(ins.sets, c.data, kindOf);
    SetsIndices(ins.sets, c.data, kindOf);
    ExpressionsAppend([Push(|ins.cols|)], c.code, |c.data|, |c.data|);
    ExpressionsAppend([Push(|ins.sets|)], s.code, |s.data|, |s.data|);
    ExpressionsAppend([Push(|ins.cols|)] + c.code, [Push(|ins.sets|)] + s.code, |c.data|, |s.data|);
  }

  lemma BodyRuns(ins: Insertion, data: seq<Datum>, whole: seq<Datum>, kindOf: Text -> Kind, st: Stack)
    requires Table(data, kindOf) && LexedNames(ins.cols, kindOf) && LexedSets(ins.sets, kindOf) && Countable(ins)
    requires EmitBody(ins, data).data <= whole && Short16(whole) && |DataBytes(whole)| < 0x8000_0000
    ensures AllEncodable(Linked(EmitBody(ins, data).code, whole))
    ensures RunFrom(CodeBytes(Linked(EmitBody(ins, data).code, whole)) + [OP_RET], 0, st, DataBytes(whole))
         == Run(EmitBody(ins, data).code, whole, st)
  {
    var m := EmitBody(ins, data);
    BodyIndices(ins, data, kindOf);
    Wider(m.code, |m.data|, |whole|);
    LinkedEncodable(m.code, whole);
    var code := Linked(m.code, whole);
    var bytes := CodeBytes(code) + [OP_RET];
    assert Occurs(bytes, 0, CodeBytes(code) + [OP_RET]);
    BytesRun(bytes, 0, code, st, DataBytes(whole));
  }

  /**
   INSERT from tokens through bytes to rows: the bytes of the body, run from any stack, leave what
   delivers the names of the statement and the texts that its values hold, in source order, up to
   the first set of another length; they fail exactly if some value has no tree.
   */
  lemma InsertPipeline(toks: seq<Token>, pos: nat, ins: Insertion, data: seq<Datum>, whole: seq<Datum>,
                       kindOf: Text -> Kind, st: Stack, schema: seq<Text>, fixed: Text -> Text)
    requires Table(data, kindOf) && LexedNames(ins.cols, kindOf) && LexedSets(ins.sets, kindOf)
    requires Proper(ins) && Countable(ins)
    requires Occurs(toks, pos, BodyTokens(ins)) && Peek(toks, pos + |BodyTokens(ins)|) != Comma
    requires BodyAt(toks, pos, data).Good? ==> BodyAt(toks, pos, data).data <= whole
    requires Short16(whole) && |DataBytes(whole)| < 0x8000_0000
    ensures BodyAt(toks, pos, data).Good? && AllEncodable(Linked(BodyAt(toks, pos, data).code, whole))
    ensures var bytes := CodeBytes(Linked(BodyAt(toks, pos, data).code, whole)) + [OP_RET];
            var end := RunFrom(bytes, 0, st, DataBytes(whole));
            (end.Some? <==> TreesOfSets(ins.sets).Some?)
            && (end.Some? ==>
                  Deliver(end.value, DataBytes(whole), schema, fixed)
                  == Expected(ins.cols, HeldSets(TreesOfSets(ins.sets).value, fixed), schema))
  {
    BodyEmits(toks, pos, ins, data);
    BodyRuns(ins, data, whole, kindOf, st);
    InsertDelivers(ins, data, whole, kindOf, st, schema, fixed);
  }

  /** From tokens through bytes, what is stored is what is written exactly if all of it is constants. */
  lemma InsertAsWritten(toks: seq<Token>, pos: nat, ins: Insertion, data: seq<Datum>, whole: seq<Datum>,
                        kindOf: Text -> Kind, st: Stack, schema: seq<Text>, fixed: Text -> Text)
    requires Table(data, kindOf) && LexedNames(ins.cols, kindOf) && LexedSets(ins.sets, kindOf)
    requires Proper(ins) && Countable(ins) && NamedSets(ins.sets) && AllIn(ins.cols, schema)
    requires Occurs(toks, pos, BodyTokens(ins)) && Peek(toks, pos + |BodyTokens(ins)|) != Comma
    requires BodyAt(toks, pos, data).Good? ==> BodyAt(toks, pos, data).data <= whole
    requires Short16(whole) && |DataBytes(whole)| < 0x8000_0000
    ensures BodyAt(toks, pos, data).Good? && AllEncodable(Linked(BodyAt(toks, pos, data).code, whole))
    ensures var bytes := CodeBytes(Linked(BodyAt(toks, pos, data).code, whole)) + [OP_RET];
            var end := RunFrom(bytes, 0, st, DataBytes(whole));
            end.Some? ==>
              (Deliver(end.value, DataBytes(whole), schema, fixed) == Expected(ins.cols, WrittenSets(ins.sets, fixed), schema)
               <==> ConstantRows(ins.sets, |Meant(ins.cols, schema)|))
  {
    InsertPipeline(toks, pos, ins, data, whole, kindOf, st, schema, fixed);
    if TreesOfSets(ins.sets).Some? {
      RowsWrittenIff(ins.sets, |Meant(ins.cols, schema)|, fixed);
    }
  }
}

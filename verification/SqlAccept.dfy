/** What the translator accepts: exactly the expressions of the grammar, each as the tree that precedence gives it. */
module SqlAccept {
  import opened Prelude
  import opened SqlCode
  import opened SqlParse
  import opened SqlInsert

  // ------------------------------------------------------------- precedence

  /**
   Of two operators the one of the later row is applied first; of two in one row, the first one.
   */
  lemma Precedence(x: Ast, y: Ast, z: Ast, op1: BinOp, op2: BinOp, i: nat, j: nat, data: seq<Datum>)
    requires FitsPrimary(x, false) && FitsPrimary(y, false) && FitsPrimary(z, false)
    requires i < PRIMARY && j < PRIMARY && op1 in ROWS[i] && op2 in ROWS[j]
    ensures var toks := Tokens(x) + [Operator(op1)] + Tokens(y) + [Operator(op2)] + Tokens(z);
            var a := if i < j then Bin(op1, x, Bin(op2, y, z)) else Bin(op2, Bin(op1, x, y), z);
            LogicExpr(toks, 0, data, []) == Good(Emit(a, data).code, |toks|, Emit(a, data).data)
  {
    var a := if i < j then Bin(op1, x, Bin(op2, y, z)) else Bin(op2, Bin(op1, x, y), z);
    PrecedenceFits(x, y, z, op1, op2, i, j);
    PrecedenceTokens(x, y, z, op1, op2);
    LogicEmits(Tokens(a), 0, a, data);
  }

  lemma PrecedenceTokens(x: Ast, y: Ast, z: Ast, op1: BinOp, op2: BinOp)
    ensures var toks := Tokens(x) + [Operator(op1)] + Tokens(y) + [Operator(op2)] + Tokens(z);
            Tokens(Bin(op1, x, Bin(op2, y, z))) == toks && Tokens(Bin(op2, Bin(op1, x, y), z)) == toks
  {
    var l, r := Bin(op1, x, y), Bin(op2, y, z);
    assert Tokens(l) == Tokens(x) + [Operator(op1)] + Tokens(y);
    assert Tokens(r) == Tokens(y) + [Operator(op2)] + Tokens(z);
    assert Tokens(Bin(op1, x, r)) == Tokens(x) + [Operator(op1)] + (Tokens(y) + [Operator(op2)] + Tokens(z));
  }

  lemma PrecedenceFits(x: Ast, y: Ast, z: Ast, op1: BinOp, op2: BinOp, i: nat, j: nat)
    requires FitsPrimary(x, false) && FitsPrimary(y, false) && FitsPrimary(z, false)
    requires i < PRIMARY && j < PRIMARY && op1 in ROWS[i] && op2 in ROWS[j]
    ensures Fits(if i < j then Bin(op1, x, Bin(op2, y, z)) else Bin(op2, Bin(op1, x, y), z), 0, true)
  {
    LevelIsRow(op1, i);
    LevelIsRow(op2, j);
    if i < j {
      BindsBoth(op2, y, z, i + 1, false);
      PrimaryAnywhere(x, i, true);
      assert Binds(Bin(op1, x, Bin(op2, y, z)), 0, true);
      FitsIff(Bin(op1, x, Bin(op2, y, z)), 0, true);
    } else {
      BindsBoth(op1, x, y, j, true);
      PrimaryAnywhere(z, j + 1, false);
      assert Binds(Bin(op2, Bin(op1, x, y), z), 0, true);
      FitsIff(Bin(op2, Bin(op1, x, y), z), 0, true);
    }
  }

  lemma BindsBoth(op: BinOp, l: Ast, r: Ast, n: nat, star: bool)
    requires FitsPrimary(l, false) && FitsPrimary(r, false) && n <= OpLevel(op)
    ensures Binds(Bin(op, l, r), n, star)
  {
    PrimaryAnywhere(l, OpLevel(op), star);
    PrimaryAnywhere(r, OpLevel(op) + 1, false);
  }

  /** An operand that is no lone asterisk may stand at every level. */
  lemma PrimaryAnywhere(a: Ast, n: nat, star: bool)
    requires FitsPrimary(a, false)
    ensures !a.Bin? && !a.Star? && Binds(a, n, star)
  {
    PrimaryIff(a, false);
  }

  // ---------------------------------------------------- nothing but grammar

  /** The lexer makes no literal that is a name. */
  predicate Lexical(toks: seq<Token>) {
    forall i :: 0 <= i < |toks| ==> (toks[i].Lit? ==> toks[i].kind != KName)
  }

  /** The result is that of `a`, which is spelled from `pos` up to its end. */
  predicate Reads(toks: seq<Token>, pos: nat, r: Parsed, a: Ast, data: seq<Datum>) {
    r.Good? && pos <= r.pos <= |toks| && toks[pos..r.pos] == Tokens(a)
    && r.code == Emit(a, data).code && r.data == Emit(a, data).data
  }

  /** Stretches of a sequence put together. */
  lemma Enclosed<T>(s: seq<T>, pos: nat, end: nat)
    requires pos < end < |s|
    ensures s[pos..end + 1] == [s[pos]] + (s[pos + 1..end] + [s[end]]) == [s[pos]] + s[pos + 1..end] + [s[end]]
  {
  }

  lemma Behind1<T>(s: seq<T>, pos: nat, end: nat)
    requires pos < end <= |s|
    ensures s[pos..end] == [s[pos]] + s[pos + 1..end]
  {
  }

  lemma Between<T>(s: seq<T>, pos: nat, mid: nat, end: nat)
    requires pos <= mid < end <= |s|
    ensures s[pos..end] == s[pos..mid] + ([s[mid]] + s[mid + 1..end]) == s[pos..mid] + [s[mid]] + s[mid + 1..end]
  {
  }

  lemma Three<T>(s: seq<T>, pos: nat)
    requires pos + 3 <= |s|
    ensures s[pos..pos + 3] == [s[pos], s[pos + 1], s[pos + 2]]
    ensures pos + 5 <= |s| ==> s[pos..pos + 5] == [s[pos], s[pos + 1], s[pos + 2], s[pos + 3], s[pos + 4]]
  {
  }

  lemma {:induction false} PrimaryOnly(toks: seq<Token>, pos: nat, data: seq<Datum>, star: bool) returns (a: Ast)
    requires Lexical(toks) && Primary(toks, pos, data, star).Good?
    ensures Binds(a, PRIMARY, star) && Alone(toks, pos, a) && Reads(toks, pos, Primary(toks, pos, data, star), a, data)
    decreases |toks| - pos, 0, 0
  {
    match toks[pos]
    case Lit(kind, raw) =>
      a := Literal(kind, raw);
      assert toks[pos..pos + 1] == [Lit(kind, raw)];
    case NullSym =>
      a := Null;
      assert toks[pos..pos + 1] == [NullSym];
    case Name(raw) => a := NameOnly(toks, pos, data);
    case LParen =>
      var e := LogicOnly(toks, pos + 1, data);
      var end := LogicExpr(toks, pos + 1, data, []).pos;
      a := Paren(e);
      ParenPrimary(toks, pos, data, star, Emit(e, data), end);
      Enclosed(toks, pos, end);
    case Operator(op) =>
      if op == Mul {
        a := Star;
        assert toks[pos..pos + 1] == [ASTERISK];
      } else {
        var e := PrimaryOnly(toks, pos + 1, data, false);
        a := if op == Sub then Neg(e) else Plus(e);
        SignedOperand(toks, pos, data, star, op, e);
      }
  }

  lemma SignedOperand(toks: seq<Token>, pos: nat, data: seq<Datum>, star: bool, op: BinOp, e: Ast)
    requires Peek(toks, pos) == Operator(op) && (op == Sub || op == Add) && Primary(toks, pos, data, star).Good?
    requires Reads(toks, pos + 1, Primary(toks, pos + 1, data, false), e, data)
    ensures Reads(toks, pos, Primary(toks, pos, data, star), if op == Sub then Neg(e) else Plus(e), data)
  {
    var end := Primary(toks, pos + 1, data, false).pos;
    Behind1(toks, pos, end);
  }

  lemma NameOnly(toks: seq<Token>, pos: nat, data: seq<Datum>) returns (a: Ast)
    requires Peek(toks, pos).Name? && ColumnName(toks, pos, data).Good?
    ensures !a.Bin? && !a.Star? && Binds(a, PRIMARY, false) && Binds(a, PRIMARY, true)
    ensures Reads(toks, pos, ColumnName(toks, pos, data), a, data)
  {
    var first := toks[pos].raw;
    var stars := Peek(toks, pos + 1) == Dot && Peek(toks, pos + 2) == ASTERISK;
    if NamesAt(toks, pos) == 2 {
      a := TwoNames(toks, pos, data);
    } else if stars {
      a := TableStar(first);
      Three(toks, pos);
    } else {
      a := Column(first);
      assert toks[pos..pos + 1] == [Name(first)];
    }
  }

  lemma TwoNames(toks: seq<Token>, pos: nat, data: seq<Datum>) returns (a: Ast)
    requires NamesAt(toks, pos) == 2 && ColumnName(toks, pos, data).Good?
    ensures a.Qualified? || a.SchemaStar?
    ensures Reads(toks, pos, ColumnName(toks, pos, data), a, data)
  {
    var first, second := toks[pos].raw, toks[pos + 2].raw;
    Three(toks, pos);
    if Peek(toks, pos + 3) == Dot && Peek(toks, pos + 4) == ASTERISK {
      a := SchemaStar(first, second);
    } else {
      a := Qualified(first, second);
    }
  }

  /** A column qualified by a table and a database is not accepted. */
  lemma ThreeNamesRefused(toks: seq<Token>, pos: nat, data: seq<Datum>, star: bool)
    requires Peek(toks, pos).Name? && Peek(toks, pos + 2).Name? && Peek(toks, pos + 4).Name?
    requires Peek(toks, pos + 1) == Dot && Peek(toks, pos + 3) == Dot
    ensures Primary(toks, pos, data, star).Bad? && LogicExpr(toks, pos, data, []).Bad?
  {
    NoOperand(toks, pos, data, 1, true);
  }

  lemma {:induction false} NoOperand(toks: seq<Token>, pos: nat, data: seq<Datum>, n: nat, star: bool)
    requires 1 <= n <= PRIMARY && Primary(toks, pos, data, star).Bad?
    ensures ParseAt(toks, pos, data, n, star).Bad?
    decreases PRIMARY - n
  {
    if n < PRIMARY { NoOperand(toks, pos, data, n + 1, star); }
  }

  lemma {:induction false} LevelOnly(toks: seq<Token>, pos: nat, data: seq<Datum>, n: nat, star: bool) returns (a: Ast)
    requires 1 <= n <= PRIMARY && Lexical(toks) && ParseAt(toks, pos, data, n, star).Good?
    ensures Binds(a, n, star) && Alone(toks, pos, a) && Reads(toks, pos, ParseAt(toks, pos, data, n, star), a, data)
    decreases |toks| - pos, PRIMARY + 1 - n, 1
  {
    if n == PRIMARY {
      a := PrimaryOnly(toks, pos, data, star);
    } else {
      var r := ParseAt(toks, pos, data, n + 1, star);
      var b := LevelOnly(toks, pos, data, n + 1, star);
      BindsLooser(b, n, star);
      assert [] + r.code == r.code;
      a := RestOnly(toks, pos, n, star, [], r.code, r.pos, b, data);
    }
  }

  lemma BindsLooser(a: Ast, n: nat, star: bool)
    requires Binds(a, n + 1, star)
    ensures Binds(a, n, star)
  {
  }

  /** Operands that are folded in extend the tree at its top. */
  lemma {:induction false} RestOnly(toks: seq<Token>, start: nat, n: nat, star: bool, code: seq<Instr>, term: seq<Instr>,
                                    pos: nat, b: Ast, data: seq<Datum>) returns (a: Ast)
    requires n < PRIMARY && Lexical(toks) && start < pos <= |toks| && toks[start..pos] == Tokens(b)
    requires Binds(b, n, star) && Alone(toks, start, b) && code + term == Emit(b, data).code
    requires Rest(toks, n, code, term, pos, Emit(b, data).data).Good?
    ensures Binds(a, n, star) && Alone(toks, start, a)
    ensures Reads(toks, start, Rest(toks, n, code, term, pos, Emit(b, data).data), a, data)
    decreases |toks| - pos, PRIMARY + 1, 0
  {
    var t, d := Peek(toks, pos), Emit(b, data).data;
    if t.Operator? && OpLevel(t.op) == n {
      var r := ParseAt(toks, pos + 1, d, n + 1, false);
      var c := LevelOnly(toks, pos + 1, d, n + 1, false);
      var b' := OneMore(toks, start, n, star, pos, b, t.op, c, data, r);
      assert [Call(Apply(t.op))] + code + term + r.code + [] == Emit(b', data).code by {
        PrefixStep(t.op, code, term, Emit(b, data).code, r.code);
      }
      a := RestOnly(toks, start, n, star, [Call(Apply(t.op))] + code + term + r.code, [], r.pos, b', data);
    } else {
      a := b;
    }
  }

  lemma OneMore(toks: seq<Token>, start: nat, n: nat, star: bool, pos: nat, b: Ast, op: BinOp, c: Ast, data: seq<Datum>, r: Parsed)
      returns (b': Ast)
    requires n < PRIMARY && start < pos < |toks| && toks[pos] == Operator(op) && OpLevel(op) == n
    requires toks[start..pos] == Tokens(b) && Binds(b, n, star) && Alone(toks, start, b)
    requires Binds(c, n + 1, false) && Reads(toks, pos + 1, r, c, Emit(b, data).data)
    ensures Binds(b', n, star) && Alone(toks, start, b') && toks[start..r.pos] == Tokens(b')
    ensures Emit(b', data) == Emitted([Call(Apply(op))] + Emit(b, data).code + r.code, r.data)
  {
    b' := Bin(op, b, c);
    Between(toks, start, pos, r.pos);
    if b.Star? { assert pos == start + 1; }
  }

  lemma {:induction false} LogicOnly(toks: seq<Token>, pos: nat, data: seq<Datum>) returns (a: Ast)
    requires Lexical(toks) && LogicExpr(toks, pos, data, []).Good?
    ensures Binds(a, 0, true) && Reads(toks, pos, LogicExpr(toks, pos, data, []), a, data)
    decreases |toks| - pos, PRIMARY + 1, 1
  {
    var r := ParseAt(toks, pos, data, 1, true);
    var b := LevelOnly(toks, pos, data, 1, true);
    BindsLooser(b, 0, true);
    assert [] + r.code == r.code;
    a := RestOnly(toks, pos, 0, true, [], r.code, r.pos, b, data);
  }

  /** Whatever is accepted is an expression of the grammar, and becomes its prefix code. */
  lemma AcceptsOnly(toks: seq<Token>, pos: nat, data: seq<Datum>) returns (a: Ast)
    requires Lexical(toks) && LogicExpr(toks, pos, data, []).Good?
    ensures Fits(a, 0, true) && Reads(toks, pos, LogicExpr(toks, pos, data, []), a, data)
  {
    a := LogicOnly(toks, pos, data);
    FitsIff(a, 0, true);
  }

  /** Tokens are read to their end exactly if they spell an expression of the grammar. */
  lemma AcceptsIff(toks: seq<Token>, data: seq<Datum>)
    requires Lexical(toks)
    ensures LogicExpr(toks, 0, data, []).Good? && LogicExpr(toks, 0, data, []).pos == |toks|
       <==> exists a :: Fits(a, 0, true) && Tokens(a) == toks
  {
    if LogicExpr(toks, 0, data, []).Good? && LogicExpr(toks, 0, data, []).pos == |toks| {
      var a := AcceptsOnly(toks, 0, data);
      assert toks[0..|toks|] == toks;
    }
    if a: Ast :| Fits(a, 0, true) && Tokens(a) == toks {
      LogicEmits(toks, 0, a, data);
    }
  }

  // ---------------------------------------------------------------- INSERT

  lemma MoreNames(toks: seq<Token>, pos: nat, end: nat, raw: Text, rest: seq<Text>)
    requires pos + 2 <= end <= |toks| && toks[pos] == Name(raw) && toks[pos + 1] == Comma
    requires rest != [] && toks[pos + 2..end] == NameTokens(rest)
    ensures toks[pos..end] == NameTokens([raw] + rest)
  {
    assert ([raw] + rest)[1..] == rest;
    assert toks[pos..end] == [Name(raw), Comma] + toks[pos + 2..end];
  }

  lemma {:induction false} NamesOnly(toks: seq<Token>, pos: nat, data: seq<Datum>, code: seq<Instr>, count: nat) returns (cols: seq<Text>)
    requires NamesFrom(toks, pos, data, code, count).List?
    ensures var r := NamesFrom(toks, pos, data, code, count);
            cols != [] && toks[pos..r.pos] == NameTokens(cols) && r == Behind(code, EmitNames(cols, data), count + |cols|, r.pos)
    decreases |toks| - pos
  {
    var raw := toks[pos].raw;
    var one, d := [PushO(FindData(data, raw))], Intern(data, Datum(KName, raw));
    if Peek(toks, pos + 1) == Comma {
      var rest := NamesOnly(toks, pos + 2, d, code + one, count + 1);
      cols := [raw] + rest;
      assert cols[1..] == rest;
      MoreNames(toks, pos, NamesFrom(toks, pos, data, code, count).pos, raw, rest);
    } else {
      cols := [raw];
      assert toks[pos..pos + 1] == [Name(raw)];
    }
    NextName(cols, data, code);
  }

  lemma {:induction false} ValuesOnly(toks: seq<Token>, pos: nat, data: seq<Datum>, code: seq<Instr>, count: nat) returns (vs: seq<Ast>)
    requires Lexical(toks) && ValuesFrom(toks, pos, data, code, count).List?
    ensures var r := ValuesFrom(toks, pos, data, code, count);
            vs != [] && AllFit(vs) && toks[pos..r.pos] == ValueTokens(vs)
            && r == Behind(code, EmitValues(vs, data), count + |vs|, r.pos)
    decreases |toks| - pos
  {
    var v := LogicExpr(toks, pos, data, []);
    var a := AcceptsOnly(toks, pos, data);
    var m := Emit(a, data);
    ValuesStep(toks, pos, data, code, count, m, v.pos);
    if Peek(toks, v.pos) == Comma {
      var rest := ValuesOnly(toks, v.pos + 1, m.data, code + m.code, count + 1);
      vs := [a] + rest;
      assert vs[1..] == rest;
      var r := ValuesFrom(toks, pos, data, code, count);
      Between(toks, pos, v.pos, r.pos);
      NextValue(vs, data, code);
    } else {
      vs := [a];
      LastValue(vs, data, code);
    }
  }

  lemma SetOnly(toks: seq<Token>, pos: nat, data: seq<Datum>, v: Listed) returns (vs: seq<Ast>)
    requires Lexical(toks) && Peek(toks, pos) == LParen
    requires v == ValuesFrom(toks, pos + 1, data, [], 0) && v.List? && Peek(toks, v.pos) == RParen
    ensures vs != [] && AllFit(vs) && v == List(EmitValues(vs, data).code, |vs|, v.pos, EmitValues(vs, data).data)
    ensures toks[pos..v.pos + 1] == SetTokens(vs)
  {
    vs := ValuesOnly(toks, pos + 1, data, [], 0);
    NothingBefore(EmitValues(vs, data), |vs|, v.pos);
    Enclosed(toks, pos, v.pos);
  }

  lemma MoreSets(toks: seq<Token>, pos: nat, mid: nat, end: nat, vs: seq<Ast>, rest: seq<seq<Ast>>)
    requires pos <= mid < end <= |toks| && toks[mid] == Comma && vs != [] && AllFit(vs) && ProperSets(rest)
    requires toks[pos..mid] == SetTokens(vs) && toks[mid + 1..end] == SetsTokens(rest)
    ensures ProperSets([vs] + rest) && toks[pos..end] == SetsTokens([vs] + rest)
  {
    var sets := [vs] + rest;
    assert sets[1..] == rest;
    Between(toks, pos, mid, end);
  }

  lemma {:induction false} SetsOnly(toks: seq<Token>, pos: nat, data: seq<Datum>, code: seq<Instr>, count: nat) returns (sets: seq<seq<Ast>>)
    requires Lexical(toks) && SetsFrom(toks, pos, data, code, count).List?
    ensures var r := SetsFrom(toks, pos, data, code, count);
            ProperSets(sets) && toks[pos..r.pos] == SetsTokens(sets)
            && r == Behind(code, EmitSets(sets, data), count + |sets|, r.pos)
    decreases |toks| - pos
  {
    var v := ValuesFrom(toks, pos + 1, data, [], 0);
    var vs := SetOnly(toks, pos, data, v);
    var m := EmitValues(vs, data);
    SetsStep(toks, pos, data, code, count, m, |vs|, v.pos + 1);
    if Peek(toks, v.pos + 1) == Comma {
      var more := code + ([Push(|vs|)] + m.code);
      var rest := SetsOnly(toks, v.pos + 2, m.data, more, count + 1);
      sets := [vs] + rest;
      assert sets[1..] == rest;
      MoreSets(toks, pos, v.pos + 1, SetsFrom(toks, pos, data, code, count).pos, vs, rest);
      NextSet(sets, data, code);
    } else {
      sets := [vs];
      LastSet(sets, data, code);
    }
  }

  lemma ColumnsOnly(toks: seq<Token>, pos: nat, data: seq<Datum>) returns (cols: seq<Text>)
    requires ColumnsAt(toks, pos, data).Good? && Peek(toks, ColumnsAt(toks, pos, data).pos) == VALUES
    ensures var r, m := ColumnsAt(toks, pos, data), EmitNames(cols, data);
            pos <= r.pos < |toks| && r.code == [Push(|cols|)] + m.code && r.data == m.data && toks[pos..r.pos] == ColumnTokens(cols)
  {
    if Peek(toks, pos) == LParen {
      cols := SomeNames(toks, pos, data, NamesFrom(toks, pos + 1, data, [], 0));
    } else {
      cols := [];
      assert EmitNames(cols, data) == Emitted([], data);
      assert [Push(0)] + [] == [Push(0)] && toks[pos..pos] == [];
    }
  }

  lemma NothingBefore(m: Emitted, count: nat, pos: nat)
    ensures Behind([], m, count, pos) == List(m.code, count, pos, m.data)
  {
    assert [] + m.code == m.code;
  }

  lemma NamesSpelled(toks: seq<Token>, pos: nat, end: nat, cols: seq<Text>)
    requires pos < end < |toks| && toks[pos] == LParen && toks[end] == RParen && cols != [] && toks[pos + 1..end] == NameTokens(cols)
    ensures toks[pos..end + 1] == ColumnTokens(cols)
  {
    Enclosed(toks, pos, end);
  }

  lemma SomeNames(toks: seq<Token>, pos: nat, data: seq<Datum>, r: Listed) returns (cols: seq<Text>)
    requires r == NamesFrom(toks, pos + 1, data, [], 0) && r.List?
    requires Peek(toks, pos) == LParen && Peek(toks, r.pos) == RParen
    ensures r.count == |cols| && r.code == EmitNames(cols, data).code && r.data == EmitNames(cols, data).data
    ensures toks[pos..r.pos + 1] == ColumnTokens(cols)
  {
    cols := NamesOnly(toks, pos + 1, data, [], 0);
    NothingBefore(EmitNames(cols, data), |cols|, r.pos);
    NamesSpelled(toks, pos, r.pos, cols);
  }

  lemma BodySpelled(toks: seq<Token>, pos: nat, mid: nat, end: nat, ins: Insertion)
    requires pos <= mid < end <= |toks| && toks[mid] == VALUES && Proper(ins)
    requires toks[pos..mid] == ColumnTokens(ins.cols) && toks[mid + 1..end] == SetsTokens(ins.sets)
    ensures toks[pos..end] == BodyTokens(ins)
  {
    Between(toks, pos, mid, end);
  }

  /** Whatever is accepted behind INSERT INTO t is a body of the grammar, and becomes its lists behind their lengths. */
  lemma InsertOnly(toks: seq<Token>, pos: nat, data: seq<Datum>) returns (ins: Insertion)
    requires Lexical(toks) && BodyAt(toks, pos, data).Good?
    ensures var r := BodyAt(toks, pos, data);
            Proper(ins) && pos <= r.pos <= |toks| && toks[pos..r.pos] == BodyTokens(ins)
            && r == Good(EmitBody(ins, data).code, r.pos, EmitBody(ins, data).data)
  {
    var c := ColumnsAt(toks, pos, data);
    var cols := ColumnsOnly(toks, pos, data);
    ins := BodySets(toks, pos, data, c, cols);
  }

  lemma BodySets(toks: seq<Token>, pos: nat, data: seq<Datum>, c: Parsed, cols: seq<Text>) returns (ins: Insertion)
    requires Lexical(toks) && BodyAt(toks, pos, data).Good? && c == ColumnsAt(toks, pos, data) && c.Good?
    requires pos <= c.pos < |toks| && toks[c.pos] == VALUES && toks[pos..c.pos] == ColumnTokens(cols)
    requires c.code == [Push(|cols|)] + EmitNames(cols, data).code && c.data == EmitNames(cols, data).data
    ensures var r := BodyAt(toks, pos, data);
            Proper(ins) && pos <= r.pos <= |toks| && toks[pos..r.pos] == BodyTokens(ins)
            && r == Good(EmitBody(ins, data).code, r.pos, EmitBody(ins, data).data)
  {
    var m := EmitNames(cols, data);
    var sets := SetsOnly(toks, c.pos + 1, m.data, [], 0);
    var s, end := EmitSets(sets, m.data), SetsFrom(toks, c.pos + 1, m.data, [], 0).pos;
    ins := Insertion(cols, sets);
    BodyDone(toks, pos, ins, data, m, s, c.pos, end);
    BodySpelled(toks, pos, c.pos, end, ins);
  }
}

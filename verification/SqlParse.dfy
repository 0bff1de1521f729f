/**
 The expression translator as a function of the tokens, and the grammar it
 accepts.  One level handles one row of the precedence table; every level
 parses an operand and then folds in further operands from the left.
 */
module SqlParse {
  import opened Prelude
  import opened SqlCode

  datatype Parsed = Bad | Good(code: seq<Instr>, pos: nat, data: seq<Datum>)

  // ------------------------------------------------------------ translation

  /** An operand; `star` says whether an asterisk may stand here for all columns. */
  function Primary(toks: seq<Token>, pos: nat, data: seq<Datum>, star: bool): (r: Parsed)
    ensures r.Good? ==> pos < r.pos <= |toks|
    decreases |toks| - pos, 0, 0
  {
    match Peek(toks, pos)
    case Lit(kind, raw) =>
      Good([Call(MkExpr), PushO(FindData(data, raw))], pos + 1, Intern(data, Datum(kind, raw)))
    case NullSym =>
      Good([Call(MkExpr), PushO(FindData(data, NULL_TEXT))], pos + 1, Intern(data, Datum(KVarchar, NULL_TEXT)))
    case Name(raw) => ColumnName(toks, pos, data)
    case LParen =>
      var r := LogicExpr(toks, pos + 1, data, []);
      if r.Good? && Peek(toks, r.pos) == RParen then r.(pos := r.pos + 1) else Bad
    case Operator(op) =>
      if op == Sub then
        var r := Primary(toks, pos + 1, data, false);
        if r.Good? then r.(code := [Call(Negate)] + r.code) else Bad
      else if op == Add then Primary(toks, pos + 1, data, false)
      else if op == Mul && star && Peek(toks, pos + 1) != ASTERISK then
        var none := FindData(data, EMPTY);
        Good([Call(MkAsterisk), PushO(none), PushO(none)], pos + 1, data)
      else Bad
    case _ => Bad
  }

  const ASTERISK: Token := Operator(Mul)

  /** How many names, separated by dots, stand at `pos`; at most three. */
  function NamesAt(toks: seq<Token>, pos: nat): (n: nat)
    ensures n <= 3 && (n > 0 ==> pos + 2 * n - 1 <= |toks|)
  {
    if !Peek(toks, pos).Name? then 0
    else if Peek(toks, pos + 1) != Dot || !Peek(toks, pos + 2).Name? then 1
    else if Peek(toks, pos + 3) != Dot || !Peek(toks, pos + 4).Name? then 2
    else 3
  }

  /** A column name, alone or qualified by its table, or all columns of a table. */
  function ColumnName(toks: seq<Token>, pos: nat, data: seq<Datum>): (r: Parsed)
    requires Peek(toks, pos).Name?
    ensures r.Good? ==> pos < r.pos <= |toks|
  {
    var none := FindData(data, EMPTY);
    var n := NamesAt(toks, pos);
    var first := Peek(toks, pos).raw;
    var d1 := Intern(data, Datum(KName, first));
    if n == 3 then Bad
    else if n == 2 then
      var second := Peek(toks, pos + 2).raw;
      var d2 := Intern(d1, Datum(KName, second));
      if Peek(toks, pos + 3) == Dot && Peek(toks, pos + 4) == ASTERISK then
        Good([Call(MkAsterisk), PushO(FindData(data, first)), PushO(FindData(d1, second))], pos + 5, d2)
      else
        Good([Call(MkColumn), PushO(none), PushO(FindData(data, first)), PushO(FindData(d1, second))], pos + 3, d2)
    else if Peek(toks, pos + 1) == Dot && Peek(toks, pos + 2) == ASTERISK then
      Good([Call(MkAsterisk), PushO(none), PushO(FindData(data, first))], pos + 3, d1)
    else
      Good([Call(MkColumn), PushO(none), PushO(none), PushO(FindData(data, first))], pos + 1, d1)
  }

  /** Parse at precedence level `n`. */
  function ParseAt(toks: seq<Token>, pos: nat, data: seq<Datum>, n: nat, star: bool): (r: Parsed)
    requires 1 <= n <= PRIMARY
    ensures r.Good? ==> pos < r.pos <= |toks|
    decreases |toks| - pos, PRIMARY + 1 - n, 1
  {
    if n == PRIMARY then Primary(toks, pos, data, star)
    else
      var r := ParseAt(toks, pos, data, n + 1, star);
      if r.Bad? then Bad else Rest(toks, n, [], r.code, r.pos, r.data)
  }

  /** The top level works in its caller's buffer. */
  function LogicExpr(toks: seq<Token>, pos: nat, data: seq<Datum>, buffer: seq<Instr>): (r: Parsed)
    ensures r.Good? ==> pos < r.pos <= |toks|
    decreases |toks| - pos, PRIMARY + 1, 1
  {
    var r := ParseAt(toks, pos, data, 1, true);
    if r.Bad? then Bad else Rest(toks, 0, buffer, r.code, r.pos, r.data)
  }

  /** Fold in the operands behind further operators of level `n`. */
  function Rest(toks: seq<Token>, n: nat, code: seq<Instr>, term: seq<Instr>, pos: nat, data: seq<Datum>): (r: Parsed)
    requires n < PRIMARY && pos <= |toks|
    ensures r.Good? ==> pos <= r.pos <= |toks|
    decreases |toks| - pos, PRIMARY + 1, 0
  {
    var t := Peek(toks, pos);
    if t.Operator? && OpLevel(t.op) == n then
      var r := ParseAt(toks, pos + 1, data, n + 1, false);
      if r.Bad? then Bad
      else Rest(toks, n, [Call(Apply(t.op))] + code + term + r.code, [], r.pos, r.data)
    else Good(code + term, pos, data)
  }

  // ---------------------------------------------------------------- grammar

  datatype Ast =
    | Literal(kind: Kind, raw: Text)
    | Null
    | Column(col: Text)
    | Qualified(tbl: Text, col: Text)
    | Star
    | TableStar(tbl: Text)
    | SchemaStar(db: Text, tbl: Text)
    | Paren(e: Ast)
    | Neg(e: Ast)
    | Plus(e: Ast)
    | Bin(op: BinOp, l: Ast, r: Ast)

  /** An operand; a lone asterisk only where `star` allows it. */
  predicate FitsPrimary(a: Ast, star: bool)
    decreases a, 0, 0
  {
    match a
    case Literal(kind, _) => kind != KName
    case Null => true
    case Column(_) => true
    case Qualified(_, _) => true
    case Star => star
    case TableStar(_) => true
    case SchemaStar(_, _) => true
    case Paren(e) => Fits(e, 0, true)
    case Neg(e) => FitsPrimary(e, false)
    case Plus(e) => FitsPrimary(e, false)
    case Bin(_, _, _) => false
  }

  /**
   Derivable at level `n`: an operator of the level's row, its left operand at this level and its
   right one above it; or anything of the next level.  No asterisk is multiplied.
   */
  predicate Fits(a: Ast, n: nat, star: bool)
    requires n <= PRIMARY
    decreases a, 1, PRIMARY - n
  {
    if n == PRIMARY then FitsPrimary(a, star)
    else
      || (a.Bin? && a.op in ROWS[n] && Fits(a.l, n, star) && Fits(a.r, n + 1, false) && !(a.op == Mul && a.l.Star?))
      || Fits(a, n + 1, star)
  }

  function Tokens(a: Ast): seq<Token> {
    match a
    case Literal(kind, raw) => [Lit(kind, raw)]
    case Null => [NullSym]
    case Column(col) => [Name(col)]
    case Qualified(tbl, col) => [Name(tbl), Dot, Name(col)]
    case Star => [ASTERISK]
    case TableStar(tbl) => [Name(tbl), Dot, ASTERISK]
    case SchemaStar(db, tbl) => [Name(db), Dot, Name(tbl), Dot, ASTERISK]
    case Paren(e) => [LParen] + Tokens(e) + [RParen]
    case Neg(e) => [Operator(Sub)] + Tokens(e)
    case Plus(e) => [Operator(Add)] + Tokens(e)
    case Bin(op, l, r) => Tokens(l) + [Operator(op)] + Tokens(r)
  }

  datatype Emitted = Emitted(code: seq<Instr>, data: seq<Datum>)

  /** Prefix code: an operator before its operands. */
  function Emit(a: Ast, data: seq<Datum>): Emitted {
    match a
    case Literal(kind, raw) =>
      Emitted([Call(MkExpr), PushO(FindData(data, raw))], Intern(data, Datum(kind, raw)))
    case Null =>
      Emitted([Call(MkExpr), PushO(FindData(data, NULL_TEXT))], Intern(data, Datum(KVarchar, NULL_TEXT)))
    case Column(col) =>
      var none := FindData(data, EMPTY);
      Emitted([Call(MkColumn), PushO(none), PushO(none), PushO(FindData(data, col))], Intern(data, Datum(KName, col)))
    case Qualified(tbl, col) =>
      var d1 := Intern(data, Datum(KName, tbl));
      Emitted([Call(MkColumn), PushO(FindData(data, EMPTY)), PushO(FindData(data, tbl)), PushO(FindData(d1, col))],
              Intern(d1, Datum(KName, col)))
    case Star =>
      var none := FindData(data, EMPTY);
      Emitted([Call(MkAsterisk), PushO(none), PushO(none)], data)
    case TableStar(tbl) =>
      Emitted([Call(MkAsterisk), PushO(FindData(data, EMPTY)), PushO(FindData(data, tbl))], Intern(data, Datum(KName, tbl)))
    case SchemaStar(db, tbl) =>
      var d1 := Intern(data, Datum(KName, db));
      Emitted([Call(MkAsterisk), PushO(FindData(data, db)), PushO(FindData(d1, tbl))], Intern(d1, Datum(KName, tbl)))
    case Paren(e) => Emit(e, data)
    case Neg(e) => var m := Emit(e, data); m.(code := [Call(Negate)] + m.code)
    case Plus(e) => Emit(e, data)
    case Bin(op, l, r) =>
      var m := Emit(l, data);
      var k := Emit(r, m.data);
      Emitted([Call(Apply(op))] + m.code + k.code, k.data)
  }

  /** What may follow an expression of level `n`: nothing that would extend it. */
  predicate Stops(t: Token, n: nat) {
    t != Dot && (t.Operator? ==> OpLevel(t.op) < n)
  }

  /** The tokens of `a` stand at `pos`. */
  ghost predicate Spells(toks: seq<Token>, pos: nat, a: Ast) {
    Occurs(toks, pos, Tokens(a))
  }

  /** `part` stands in `s` at `pos`. */
  ghost predicate Occurs<T>(s: seq<T>, pos: nat, part: seq<T>) {
    pos + |part| <= |s| && forall i :: 0 <= i < |part| ==> part[i] == s[pos + i]
  }

  lemma OccursSplit<T>(s: seq<T>, pos: nat, a: seq<T>, b: seq<T>)
    requires Occurs(s, pos, a + b)
    ensures Occurs(s, pos, a) && Occurs(s, pos + |a|, b)
  {
    var ab := a + b;
    assert forall i :: 0 <= i < |a| ==> a[i] == ab[i];
    assert forall i :: 0 <= i < |b| ==> b[i] == ab[|a| + i];
  }

  lemma OccursOne<T>(s: seq<T>, pos: nat, x: T)
    requires Occurs(s, pos, [x])
    ensures pos < |s| && s[pos] == x
  {
    assert [x][0] == s[pos];
  }

  lemma OccursSlice<T>(s: seq<T>, pos: nat, part: seq<T>)
    requires Occurs(s, pos, part)
    ensures s[pos..pos + |part|] == part
  {
  }

  /** What occurs in `s` occurs in every extension; an extension ends with what was added. */
  lemma OccursGrow<T>(s: seq<T>, t: seq<T>, pos: nat, part: seq<T>)
    requires Occurs(s, pos, part)
    ensures Occurs(s + t, pos, part)
  {
  }

  lemma OccursEnd<T>(s: seq<T>, t: seq<T>)
    ensures Occurs(s + t, |s|, t)
  {
  }

  lemma SpellsBin(toks: seq<Token>, pos: nat, a: Ast)
    requires Spells(toks, pos, a) && a.Bin?
    ensures Spells(toks, pos, a.l) && Spells(toks, pos + |Tokens(a.l)| + 1, a.r)
    ensures Peek(toks, pos + |Tokens(a.l)|) == Operator(a.op)
    ensures |Tokens(a)| == |Tokens(a.l)| + 1 + |Tokens(a.r)|
  {
    OccursSplit(toks, pos, Tokens(a.l) + [Operator(a.op)], Tokens(a.r));
    OccursSplit(toks, pos, Tokens(a.l), [Operator(a.op)]);
    OccursOne(toks, pos + |Tokens(a.l)|, Operator(a.op));
  }

  lemma SpellsInner(toks: seq<Token>, pos: nat, a: Ast)
    requires Spells(toks, pos, a) && (a.Paren? || a.Neg? || a.Plus?)
    ensures Spells(toks, pos + 1, a.e)
    ensures a.Paren? ==> Peek(toks, pos) == LParen && Peek(toks, pos + 1 + |Tokens(a.e)|) == RParen
    ensures a.Neg? ==> Peek(toks, pos) == Operator(Sub)
    ensures a.Plus? ==> Peek(toks, pos) == Operator(Add)
  {
    var first := if a.Paren? then LParen else if a.Neg? then Operator(Sub) else Operator(Add);
    if a.Paren? {
      OccursSplit(toks, pos, [first] + Tokens(a.e), [RParen]);
      OccursOne(toks, pos + 1 + |Tokens(a.e)|, RParen);
    }
    OccursSplit(toks, pos, [first], Tokens(a.e));
    OccursOne(toks, pos, first);
  }

  /** The same by levels: what stands at level `n` binds at least as tightly as the operators of that level. */
  predicate Binds(a: Ast, n: nat, star: bool) {
    match a
    case Literal(kind, _) => kind != KName
    case Null => true
    case Column(_) => true
    case Qualified(_, _) => true
    case Star => star
    case TableStar(_) => true
    case SchemaStar(_, _) => true
    case Paren(e) => Binds(e, 0, true)
    case Neg(e) => Binds(e, PRIMARY, false)
    case Plus(e) => Binds(e, PRIMARY, false)
    case Bin(op, l, r) =>
      n <= OpLevel(op) && Binds(l, OpLevel(op), star) && Binds(r, OpLevel(op) + 1, false) && !(op == Mul && l.Star?)
  }

  lemma {:induction false} FitsIff(a: Ast, n: nat, star: bool)
    requires n <= PRIMARY
    ensures Fits(a, n, star) <==> Binds(a, n, star)
    decreases a, 1, PRIMARY - n
  {
    if n == PRIMARY {
      PrimaryIff(a, star);
    } else {
      FitsIff(a, n + 1, star);
      if a.Bin? {
        LevelIsRow(a.op, n);
        FitsIff(a.l, n, star);
        FitsIff(a.r, n + 1, false);
      }
    }
  }

  lemma {:induction false} PrimaryIff(a: Ast, star: bool)
    ensures FitsPrimary(a, star) <==> Binds(a, PRIMARY, star)
    decreases a, 0, 0
  {
    match a
    case Paren(e) => FitsIff(e, 0, true);
    case Neg(e) => PrimaryIff(e, false);
    case Plus(e) => PrimaryIff(e, false);
    case _ =>
  }

  /** No lone asterisk is followed by another one. */
  predicate Alone(toks: seq<Token>, pos: nat, a: Ast) {
    a.Star? ==> Peek(toks, pos + 1) != ASTERISK
  }

  // ------------------------------------------------------------ correctness

  /** The parse of a derivable expression, when what follows does not extend it. */
  lemma ParseEmits(toks: seq<Token>, pos: nat, a: Ast, data: seq<Datum>, n: nat, star: bool)
    requires 1 <= n <= PRIMARY && Fits(a, n, star) && Alone(toks, pos, a)
    requires Spells(toks, pos, a) && Stops(Peek(toks, pos + |Tokens(a)|), n)
    ensures ParseAt(toks, pos, data, n, star) == Good(Emit(a, data).code, pos + |Tokens(a)|, Emit(a, data).data)
  {
    FitsIff(a, n, star);
    LevelEmits(toks, pos, a, data, n, star);
  }

  lemma {:induction false} LevelEmits(toks: seq<Token>, pos: nat, a: Ast, data: seq<Datum>, n: nat, star: bool)
    requires 1 <= n <= PRIMARY && Binds(a, n, star) && Alone(toks, pos, a)
    requires Spells(toks, pos, a) && Stops(Peek(toks, pos + |Tokens(a)|), n)
    ensures ParseAt(toks, pos, data, n, star) == Good(Emit(a, data).code, pos + |Tokens(a)|, Emit(a, data).data)
    decreases a, PRIMARY + 1 - n, 2
  {
    if n == PRIMARY {
      PrimaryEmits(toks, pos, a, data, star);
    } else {
      var x, y := Spine(toks, pos, a, data, n, star);
    }
  }

  /** Parsing up to any point of a left-associative chain at level `n`. */
  lemma {:induction false} Spine(toks: seq<Token>, pos: nat, a: Ast, data: seq<Datum>, n: nat, star: bool)
      returns (code: seq<Instr>, term: seq<Instr>)
    requires 1 <= n < PRIMARY && Binds(a, n, star) && Alone(toks, pos, a)
    requires Spells(toks, pos, a) && Stops(Peek(toks, pos + |Tokens(a)|), n + 1)
    ensures code + term == Emit(a, data).code
    ensures ParseAt(toks, pos, data, n, star) == Rest(toks, n, code, term, pos + |Tokens(a)|, Emit(a, data).data)
    decreases a, PRIMARY + 1 - n, 1
  {
    if a.Bin? && OpLevel(a.op) == n {
      code, term := SpineBin(toks, pos, a, data, n, star);
    } else {
      BindsNext(a, n, star);
      LevelEmits(toks, pos, a, data, n + 1, star);
      code, term := [], Emit(a, data).code;
      FirstOperand(toks, pos, data, n, star, Emit(a, data), pos + |Tokens(a)|);
    }
  }

  lemma {:induction false} SpineBin(toks: seq<Token>, pos: nat, a: Ast, data: seq<Datum>, n: nat, star: bool)
      returns (code: seq<Instr>, term: seq<Instr>)
    requires a.Bin? && 1 <= n == OpLevel(a.op) && Binds(a, n, star)
    requires Spells(toks, pos, a) && Stops(Peek(toks, pos + |Tokens(a)|), n + 1)
    ensures code + term == Emit(a, data).code
    ensures ParseAt(toks, pos, data, n, star) == Rest(toks, n, code, term, pos + |Tokens(a)|, Emit(a, data).data)
    decreases a, PRIMARY + 1 - n, 0
  {
    var mid := OperandsOf(toks, pos, a, n, star);
    var m := Emit(a.l, data);
    var r := Emit(a.r, m.data);
    var x, y := Spine(toks, pos, a.l, data, n, star);
    RightOperand(toks, mid + 1, a, m, r, n + 1);
    code, term := ChainStep(toks, pos, a, data, n, star, mid, x, y, m, r);
  }

  lemma {:induction false} RightOperand(toks: seq<Token>, at: nat, a: Ast, m: Emitted, r: Emitted, n: nat)
    requires a.Bin? && 1 <= n <= PRIMARY && r == Emit(a.r, m.data) && Binds(a.r, n, false) && Alone(toks, at, a.r)
    requires Spells(toks, at, a.r) && Stops(Peek(toks, at + |Tokens(a.r)|), n)
    ensures ParseAt(toks, at, m.data, n, false) == Good(r.code, at + |Tokens(a.r)|, r.data)
    decreases a, 0, 0
  {
    LevelEmits(toks, at, a.r, m.data, n, false);
  }

  /** Both operands of an operator are spelled out around it, and may be parsed on their own. */
  lemma OperandsOf(toks: seq<Token>, pos: nat, a: Ast, n: nat, star: bool) returns (mid: nat)
    requires a.Bin? && OpLevel(a.op) == n < PRIMARY && Binds(a, n, star)
    requires Spells(toks, pos, a) && Stops(Peek(toks, pos + |Tokens(a)|), n + 1)
    ensures mid == pos + |Tokens(a.l)| && mid < |toks| && toks[mid] == Operator(a.op)
    ensures Binds(a.l, n, star) && Alone(toks, pos, a.l) && Spells(toks, pos, a.l) && Stops(Peek(toks, mid), n + 1)
    ensures Binds(a.r, n + 1, false) && Alone(toks, mid + 1, a.r)
    ensures Spells(toks, mid + 1, a.r) && Stops(Peek(toks, mid + 1 + |Tokens(a.r)|), n + 1)
    ensures mid + 1 + |Tokens(a.r)| == pos + |Tokens(a)|
  {
    mid := pos + |Tokens(a.l)|;
    SpellsBin(toks, pos, a);
  }

  lemma ChainStep(toks: seq<Token>, pos: nat, a: Ast, data: seq<Datum>, n: nat, star: bool, mid: nat,
                  x: seq<Instr>, y: seq<Instr>, m: Emitted, r: Emitted)
      returns (code: seq<Instr>, term: seq<Instr>)
    requires a.Bin? && 1 <= n == OpLevel(a.op) && mid < |toks| && toks[mid] == Operator(a.op)
    requires mid + 1 + |Tokens(a.r)| == pos + |Tokens(a)|
    requires m == Emit(a.l, data) && r == Emit(a.r, m.data) && x + y == m.code
    requires ParseAt(toks, pos, data, n, star) == Rest(toks, n, x, y, mid, m.data)
    requires ParseAt(toks, mid + 1, m.data, n + 1, false) == Good(r.code, mid + 1 + |Tokens(a.r)|, r.data)
    ensures pos + |Tokens(a)| <= |toks| && code + term == Emit(a, data).code
    ensures ParseAt(toks, pos, data, n, star) == Rest(toks, n, code, term, pos + |Tokens(a)|, Emit(a, data).data)
  {
    EmitBin(a, data);
    code := FoldIn(toks, n, a.op, x, y, mid, m.data, m.code, r, pos + |Tokens(a)|);
    term := [];
  }

  lemma BindsNext(a: Ast, n: nat, star: bool)
    requires n < PRIMARY && Binds(a, n, star) && !(a.Bin? && OpLevel(a.op) == n)
    ensures Binds(a, n + 1, star)
  {
  }

  lemma FirstOperand(toks: seq<Token>, pos: nat, data: seq<Datum>, n: nat, star: bool, m: Emitted, end: nat)
    requires 1 <= n < PRIMARY && ParseAt(toks, pos, data, n + 1, star) == Good(m.code, end, m.data)
    ensures ParseAt(toks, pos, data, n, star) == Rest(toks, n, [], m.code, end, m.data)
    ensures [] + m.code == m.code
  {
  }

  lemma EmitBin(a: Ast, data: seq<Datum>)
    requires a.Bin?
    ensures var m := Emit(a.l, data);
            Emit(a, data) == Emitted([Call(Apply(a.op))] + m.code + Emit(a.r, m.data).code, Emit(a.r, m.data).data)
  {
  }

  /** Folding in one more operand extends the prefix code of the chain. */
  lemma FoldIn(toks: seq<Token>, n: nat, op: BinOp, x: seq<Instr>, y: seq<Instr>, mid: nat, data: seq<Datum>,
               lc: seq<Instr>, k: Emitted, end: nat) returns (code: seq<Instr>)
    requires x + y == lc
    requires mid < |toks| && toks[mid] == Operator(op) && OpLevel(op) == n < PRIMARY
    requires ParseAt(toks, mid + 1, data, n + 1, false) == Good(k.code, end, k.data)
    ensures code + [] == [Call(Apply(op))] + lc + k.code
    ensures Rest(toks, n, x, y, mid, data) == Rest(toks, n, code, [], end, k.data)
  {
    code := [Call(Apply(op))] + x + y + k.code;
    RestStep(toks, n, op, x, y, mid, data, k.code, k.data, end);
    PrefixStep(op, x, y, lc, k.code);
  }

  lemma ParenPrimary(toks: seq<Token>, pos: nat, data: seq<Datum>, star: bool, m: Emitted, end: nat)
    requires Peek(toks, pos) == LParen && Peek(toks, end) == RParen
    requires LogicExpr(toks, pos + 1, data, []) == Good(m.code, end, m.data)
    ensures Primary(toks, pos, data, star) == Good(m.code, end + 1, m.data)
  {
  }

  lemma SignPrimary(toks: seq<Token>, pos: nat, data: seq<Datum>, star: bool, op: BinOp, m: Emitted, end: nat)
    requires Peek(toks, pos) == Operator(op) && (op == Sub || op == Add)
    requires Primary(toks, pos + 1, data, false) == Good(m.code, end, m.data)
    ensures Primary(toks, pos, data, star) == Good((if op == Sub then [Call(Negate)] else []) + m.code, end, m.data)
  {
    assert [] + m.code == m.code;
  }

  lemma {:induction false} PrimaryEmits(toks: seq<Token>, pos: nat, a: Ast, data: seq<Datum>, star: bool)
    requires Binds(a, PRIMARY, star) && Alone(toks, pos, a) && Spells(toks, pos, a) && Peek(toks, pos + |Tokens(a)|) != Dot
    ensures Primary(toks, pos, data, star) == Good(Emit(a, data).code, pos + |Tokens(a)|, Emit(a, data).data)
    decreases a, 1, 0
  {
    if a.Paren? {
      SpellsInner(toks, pos, a);
      LogicBinds(toks, pos + 1, a.e, data);
      ParenPrimary(toks, pos, data, star, Emit(a.e, data), pos + 1 + |Tokens(a.e)|);
    } else if a.Neg? || a.Plus? {
      SignEmits(toks, pos, a, data, star);
    } else {
      LeafEmits(toks, pos, a, data, star);
    }
  }

  lemma {:induction false} SignEmits(toks: seq<Token>, pos: nat, a: Ast, data: seq<Datum>, star: bool)
    requires (a.Neg? || a.Plus?) && Binds(a, PRIMARY, star)
    requires Spells(toks, pos, a) && Peek(toks, pos + |Tokens(a)|) != Dot
    ensures Primary(toks, pos, data, star) == Good(Emit(a, data).code, pos + |Tokens(a)|, Emit(a, data).data)
    decreases a, 0, 0
  {
    var e := a.e;
    SpellsInner(toks, pos, a);
    PrimaryEmits(toks, pos + 1, e, data, false);
    SignPrimary(toks, pos, data, star, if a.Neg? then Sub else Add, Emit(e, data), pos + 1 + |Tokens(e)|);
    assert [] + Emit(e, data).code == Emit(e, data).code;
  }

  lemma LeafEmits(toks: seq<Token>, pos: nat, a: Ast, data: seq<Datum>, star: bool)
    requires Binds(a, PRIMARY, star) && Alone(toks, pos, a) && !a.Paren? && !a.Neg? && !a.Plus?
    requires Spells(toks, pos, a) && Peek(toks, pos + |Tokens(a)|) != Dot
    ensures Primary(toks, pos, data, star) == Good(Emit(a, data).code, pos + |Tokens(a)|, Emit(a, data).data)
  {
    SpellsLeaf(toks, pos, a);
  }

  lemma SpellsLeaf(toks: seq<Token>, pos: nat, a: Ast)
    requires !a.Paren? && !a.Neg? && !a.Plus? && !a.Bin? && Spells(toks, pos, a)
    ensures |Tokens(a)| == (if a.SchemaStar? then 5 else if a.Qualified? || a.TableStar? then 3 else 1)
    ensures pos + |Tokens(a)| <= |toks| && toks[pos] == Tokens(a)[0]
    ensures |Tokens(a)| >= 3 ==> toks[pos + 1] == Tokens(a)[1] && toks[pos + 2] == Tokens(a)[2]
    ensures |Tokens(a)| == 5 ==> toks[pos + 3] == Tokens(a)[3] && toks[pos + 4] == Tokens(a)[4]
  {
    assert forall i :: 0 <= i < |Tokens(a)| ==> Tokens(a)[i] == toks[pos + i];
  }

  /** A whole expression parsed into an empty buffer gives exactly its prefix code. */
  lemma LogicEmits(toks: seq<Token>, pos: nat, a: Ast, data: seq<Datum>)
    requires Fits(a, 0, true) && Spells(toks, pos, a) && Stops(Peek(toks, pos + |Tokens(a)|), 0)
    ensures LogicExpr(toks, pos, data, []) == Good(Emit(a, data).code, pos + |Tokens(a)|, Emit(a, data).data)
  {
    FitsIff(a, 0, true);
    LogicBinds(toks, pos, a, data);
  }

  lemma {:induction false} LogicBinds(toks: seq<Token>, pos: nat, a: Ast, data: seq<Datum>)
    requires Binds(a, 0, true) && Spells(toks, pos, a) && Stops(Peek(toks, pos + |Tokens(a)|), 0)
    ensures LogicExpr(toks, pos, data, []) == Good(Emit(a, data).code, pos + |Tokens(a)|, Emit(a, data).data)
    decreases a, PRIMARY + 2, 2
  {
    var k, x, y := LogicSpine(toks, pos, a, data, []);
    RestEnds(toks, Ands(k) + [] + x, y, pos + |Tokens(a)|, Emit(a, data).data);
    SameCode(Ands(k), x, y);
  }

  lemma RestEnds(toks: seq<Token>, code: seq<Instr>, term: seq<Instr>, pos: nat, data: seq<Datum>)
    requires pos <= |toks| && Stops(Peek(toks, pos), 0)
    ensures Rest(toks, 0, code, term, pos, data) == Good(code + term, pos, data)
  {
  }

  lemma SameCode(a: seq<Instr>, x: seq<Instr>, y: seq<Instr>)
    ensures a + [] + x + y == a + x + y
  {
    assert a + [] == a;
  }

  function Ands(k: nat): seq<Instr> {
    if k == 0 then [] else [Call(Apply(And))] + Ands(k - 1)
  }

  /** Number of ANDs at the top of an expression: those that reach the caller's buffer. */
  function TopAnds(a: Ast): nat {
    if a.Bin? && a.op == And then 1 + TopAnds(a.l) else 0
  }

  lemma Regroup(k: nat, b: seq<Instr>, x: seq<Instr>, y: seq<Instr>, z: seq<Instr>)
    ensures [Call(Apply(And))] + (Ands(k) + b + x) + y + z == Ands(k + 1) + b + (x + y + z)
    ensures b == [] ==> [Call(Apply(And))] + (Ands(k) + x + y) + z == Ands(k + 1) + (x + y + z) + []
  {
    assert [Call(Apply(And))] + Ands(k) == Ands(k + 1);
  }

  /** The top level puts its ANDs in front of whatever the buffer held before. */
  lemma {:induction false} LogicSpine(toks: seq<Token>, pos: nat, a: Ast, data: seq<Datum>, buffer: seq<Instr>)
      returns (k: nat, x: seq<Instr>, y: seq<Instr>)
    requires Binds(a, 0, true) && Spells(toks, pos, a) && Stops(Peek(toks, pos + |Tokens(a)|), 1)
    ensures k == TopAnds(a) && Emit(a, data).code == Ands(k) + x + y
    ensures LogicExpr(toks, pos, data, buffer)
         == Rest(toks, 0, Ands(k) + buffer + x, y, pos + |Tokens(a)|, Emit(a, data).data)
    decreases a, PRIMARY + 2, 1
  {
    if a.Bin? && a.op == And {
      k, x, y := LogicSpineAnd(toks, pos, a, data, buffer);
    } else {
      BindsNext(a, 0, true);
      LevelEmits(toks, pos, a, data, 1, true);
      k, x, y := 0, [], Emit(a, data).code;
      LogicFirst(toks, pos, data, buffer, Emit(a, data), pos + |Tokens(a)|);
    }
  }

  lemma {:induction false} LogicSpineAnd(toks: seq<Token>, pos: nat, a: Ast, data: seq<Datum>, buffer: seq<Instr>)
      returns (k: nat, x: seq<Instr>, y: seq<Instr>)
    requires a.Bin? && a.op == And && Binds(a, 0, true) && Spells(toks, pos, a) && Stops(Peek(toks, pos + |Tokens(a)|), 1)
    ensures k == TopAnds(a) && Emit(a, data).code == Ands(k) + x + y
    ensures LogicExpr(toks, pos, data, buffer)
         == Rest(toks, 0, Ands(k) + buffer + x, y, pos + |Tokens(a)|, Emit(a, data).data)
    decreases a, PRIMARY + 2, 0
  {
    var mid := OperandsOf(toks, pos, a, 0, true);
    var m := Emit(a.l, data);
    var r := Emit(a.r, m.data);
    var k', x', y' := LogicSpine(toks, pos, a.l, data, buffer);
    RightOperand(toks, mid + 1, a, m, r, 1);
    k, x, y := LogicStep(toks, pos, a, data, buffer, mid, k', x', y', LogicExpr(toks, pos, data, buffer), m, r);
  }

  lemma LogicFirst(toks: seq<Token>, pos: nat, data: seq<Datum>, buffer: seq<Instr>, m: Emitted, end: nat)
    requires ParseAt(toks, pos, data, 1, true) == Good(m.code, end, m.data)
    ensures m.code == Ands(0) + [] + m.code
    ensures LogicExpr(toks, pos, data, buffer) == Rest(toks, 0, Ands(0) + buffer + [], m.code, end, m.data)
  {
    assert Ands(0) + buffer + [] == buffer;
  }

  lemma LogicStep(toks: seq<Token>, pos: nat, a: Ast, data: seq<Datum>, buffer: seq<Instr>, mid: nat,
                  k': nat, x': seq<Instr>, y': seq<Instr>, whole: Parsed, m: Emitted, r: Emitted) returns (k: nat, x: seq<Instr>, y: seq<Instr>)
    requires a.Bin? && a.op == And && mid < |toks| && toks[mid] == Operator(And)
    requires mid + 1 + |Tokens(a.r)| == pos + |Tokens(a)|
    requires m == Emit(a.l, data) && r == Emit(a.r, m.data)
    requires k' == TopAnds(a.l) && m.code == Ands(k') + x' + y'
    requires whole == Rest(toks, 0, Ands(k') + buffer + x', y', mid, m.data)
    requires ParseAt(toks, mid + 1, m.data, 1, false) == Good(r.code, mid + 1 + |Tokens(a.r)|, r.data)
    ensures pos + |Tokens(a)| <= |toks| && k == TopAnds(a) && Emit(a, data).code == Ands(k) + x + y
    ensures whole == Rest(toks, 0, Ands(k) + buffer + x, y, pos + |Tokens(a)|, Emit(a, data).data)
  {
    EmitBin(a, data);
    k, y := k' + 1, [];
    x := FoldAnd(toks, k', buffer, x', y', mid, m, r, pos + |Tokens(a)|);
  }

  lemma FoldAnd(toks: seq<Token>, k: nat, buffer: seq<Instr>, x: seq<Instr>, y: seq<Instr>, mid: nat,
                m: Emitted, r: Emitted, end: nat) returns (z: seq<Instr>)
    requires m.code == Ands(k) + x + y
    requires mid < |toks| && toks[mid] == Operator(And)
    requires ParseAt(toks, mid + 1, m.data, 1, false) == Good(r.code, end, r.data)
    ensures [Call(Apply(And))] + m.code + r.code == Ands(k + 1) + z + []
    ensures Rest(toks, 0, Ands(k) + buffer + x, y, mid, m.data) == Rest(toks, 0, Ands(k + 1) + buffer + z, [], end, r.data)
  {
    z := x + y + r.code;
    RestStep(toks, 0, And, Ands(k) + buffer + x, y, mid, m.data, r.code, r.data, end);
    assert [Call(Apply(And))] + (Ands(k) + buffer + x) + y + r.code == Ands(k + 1) + buffer + z by {
      Regroup(k, buffer, x, y, r.code);
    }
    assert [Call(Apply(And))] + m.code + r.code == Ands(k + 1) + z + [] by { Regroup(k, [], x, y, r.code); }
  }

  /** One operator folded in. */
  lemma RestStep(toks: seq<Token>, n: nat, op: BinOp, code: seq<Instr>, term: seq<Instr>, pos: nat, data: seq<Datum>,
                 rc: seq<Instr>, d: seq<Datum>, end: nat)
    requires pos < |toks| && toks[pos] == Operator(op) && OpLevel(op) == n < PRIMARY
    requires ParseAt(toks, pos + 1, data, n + 1, false) == Good(rc, end, d)
    ensures Rest(toks, n, code, term, pos, data) == Rest(toks, n, [Call(Apply(op))] + code + term + rc, [], end, d)
  {
  }

  lemma PrefixStep(op: BinOp, x: seq<Instr>, y: seq<Instr>, lc: seq<Instr>, rc: seq<Instr>)
    requires x + y == lc
    ensures [Call(Apply(op))] + x + y + rc + [] == [Call(Apply(op))] + lc + rc
  {
    assert [Call(Apply(op))] + x + y == [Call(Apply(op))] + (x + y);
  }

  // ----------------------------------------------- an AND in a used buffer

  predicate OnlyAnds(b: seq<Instr>) {
    forall i :: 0 <= i < |b| ==> b[i] == Call(Apply(And))
  }

  lemma {:induction false} AndsAre(k: nat)
    ensures |Ands(k)| == k && OnlyAnds(Ands(k))
  {
    if k > 0 { AndsAre(k - 1); }
  }

  lemma {:induction false} FirstOther(b: seq<Instr>) returns (i: nat)
    requires !OnlyAnds(b)
    ensures i < |b| && b[i] != Call(Apply(And)) && forall j :: 0 <= j < i ==> b[j] == Call(Apply(And))
  {
    if b[0] != Call(Apply(And)) {
      i := 0;
    } else {
      var j := FirstOther(b[1..]);
      i := j + 1;
      assert forall l :: 0 < l < i ==> b[l] == b[1..][l - 1];
    }
  }

  lemma {:induction false} AndsCommute(k: nat, b: seq<Instr>)
    requires k > 0
    ensures Ands(k) + b == b + Ands(k) <==> OnlyAnds(b)
  {
    AndsAre(k);
    var x, y := Ands(k) + b, b + Ands(k);
    if OnlyAnds(b) {
      assert x == y;
    } else {
      var i := FirstOther(b);
      assert y[i] == b[i];
      assert x[i] == if i < k then Ands(k)[i] else b[i - k];
    }
  }

  /**
   An expression parsed into a buffer that already holds code follows it exactly
   when the expression has no AND at its top (or the buffer holds nothing but ANDs).
   */
  lemma AndInUsedBuffer(toks: seq<Token>, pos: nat, a: Ast, data: seq<Datum>, buffer: seq<Instr>)
    requires Fits(a, 0, true) && Spells(toks, pos, a) && Stops(Peek(toks, pos + |Tokens(a)|), 0)
    ensures LogicExpr(toks, pos, data, buffer).Good?
    ensures LogicExpr(toks, pos, data, buffer).code == buffer + Emit(a, data).code
       <==> TopAnds(a) == 0 || OnlyAnds(buffer)
  {
    FitsIff(a, 0, true);
    var k, x, y := LogicSpine(toks, pos, a, data, buffer);
    RestEnds(toks, Ands(k) + buffer + x, y, pos + |Tokens(a)|, Emit(a, data).data);
    var got, z := LogicExpr(toks, pos, data, buffer).code, x + y;
    assert got == (Ands(k) + buffer) + z;
    assert buffer + Emit(a, data).code == (buffer + Ands(k)) + z;
    AndsAre(k);
    SameFront(Ands(k) + buffer, buffer + Ands(k), z);
    if k == 0 {
      assert Ands(0) + buffer == buffer + Ands(0);
    } else {
      AndsCommute(k, buffer);
    }
  }

  lemma SameFront(a: seq<Instr>, b: seq<Instr>, z: seq<Instr>)
    requires |a| == |b|
    ensures a + z == b + z <==> a == b
  {
    assert (a + z)[..|a|] == a && (b + z)[..|b|] == b;
  }

  /** a AND b behind CALL ON, as in a join condition: the AND ends up in front of ON. */
  lemma AndInFrontOfOn(data: seq<Datum>)
    ensures var a := Bin(And, Column([97]), Column([98]));
            var on := [Call(Statement(48))];
            LogicExpr(Tokens(a), 0, data, on).Good?
            && LogicExpr(Tokens(a), 0, data, on).code != on + Emit(a, data).code
  {
    var a := Bin(And, Column([97]), Column([98]));
    var on := [Call(Statement(48))];
    assert on[0] != Call(Apply(And));
    assert Binds(a, 0, true);
    FitsIff(a, 0, true);
    AndInUsedBuffer(Tokens(a), 0, a, data, on);
    assert TopAnds(a) == 1 + TopAnds(Column([97]));
  }
}

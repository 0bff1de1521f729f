/**
 INSERT: column names and sets of values, translated with counts that are
 patched in front of each list once the list has been read.
 */
module SqlInsert {
  import opened Prelude
  import opened SqlCode
  import opened SqlParse

  const VALUES: Token := Keyword(1)

  datatype Listed = BadList | List(code: seq<Instr>, count: nat, pos: nat, data: seq<Datum>)

  // ------------------------------------------------------------ translation

  /** Names from `pos`, separated by commas, behind what has been read already. */
  function NamesFrom(toks: seq<Token>, pos: nat, data: seq<Datum>, code: seq<Instr>, count: nat): (r: Listed)
    ensures r.List? ==> pos < r.pos <= |toks| && r.count > count
    decreases |toks| - pos
  {
    if pos >= |toks| || !toks[pos].Name? then BadList
    else
      var raw := toks[pos].raw;
      var more, d := code + [PushO(FindData(data, raw))], Intern(data, Datum(KName, raw));
      if Peek(toks, pos + 1) == Comma then NamesFrom(toks, pos + 2, d, more, count + 1)
      else List(more, count + 1, pos + 1, d)
  }

  function ValuesFrom(toks: seq<Token>, pos: nat, data: seq<Datum>, code: seq<Instr>, count: nat): (r: Listed)
    ensures r.List? ==> pos < r.pos <= |toks| && r.count > count
    decreases |toks| - pos
  {
    var r := LogicExpr(toks, pos, data, []);
    if r.Bad? then BadList
    else if Peek(toks, r.pos) == Comma then ValuesFrom(toks, r.pos + 1, r.data, code + r.code, count + 1)
    else List(code + r.code, count + 1, r.pos, r.data)
  }

  function SetsFrom(toks: seq<Token>, pos: nat, data: seq<Datum>, code: seq<Instr>, count: nat): (r: Listed)
    ensures r.List? ==> pos < r.pos <= |toks| && r.count > count
    decreases |toks| - pos
  {
    if Peek(toks, pos) != LParen then BadList
    else
      var v := ValuesFrom(toks, pos + 1, data, [], 0);
      if v.BadList? || Peek(toks, v.pos) != RParen then BadList
      else
        var more := code + ([Push(v.count)] + v.code);
        if Peek(toks, v.pos + 1) == Comma then SetsFrom(toks, v.pos + 2, v.data, more, count + 1)
        else List(more, count + 1, v.pos + 1, v.data)
  }

  function ColumnsAt(toks: seq<Token>, pos: nat, data: seq<Datum>): (r: Parsed) {
    if Peek(toks, pos) == LParen then
      var r := NamesFrom(toks, pos + 1, data, [], 0);
      if r.BadList? || Peek(toks, r.pos) != RParen then Bad
      else Good([Push(r.count)] + r.code, r.pos + 1, r.data)
    else Good([Push(0)], pos, data)
  }

  /** What follows the table name: optional columns, VALUES, the sets. */
  function BodyAt(toks: seq<Token>, pos: nat, data: seq<Datum>): (r: Parsed) {
    var c := ColumnsAt(toks, pos, data);
    if c.Bad? || Peek(toks, c.pos) != VALUES then Bad
    else
      var s := SetsFrom(toks, c.pos + 1, c.data, [], 0);
      if s.BadList? then Bad else Good(c.code + ([Push(s.count)] + s.code), s.pos, s.data)
  }

  // ---------------------------------------------------------------- grammar

  datatype Insertion = Insertion(cols: seq<Text>, sets: seq<seq<Ast>>)

  predicate AllFit(vs: seq<Ast>) {
    forall i :: 0 <= i < |vs| ==> Fits(vs[i], 0, true)
  }

  /** No list is empty except that of the columns, which may be left out. */
  predicate Proper(ins: Insertion) {
    ins.sets != [] && forall i :: 0 <= i < |ins.sets| ==> ins.sets[i] != [] && AllFit(ins.sets[i])
  }

  function NameTokens(cols: seq<Text>): seq<Token>
    requires cols != []
  {
    if |cols| == 1 then [Name(cols[0])] else [Name(cols[0]), Comma] + NameTokens(cols[1..])
  }

  function ValueTokens(vs: seq<Ast>): seq<Token>
    requires vs != []
  {
    if |vs| == 1 then Tokens(vs[0]) else Tokens(vs[0]) + ([Comma] + ValueTokens(vs[1..]))
  }

  function SetTokens(vs: seq<Ast>): seq<Token>
    requires vs != []
  {
    [LParen] + (ValueTokens(vs) + [RParen])
  }

  function SetsTokens(sets: seq<seq<Ast>>): seq<Token>
    requires sets != [] && forall i :: 0 <= i < |sets| ==> sets[i] != []
  {
    if |sets| == 1 then SetTokens(sets[0]) else SetTokens(sets[0]) + ([Comma] + SetsTokens(sets[1..]))
  }

  function ColumnTokens(cols: seq<Text>): seq<Token> {
    if cols == [] then [] else [LParen] + (NameTokens(cols) + [RParen])
  }

  function BodyTokens(ins: Insertion): seq<Token>
    requires Proper(ins)
  {
    ColumnTokens(ins.cols) + ([VALUES] + SetsTokens(ins.sets))
  }

  function EmitNames(cols: seq<Text>, data: seq<Datum>): Emitted {
    if cols == [] then Emitted([], data)
    else
      var m := EmitNames(cols[1..], Intern(data, Datum(KName, cols[0])));
      m.(code := [PushO(FindData(data, cols[0]))] + m.code)
  }

  function EmitValues(vs: seq<Ast>, data: seq<Datum>): Emitted {
    if vs == [] then Emitted([], data)
    else
      var m := Emit(vs[0], data);
      var k := EmitValues(vs[1..], m.data);
      Emitted(m.code + k.code, k.data)
  }

  function EmitSets(sets: seq<seq<Ast>>, data: seq<Datum>): Emitted {
    if sets == [] then Emitted([], data)
    else
      var m := EmitValues(sets[0], data);
      var k := EmitSets(sets[1..], m.data);
      Emitted([Push(|sets[0]|)] + m.code + k.code, k.data)
  }

  /** Each list behind its length. */
  function EmitBody(ins: Insertion, data: seq<Datum>): Emitted {
    var c := EmitNames(ins.cols, data);
    var s := EmitSets(ins.sets, c.data);
    Emitted([Push(|ins.cols|)] + c.code + ([Push(|ins.sets|)] + s.code), s.data)
  }

  /** Patching the mark in front of a list. */
  lemma Patched(buffer: seq<Instr>, list: seq<Instr>, n: nat)
    ensures (buffer + [Nop] + list)[|buffer| := Push(n)] == buffer + ([Push(n)] + list)
  {
  }

  lemma Longer(buffer: seq<Instr>, list: seq<Instr>, more: seq<Instr>)
    ensures buffer + [Nop] + list + more == buffer + [Nop] + (list + more)
  {
  }

  // ------------------------------------------------------------ correctness

  function Behind(code: seq<Instr>, m: Emitted, count: nat, pos: nat): Listed {
    List(code + m.code, count, pos, m.data)
  }

  lemma {:induction false} NamesEmit(toks: seq<Token>, pos: nat, cols: seq<Text>, data: seq<Datum>,
                                     code: seq<Instr>, count: nat)
    requires cols != [] && Occurs(toks, pos, NameTokens(cols)) && Peek(toks, pos + |NameTokens(cols)|) != Comma
    ensures NamesFrom(toks, pos, data, code, count)
         == Behind(code, EmitNames(cols, data), count + |cols|, pos + |NameTokens(cols)|)
    decreases |cols|
  {
    var one, d := [PushO(FindData(data, cols[0]))], Intern(data, Datum(KName, cols[0]));
    FirstName(toks, pos, cols);
    NextName(cols, data, code);
    NamesStep(toks, pos, data, code, count, cols[0]);
    if |cols| > 1 {
      NamesEmit(toks, pos + 2, cols[1..], d, code + one, count + 1);
    }
  }

  lemma NamesStep(toks: seq<Token>, pos: nat, data: seq<Datum>, code: seq<Instr>, count: nat, name: Text)
    requires Peek(toks, pos) == Name(name)
    ensures NamesFrom(toks, pos, data, code, count)
         == (var more, d := code + [PushO(FindData(data, name))], Intern(data, Datum(KName, name));
             if Peek(toks, pos + 1) == Comma then NamesFrom(toks, pos + 2, d, more, count + 1)
             else List(more, count + 1, pos + 1, d))
  {
  }

  lemma FirstName(toks: seq<Token>, pos: nat, cols: seq<Text>)
    requires cols != [] && Occurs(toks, pos, NameTokens(cols)) && Peek(toks, pos + |NameTokens(cols)|) != Comma
    ensures Peek(toks, pos) == Name(cols[0]) && (Peek(toks, pos + 1) == Comma <==> |cols| > 1)
    ensures |cols| > 1 ==> Occurs(toks, pos + 2, NameTokens(cols[1..])) && |NameTokens(cols)| == 2 + |NameTokens(cols[1..])|
  {
    if |cols| == 1 {
      OccursOne(toks, pos, Name(cols[0]));
    } else {
      OccursSplit(toks, pos, [Name(cols[0]), Comma], NameTokens(cols[1..]));
      OccursPair(toks, pos, Name(cols[0]), Comma);
    }
  }

  lemma NextName(cols: seq<Text>, data: seq<Datum>, code: seq<Instr>)
    requires cols != []
    ensures var one, d := [PushO(FindData(data, cols[0]))], Intern(data, Datum(KName, cols[0]));
            EmitNames(cols, data).data == EmitNames(cols[1..], d).data
            && code + EmitNames(cols, data).code == code + one + EmitNames(cols[1..], d).code
            && (|cols| == 1 ==> code + EmitNames(cols, data).code == code + one && EmitNames(cols, data).data == d)
  {
    var one, d := [PushO(FindData(data, cols[0]))], Intern(data, Datum(KName, cols[0]));
    var rest := EmitNames(cols[1..], d).code;
    assert code + (one + rest) == code + one + rest;
    if |cols| == 1 { assert cols[1..] == [] && rest == []; }
  }

  lemma OccursPair<T>(s: seq<T>, pos: nat, x: T, y: T)
    requires Occurs(s, pos, [x, y])
    ensures pos + 1 < |s| && s[pos] == x && s[pos + 1] == y
  {
    assert [x, y][0] == s[pos] && [x, y][1] == s[pos + 1];
  }

  lemma {:induction false} ValuesEmit(toks: seq<Token>, pos: nat, vs: seq<Ast>, data: seq<Datum>,
                                      code: seq<Instr>, count: nat)
    requires vs != [] && AllFit(vs) && Occurs(toks, pos, ValueTokens(vs)) && Peek(toks, pos + |ValueTokens(vs)|) == RParen
    ensures ValuesFrom(toks, pos, data, code, count)
         == Behind(code, EmitValues(vs, data), count + |vs|, pos + |ValueTokens(vs)|)
    decreases |vs|
  {
    FirstValue(toks, pos, vs);
    LogicEmits(toks, pos, vs[0], data);
    var m, next := Emit(vs[0], data), pos + |Tokens(vs[0])|;
    ValuesStep(toks, pos, data, code, count, m, next);
    if |vs| == 1 {
      LastValue(vs, data, code);
    } else {
      ValuesEmit(toks, next + 1, vs[1..], m.data, code + m.code, count + 1);
      NextValue(vs, data, code);
    }
  }

  lemma ValuesStep(toks: seq<Token>, pos: nat, data: seq<Datum>, code: seq<Instr>, count: nat, m: Emitted, next: nat)
    requires LogicExpr(toks, pos, data, []) == Good(m.code, next, m.data)
    ensures ValuesFrom(toks, pos, data, code, count)
         == if Peek(toks, next) == Comma then ValuesFrom(toks, next + 1, m.data, code + m.code, count + 1)
            else Behind(code, m, count + 1, next)
  {
  }

  lemma LastValue(vs: seq<Ast>, data: seq<Datum>, code: seq<Instr>)
    requires |vs| == 1
    ensures EmitValues(vs, data) == Emit(vs[0], data) && ValueTokens(vs) == Tokens(vs[0])
  {
    assert vs[1..] == [];
    assert EmitValues(vs, data).code == Emit(vs[0], data).code + [];
  }

  lemma NextValue(vs: seq<Ast>, data: seq<Datum>, code: seq<Instr>)
    requires |vs| > 1
    ensures var m := Emit(vs[0], data);
            EmitValues(vs, data).data == EmitValues(vs[1..], m.data).data
            && code + EmitValues(vs, data).code == code + m.code + EmitValues(vs[1..], m.data).code
  {
    var m := Emit(vs[0], data);
    assert code + (m.code + EmitValues(vs[1..], m.data).code) == code + m.code + EmitValues(vs[1..], m.data).code;
  }

  lemma FirstValue(toks: seq<Token>, pos: nat, vs: seq<Ast>)
    requires vs != [] && AllFit(vs) && Occurs(toks, pos, ValueTokens(vs)) && Peek(toks, pos + |ValueTokens(vs)|) == RParen
    ensures var next := pos + |Tokens(vs[0])|;
            Spells(toks, pos, vs[0]) && next < |toks|
            && (|vs| == 1 ==> toks[next] == RParen)
            && (|vs| > 1 ==> (toks[next] == Comma && AllFit(vs[1..]) && Occurs(toks, next + 1, ValueTokens(vs[1..]))
                              && next + 1 + |ValueTokens(vs[1..])| == pos + |ValueTokens(vs)|))
  {
    if |vs| > 1 {
      assert forall i :: 0 <= i < |vs| - 1 ==> vs[1..][i] == vs[i + 1];
      MoreValues(toks, pos, vs);
    }
  }

  lemma MoreValues(toks: seq<Token>, pos: nat, vs: seq<Ast>)
    requires |vs| > 1 && Occurs(toks, pos, ValueTokens(vs))
    ensures var next := pos + |Tokens(vs[0])|;
            Spells(toks, pos, vs[0]) && next < |toks| && toks[next] == Comma && Occurs(toks, next + 1, ValueTokens(vs[1..]))
            && next + 1 + |ValueTokens(vs[1..])| == pos + |ValueTokens(vs)|
  {
    var next, rest := pos + |Tokens(vs[0])|, ValueTokens(vs[1..]);
    OccursSplit(toks, pos, Tokens(vs[0]), [Comma] + rest);
    OccursSplit(toks, next, [Comma], rest);
    OccursOne(toks, next, Comma);
  }

  lemma SetEmit(toks: seq<Token>, pos: nat, vs: seq<Ast>, data: seq<Datum>)
    requires vs != [] && AllFit(vs) && Occurs(toks, pos, SetTokens(vs))
    ensures var m := EmitValues(vs, data);
            var end := pos + |SetTokens(vs)|;
            Peek(toks, pos) == LParen && end <= |toks| && Peek(toks, end - 1) == RParen
            && ValuesFrom(toks, pos + 1, data, [], 0) == List(m.code, |vs|, end - 1, m.data)
  {
    OccursSplit(toks, pos, [LParen], ValueTokens(vs) + [RParen]);
    OccursOne(toks, pos, LParen);
    OccursSplit(toks, pos + 1, ValueTokens(vs), [RParen]);
    OccursOne(toks, pos + 1 + |ValueTokens(vs)|, RParen);
    ValuesEmit(toks, pos + 1, vs, data, [], 0);
    assert [] + EmitValues(vs, data).code == EmitValues(vs, data).code;
  }

  predicate ProperSets(sets: seq<seq<Ast>>) {
    sets != [] && forall i :: 0 <= i < |sets| ==> sets[i] != [] && AllFit(sets[i])
  }

  lemma {:induction false} SetsEmit(toks: seq<Token>, pos: nat, sets: seq<seq<Ast>>, data: seq<Datum>,
                                    code: seq<Instr>, count: nat)
    requires ProperSets(sets) && Occurs(toks, pos, SetsTokens(sets)) && Peek(toks, pos + |SetsTokens(sets)|) != Comma
    ensures SetsFrom(toks, pos, data, code, count)
         == Behind(code, EmitSets(sets, data), count + |sets|, pos + |SetsTokens(sets)|)
    decreases |sets|
  {
    FirstSet(toks, pos, sets);
    SetEmit(toks, pos, sets[0], data);
    var m, end := EmitValues(sets[0], data), pos + |SetTokens(sets[0])|;
    var more := code + ([Push(|sets[0]|)] + m.code);
    SetsStep(toks, pos, data, code, count, m, |sets[0]|, end);
    if |sets| == 1 {
      LastSet(sets, data, code);
    } else {
      SetsEmit(toks, end + 1, sets[1..], m.data, more, count + 1);
      NextSet(sets, data, code);
    }
  }

  lemma SetsStep(toks: seq<Token>, pos: nat, data: seq<Datum>, code: seq<Instr>, count: nat, m: Emitted, n: nat, end: nat)
    requires Peek(toks, pos) == LParen && pos < end <= |toks| && Peek(toks, end - 1) == RParen
    requires ValuesFrom(toks, pos + 1, data, [], 0) == List(m.code, n, end - 1, m.data)
    ensures SetsFrom(toks, pos, data, code, count)
         == (var more := code + ([Push(n)] + m.code);
             if Peek(toks, end) == Comma then SetsFrom(toks, end + 1, m.data, more, count + 1)
             else List(more, count + 1, end, m.data))
  {
  }

  lemma LastSet(sets: seq<seq<Ast>>, data: seq<Datum>, code: seq<Instr>)
    requires |sets| == 1
    ensures var m := EmitValues(sets[0], data);
            EmitSets(sets, data) == Emitted([Push(|sets[0]|)] + m.code, m.data)
  {
    assert sets[1..] == [];
    var m := EmitValues(sets[0], data);
    assert EmitSets(sets, data).code == [Push(|sets[0]|)] + m.code + [];
  }

  lemma NextSet(sets: seq<seq<Ast>>, data: seq<Datum>, code: seq<Instr>)
    requires |sets| > 1
    ensures var m := EmitValues(sets[0], data);
            EmitSets(sets, data).data == EmitSets(sets[1..], m.data).data
            && code + EmitSets(sets, data).code
            == code + ([Push(|sets[0]|)] + m.code) + EmitSets(sets[1..], m.data).code
  {
    var m := EmitValues(sets[0], data);
    var one, k := [Push(|sets[0]|)] + m.code, EmitSets(sets[1..], m.data);
    assert code + (one + k.code) == code + one + k.code;
  }

  lemma FirstSet(toks: seq<Token>, pos: nat, sets: seq<seq<Ast>>)
    requires ProperSets(sets) && Occurs(toks, pos, SetsTokens(sets)) && Peek(toks, pos + |SetsTokens(sets)|) != Comma
    ensures var end := pos + |SetTokens(sets[0])|;
            Occurs(toks, pos, SetTokens(sets[0])) && AllFit(sets[0])
            && (|sets| == 1 ==> Peek(toks, end) != Comma && end == pos + |SetsTokens(sets)|)
            && (|sets| > 1 ==> (Peek(toks, end) == Comma && ProperSets(sets[1..])
                                && Occurs(toks, end + 1, SetsTokens(sets[1..]))
                                && end + 1 + |SetsTokens(sets[1..])| == pos + |SetsTokens(sets)|))
  {
    if |sets| > 1 {
      var rest, end := sets[1..], pos + |SetTokens(sets[0])|;
      assert forall i :: 0 <= i < |rest| ==> rest[i] == sets[i + 1];
      OccursSplit(toks, pos, SetTokens(sets[0]), [Comma] + SetsTokens(rest));
      OccursSplit(toks, end, [Comma], SetsTokens(rest));
      OccursOne(toks, end, Comma);
    }
  }

  lemma ColumnsEmit(toks: seq<Token>, pos: nat, cols: seq<Text>, data: seq<Datum>)
    requires Occurs(toks, pos, ColumnTokens(cols)) && Peek(toks, pos + |ColumnTokens(cols)|) == VALUES
    ensures var m := EmitNames(cols, data);
            ColumnsAt(toks, pos, data) == Good([Push(|cols|)] + m.code, pos + |ColumnTokens(cols)|, m.data)
  {
    if cols == [] {
      assert EmitNames(cols, data) == Emitted([], data);
      assert [Push(0)] + [] == [Push(0)];
    } else {
      SomeColumns(toks, pos, cols, data);
    }
  }

  lemma SomeColumns(toks: seq<Token>, pos: nat, cols: seq<Text>, data: seq<Datum>)
    requires cols != [] && Occurs(toks, pos, ColumnTokens(cols))
    ensures ColumnsAt(toks, pos, data)
         == Good([Push(|cols|)] + EmitNames(cols, data).code, pos + |ColumnTokens(cols)|, EmitNames(cols, data).data)
  {
    ColumnsSpell(toks, pos, cols);
    var m, end := EmitNames(cols, data), pos + 1 + |NameTokens(cols)|;
    assert NamesFrom(toks, pos + 1, data, [], 0) == Behind([], m, |cols|, end) by {
      NamesEmit(toks, pos + 1, cols, data, [], 0);
    }
    ColumnsOf(toks, pos, data, m, |cols|, end);
  }

  lemma ColumnsOf(toks: seq<Token>, pos: nat, data: seq<Datum>, m: Emitted, count: nat, end: nat)
    requires Peek(toks, pos) == LParen && Peek(toks, end) == RParen
    requires NamesFrom(toks, pos + 1, data, [], 0) == Behind([], m, count, end)
    ensures ColumnsAt(toks, pos, data) == Good([Push(count)] + m.code, end + 1, m.data)
  {
    assert [] + m.code == m.code;
  }

  lemma ColumnsSpell(toks: seq<Token>, pos: nat, cols: seq<Text>)
    requires cols != [] && Occurs(toks, pos, ColumnTokens(cols))
    ensures var end := pos + 1 + |NameTokens(cols)|;
            Peek(toks, pos) == LParen && Occurs(toks, pos + 1, NameTokens(cols)) && Peek(toks, end) == RParen
            && pos + |ColumnTokens(cols)| == end + 1
  {
    OccursSplit(toks, pos, [LParen], NameTokens(cols) + [RParen]);
    OccursOne(toks, pos, LParen);
    OccursSplit(toks, pos + 1, NameTokens(cols), [RParen]);
    OccursOne(toks, pos + 1 + |NameTokens(cols)|, RParen);
  }

  /** The body of every INSERT of the grammar is translated to its lists behind their lengths. */
  lemma BodyEmits(toks: seq<Token>, pos: nat, ins: Insertion, data: seq<Datum>)
    requires Proper(ins) && Occurs(toks, pos, BodyTokens(ins)) && Peek(toks, pos + |BodyTokens(ins)|) != Comma
    ensures BodyAt(toks, pos, data) == Good(EmitBody(ins, data).code, pos + |BodyTokens(ins)|, EmitBody(ins, data).data)
  {
    ColumnsPart(toks, pos, ins, data);
    SetsPart(toks, pos, ins, EmitNames(ins.cols, data).data);
    BodyDone(toks, pos, ins, data, EmitNames(ins.cols, data), EmitSets(ins.sets, EmitNames(ins.cols, data).data),
             pos + |ColumnTokens(ins.cols)|, pos + |BodyTokens(ins)|);
  }

  lemma BodyDone(toks: seq<Token>, pos: nat, ins: Insertion, data: seq<Datum>, c: Emitted, s: Emitted, mid: nat, end: nat)
    requires c == EmitNames(ins.cols, data) && s == EmitSets(ins.sets, c.data)
    requires ColumnsAt(toks, pos, data) == Good([Push(|ins.cols|)] + c.code, mid, c.data) && Peek(toks, mid) == VALUES
    requires SetsFrom(toks, mid + 1, c.data, [], 0) == Behind([], s, |ins.sets|, end)
    ensures BodyAt(toks, pos, data) == Good(EmitBody(ins, data).code, end, EmitBody(ins, data).data)
  {
    BodyOf(toks, pos, data, |ins.cols|, c, mid, |ins.sets|, s, end);
    EmitBodyIs(ins, data, c, s);
  }

  lemma ColumnsPart(toks: seq<Token>, pos: nat, ins: Insertion, data: seq<Datum>)
    requires Proper(ins) && Occurs(toks, pos, BodyTokens(ins))
    ensures Peek(toks, pos + |ColumnTokens(ins.cols)|) == VALUES
    ensures ColumnsAt(toks, pos, data) == Good([Push(|ins.cols|)] + EmitNames(ins.cols, data).code,
                                               pos + |ColumnTokens(ins.cols)|, EmitNames(ins.cols, data).data)
  {
    BodySpell(toks, pos, ins);
    ColumnsEmit(toks, pos, ins.cols, data);
  }

  lemma SetsPart(toks: seq<Token>, pos: nat, ins: Insertion, data: seq<Datum>)
    requires Proper(ins) && Occurs(toks, pos, BodyTokens(ins)) && Peek(toks, pos + |BodyTokens(ins)|) != Comma
    ensures SetsFrom(toks, pos + |ColumnTokens(ins.cols)| + 1, data, [], 0)
         == Behind([], EmitSets(ins.sets, data), |ins.sets|, pos + |BodyTokens(ins)|)
  {
    BodySpell(toks, pos, ins);
    SetsEmit(toks, pos + |ColumnTokens(ins.cols)| + 1, ins.sets, data, [], 0);
  }

  lemma EmitBodyIs(ins: Insertion, data: seq<Datum>, c: Emitted, s: Emitted)
    requires c == EmitNames(ins.cols, data) && s == EmitSets(ins.sets, c.data)
    ensures EmitBody(ins, data) == Emitted([Push(|ins.cols|)] + c.code + ([Push(|ins.sets|)] + s.code), s.data)
  {
  }

  lemma BodyOf(toks: seq<Token>, pos: nat, data: seq<Datum>, n: nat, c: Emitted, mid: nat, m: nat, s: Emitted, end: nat)
    requires ColumnsAt(toks, pos, data) == Good([Push(n)] + c.code, mid, c.data) && Peek(toks, mid) == VALUES
    requires SetsFrom(toks, mid + 1, c.data, [], 0) == Behind([], s, m, end)
    ensures BodyAt(toks, pos, data) == Good([Push(n)] + c.code + ([Push(m)] + s.code), end, s.data)
  {
    assert [] + s.code == s.code;
  }

  lemma BodySpell(toks: seq<Token>, pos: nat, ins: Insertion)
    requires Proper(ins) && Occurs(toks, pos, BodyTokens(ins))
    ensures var mid := pos + |ColumnTokens(ins.cols)|;
            Occurs(toks, pos, ColumnTokens(ins.cols)) && Peek(toks, mid) == VALUES
            && Occurs(toks, mid + 1, SetsTokens(ins.sets)) && mid + 1 + |SetsTokens(ins.sets)| == pos + |BodyTokens(ins)|
  {
    var mid := pos + |ColumnTokens(ins.cols)|;
    OccursSplit(toks, pos, ColumnTokens(ins.cols), [VALUES] + SetsTokens(ins.sets));
    OccursSplit(toks, mid, [VALUES], SetsTokens(ins.sets));
    OccursOne(toks, mid, VALUES);
  }
}

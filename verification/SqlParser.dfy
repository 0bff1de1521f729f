/** The translator's recursive descent, with its token cursor and data table. */
module SqlParser {
  import opened Prelude
  import opened SqlCode
  import opened SqlParse
  import opened SqlInsert

  class Parser {
    const toks: seq<Token>
    var pos: nat
    var data: seq<Datum>

    constructor (toks: seq<Token>)
      ensures this.toks == toks && pos == 0 && data == [Datum(KVarchar, EMPTY)]
    {
      this.toks := toks;
      pos, data := 0, [Datum(KVarchar, EMPTY)];
    }

    /** What a call did, compared with the translation of the tokens it started at. */
    twostate predicate Did(ok: bool, code: seq<Instr>, r: Parsed)
      reads this
    {
      ok == r.Good? && (ok ==> code == r.code && pos == r.pos && data == r.data)
    }

    /** `parser::data`: the index of the current token's spelling; consumes the token. */
    method DataIndex(d: Datum) returns (i: nat)
      modifies this`pos, this`data
      ensures i == FindData(old(data), d.raw) && data == Intern(old(data), d) && pos == old(pos) + 1
    {
      i := 0;
      while i < |data| && data[i].raw != d.raw
        invariant i <= |data| && forall j :: 0 <= j < i ==> data[j].raw != d.raw
      {
        i := i + 1;
      }
      if i == |data| {
        data := data + [d];
      }
      pos := pos + 1;
    }

    method ColumnExpr() returns (ok: bool, code: seq<Instr>)
      requires Peek(toks, pos).Name?
      modifies this
      ensures Did(ok, code, ColumnName(toks, old(pos), old(data)))
    {
      var none := FindData(data, EMPTY);
      var n := NamesAt(toks, pos);
      ok, code := n < 3, [];
      if !ok { return; }
      var i := DataIndex(Datum(KName, Peek(toks, pos).raw));
      if n == 2 {
        pos := pos + 1;
        var j := DataIndex(Datum(KName, Peek(toks, pos).raw));
        if Peek(toks, pos) == Dot && Peek(toks, pos + 1) == ASTERISK {
          pos, code := pos + 2, [Call(MkAsterisk), PushO(i), PushO(j)];
        } else {
          code := [Call(MkColumn), PushO(none), PushO(i), PushO(j)];
        }
      } else if Peek(toks, pos) == Dot && Peek(toks, pos + 1) == ASTERISK {
        pos, code := pos + 2, [Call(MkAsterisk), PushO(none), PushO(i)];
      } else {
        code := [Call(MkColumn), PushO(none), PushO(none), PushO(i)];
      }
    }

    method MathPrimary(star: bool) returns (ok: bool, code: seq<Instr>)
      modifies this
      ensures Did(ok, code, Primary(toks, old(pos), old(data), star))
      decreases |toks| - pos, 0, 0
    {
      ok, code := false, [];
      match Peek(toks, pos)
      case Lit(kind, raw) =>
        var i := DataIndex(Datum(kind, raw));
        ok, code := true, [Call(MkExpr), PushO(i)];
      case NullSym =>
        var i := DataIndex(Datum(KVarchar, NULL_TEXT));
        ok, code := true, [Call(MkExpr), PushO(i)];
      case Name(raw) =>
        ok, code := ColumnExpr();
      case LParen =>
        pos := pos + 1;
        ok, code := LogicLevel([]);
        if ok {
          if Peek(toks, pos) == RParen { pos := pos + 1; } else { ok := false; }
        }
      case Operator(op) =>
        if op == Sub {
          pos := pos + 1;
          ok, code := MathPrimary(false);
          code := [Call(Negate)] + code;
        } else if op == Add {
          pos := pos + 1;
          ok, code := MathPrimary(false);
        } else if op == Mul && star && Peek(toks, pos + 1) != ASTERISK {
          var none := FindData(data, EMPTY);
          pos := pos + 1;
          ok, code := true, [Call(MkAsterisk), PushO(none), PushO(none)];
        }
      case _ =>
    }

    /** The levels from OR down to products. */
    method Level(n: nat, star: bool) returns (ok: bool, code: seq<Instr>)
      requires 1 <= n <= PRIMARY
      modifies this
      ensures Did(ok, code, ParseAt(toks, old(pos), old(data), n, star))
      decreases |toks| - pos, PRIMARY + 1 - n, 1
    {
      if n == PRIMARY {
        ok, code := MathPrimary(star);
        return;
      }
      var term;
      ok, term := Level(n + 1, star);
      code := [];
      if !ok { return; }
      while Peek(toks, pos).Operator? && OpLevel(Peek(toks, pos).op) == n
        invariant old(pos) < pos <= |toks|
        invariant Rest(toks, n, code, term, pos, data) == ParseAt(toks, old(pos), old(data), n, star)
        decreases |toks| - pos
      {
        var op := Peek(toks, pos).op;
        pos := pos + 1;
        code := [Call(Apply(op))] + code + term;
        ok, term := Level(n + 1, false);
        if !ok { return; }
        code := code + term;
        term := [];
      }
      code := code + term;
    }

    /** `logic_expr`: AND, in the buffer of its caller. */
    method LogicLevel(buffer: seq<Instr>) returns (ok: bool, code: seq<Instr>)
      modifies this
      ensures Did(ok, code, LogicExpr(toks, old(pos), old(data), buffer))
      decreases |toks| - pos, PRIMARY + 1, 1
    {
      var term;
      ok, term := Level(1, true);
      code := buffer;
      if !ok { return; }
      while Peek(toks, pos) == Operator(And)
        invariant old(pos) < pos <= |toks|
        invariant Rest(toks, 0, code, term, pos, data) == LogicExpr(toks, old(pos), old(data), buffer)
        decreases |toks| - pos
      {
        pos := pos + 1;
        code := [Call(Apply(And))] + code + term;
        ok, term := Level(1, false);
        if !ok { return; }
        code := code + term;
        term := [];
      }
      code := code + term;
    }

    /** As Did, for a list that is appended to `buffer` behind its patched length. */
    twostate predicate DidList(ok: bool, buffer: seq<Instr>, code: seq<Instr>, r: Listed)
      reads this
    {
      ok == r.List? && (ok ==> code == buffer + ([Push(r.count)] + r.code) && pos == r.pos && data == r.data)
    }

    method NameList(buffer: seq<Instr>) returns (ok: bool, code: seq<Instr>)
      modifies this
      ensures DidList(ok, buffer, code, NamesFrom(toks, old(pos), old(data), [], 0))
    {
      var mark, count := |buffer|, 0;
      code := buffer + [Nop];
      ghost var list: seq<Instr> := [];
      ok := false;
      while true
        invariant code == buffer + [Nop] + list
        invariant NamesFrom(toks, pos, data, list, count) == NamesFrom(toks, old(pos), old(data), [], 0)
        decreases |toks| - pos
      {
        if pos >= |toks| || !toks[pos].Name? { return; }
        var i := DataIndex(Datum(KName, toks[pos].raw));
        Longer(buffer, list, [PushO(i)]);
        code := code + [PushO(i)];
        list := list + [PushO(i)];
        count := count + 1;
        if Peek(toks, pos) == Comma { pos := pos + 1; } else { break; }
      }
      Patched(buffer, list, count);
      ok, code := true, code[mark := Push(count)];
    }

    method ValueSet(buffer: seq<Instr>) returns (ok: bool, code: seq<Instr>)
      modifies this
      ensures DidList(ok, buffer, code, ValuesFrom(toks, old(pos), old(data), [], 0))
    {
      var mark, count := |buffer|, 0;
      code := buffer + [Nop];
      ghost var list: seq<Instr> := [];
      ok := false;
      while true
        invariant code == buffer + [Nop] + list
        invariant ValuesFrom(toks, pos, data, list, count) == ValuesFrom(toks, old(pos), old(data), [], 0)
        decreases |toks| - pos
      {
        var good, value := LogicLevel([]);
        if !good { return; }
        Longer(buffer, list, value);
        code := code + value;
        list := list + value;
        count := count + 1;
        if Peek(toks, pos) == Comma { pos := pos + 1; } else { break; }
      }
      Patched(buffer, list, count);
      ok, code := true, code[mark := Push(count)];
    }

    method ValueSetList(buffer: seq<Instr>) returns (ok: bool, code: seq<Instr>)
      modifies this
      ensures DidList(ok, buffer, code, SetsFrom(toks, old(pos), old(data), [], 0))
    {
      var mark, count := |buffer|, 0;
      code := buffer + [Nop];
      ghost var list: seq<Instr> := [];
      ok := false;
      while true
        invariant code == buffer + [Nop] + list
        invariant SetsFrom(toks, pos, data, list, count) == SetsFrom(toks, old(pos), old(data), [], 0)
        decreases |toks| - pos
      {
        if Peek(toks, pos) != LParen { return; }
        ghost var v := ValuesFrom(toks, pos + 1, data, [], 0);
        pos := pos + 1;
        var good;
        good, code := ValueSet(code);
        if !good || Peek(toks, pos) != RParen { return; }
        Longer(buffer, list, [Push(v.count)] + v.code);
        list := list + ([Push(v.count)] + v.code);
        pos, count := pos + 1, count + 1;
        if Peek(toks, pos) == Comma { pos := pos + 1; } else { break; }
      }
      Patched(buffer, list, count);
      ok, code := true, code[mark := Push(count)];
    }

    /** `opt_column_list` */
    method OptColumns(buffer: seq<Instr>) returns (ok: bool, code: seq<Instr>)
      modifies this
      ensures DidBehind(ok, buffer, code, ColumnsAt(toks, old(pos), old(data)))
    {
      if Peek(toks, pos) != LParen { return true, buffer + [Push(0)]; }
      pos := pos + 1;
      ok, code := NameList(buffer);
      if !ok { return; }
      ok := Peek(toks, pos) == RParen;
      pos := pos + 1;
    }

    /** As Did, behind a buffer. */
    twostate predicate DidBehind(ok: bool, buffer: seq<Instr>, code: seq<Instr>, r: Parsed)
      reads this
    {
      ok == r.Good? && (ok ==> code == buffer + r.code && pos == r.pos && data == r.data)
    }

    /** `insert_stmt` behind the table name. */
    method InsertBody(buffer: seq<Instr>) returns (ok: bool, code: seq<Instr>)
      modifies this
      ensures DidBehind(ok, buffer, code, BodyAt(toks, old(pos), old(data)))
    {
      ghost var c := ColumnsAt(toks, pos, data);
      ok, code := OptColumns(buffer);
      if !ok || Peek(toks, pos) != VALUES { return false, code; }
      pos := pos + 1;
      ghost var s := SetsFrom(toks, pos, data, [], 0);
      ok, code := ValueSetList(code);
      if ok { Behind3(buffer, c.code, [Push(s.count)] + s.code); }
    }
  }

  lemma Behind3(a: seq<Instr>, b: seq<Instr>, c: seq<Instr>)
    ensures a + b + c == a + (b + c)
  {
  }
}

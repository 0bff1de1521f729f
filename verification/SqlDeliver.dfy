/**
 What INSERT finds on the stack: the machine takes the column names and then the texts of one
 set of values after another.  They are those of the statement exactly as far as these are constants.
 */
module SqlDeliver {
  import opened Prelude
  import opened SqlCode
  import opened SqlParse
  import opened SqlVm
  import opened SqlCorrect
  import opened SqlInsert
  import opened SqlValues

  // ------------------------------------------------------ taking lists apart

  datatype Taken<T> = TooFew | Taken(list: seq<T>, rest: Stack)

  /** Pop `n` names, each of which has to be a column of the table. */
  function TakeNames(st: Stack, n: int, b: seq<Byte>, schema: seq<Text>, acc: seq<Text>): (r: Taken<Text>)
    ensures r.Taken? ==> |r.list| == |acc| + if n <= 0 then 0 else n
    decreases n
  {
    if n <= 0 then Taken(acc, st)
    else if st == [] || TextAt(st[|st| - 1], b).None? || TextAt(st[|st| - 1], b).value !in schema then TooFew
    else TakeNames(st[..|st| - 1], n - 1, b, schema, acc + [TextAt(st[|st| - 1], b).value])
  }

  /** Pop `n` values and take the text that each of them holds. */
  function TakeValues(st: Stack, n: int, fixed: Text -> Text, acc: seq<Text>): (r: Taken<Text>)
    ensures r.Taken? ==> |r.rest| <= |st|
    decreases n
  {
    if n <= 0 then Taken(acc, st)
    else if st == [] then TooFew
    else TakeValues(st[..|st| - 1], n - 1, fixed, acc + [ValueText(st[|st| - 1], fixed)])
  }

  /** Rows taken before the first set of the wrong length, and whether all were taken. */
  datatype Delivery = Delivery(ok: bool, columns: seq<Text>, rows: seq<seq<Text>>)

  function TakeSets(st: Stack, count: int, columns: seq<Text>, fixed: Text -> Text, acc: seq<seq<Text>>): Delivery
    decreases count
  {
    if count <= 0 || st == [] then Delivery(true, columns, acc)
    else if Value(st[|st| - 1]) != Some(|columns|) then Delivery(false, columns, acc)
    else
      var v := TakeValues(st[..|st| - 1], |columns|, fixed, []);
      if v.TooFew? then Delivery(false, columns, acc)
      else TakeSets(v.rest, count - 1, columns, fixed, acc + [v.list])
  }

  /** Without a column list the table's own columns are meant. */
  function Deliver(st: Stack, b: seq<Byte>, schema: seq<Text>, fixed: Text -> Text): Delivery {
    if st == [] || Value(st[|st| - 1]).None? then Delivery(false, [], [])
    else
      var c := TakeNames(st[..|st| - 1], Value(st[|st| - 1]).value, b, schema, []);
      if c.TooFew? || c.rest == [] || Value(c.rest[|c.rest| - 1]).None? then Delivery(false, [], [])
      else
        TakeSets(c.rest[..|c.rest| - 1], Value(c.rest[|c.rest| - 1]).value,
                 if c.list == [] then schema else c.list, fixed, [])
  }

  /** The statement's work on the machine's stack. */
  class Loader {
    const data: seq<Byte>
    const schema: seq<Text>
    const fixed: Text -> Text
    var stack: Stack
    var columns: seq<Text>
    var rows: seq<seq<Text>>

    constructor (data: seq<Byte>, schema: seq<Text>, fixed: Text -> Text, stack: Stack)
      ensures this.data == data && this.schema == schema && this.fixed == fixed && this.stack == stack
      ensures columns == [] && rows == []
    {
      this.data, this.schema, this.fixed, this.stack := data, schema, fixed, stack;
      columns, rows := [], [];
    }

    method Pop() returns (it: Item)
      requires stack != []
      modifies this`stack
      ensures stack == old(stack)[..|old(stack)| - 1] && it == old(stack)[|old(stack)| - 1]
    {
      it := stack[|stack| - 1];
      stack := stack[..|stack| - 1];
    }

    /** `load_column_name` */
    method LoadColumnNames(n: int) returns (ok: bool)
      requires columns == []
      modifies this`stack, this`columns
      ensures var r := TakeNames(old(stack), n, data, schema, []);
              ok == r.Taken? && (ok ==> columns == r.list && stack == r.rest)
    {
      var count := n;
      while count > 0
        invariant TakeNames(stack, count, data, schema, columns) == TakeNames(old(stack), n, data, schema, [])
        decreases count
      {
        if stack == [] { return false; }
        var e := Pop();
        var name := TextAt(e, data);
        if name.None? || name.value !in schema { return false; }
        columns := columns + [name.value];
        count := count - 1;
      }
      ok := true;
    }

    /** `load_value_list` */
    method LoadValueList() returns (ok: bool, values: seq<Text>)
      requires stack != []
      modifies this`stack
      ensures var top := |old(stack)| - 1;
              var r := TakeValues(old(stack)[..top], |columns|, fixed, []);
              ok == (Value(old(stack)[top]) == Some(|columns|) && r.Taken?)
              && (ok ==> values == r.list && stack == r.rest)
    {
      var e := Pop();
      values := [];
      if Value(e) != Some(|columns|) { return false, []; }
      ghost var below := stack;
      for i := 0 to |columns|
        invariant TakeValues(stack, |columns| - i, fixed, values) == TakeValues(below, |columns|, fixed, [])
      {
        if stack == [] { return false, values; }
        var v := Pop();
        values := values + [ValueText(v, fixed)];
      }
      ok := true;
    }

    /** `insert`: rows are stored one by one, so those before a malformed set stay. */
    method Insert() returns (d: Delivery)
      requires columns == [] && rows == []
      modifies this
      ensures d == Deliver(old(stack), data, schema, fixed) && rows == d.rows
    {
      if stack == [] || Value(stack[|stack| - 1]).None? { return Delivery(false, [], []); }
      var e := Pop();
      var ok := LoadColumnNames(Value(e).value);
      if !ok || stack == [] || Value(stack[|stack| - 1]).None? { return Delivery(false, [], []); }
      if columns == [] { columns := schema; }
      e := Pop();
      var count := Value(e).value;
      while count > 0 && stack != []
        invariant TakeSets(stack, count, columns, fixed, rows) == Deliver(old(stack), data, schema, fixed)
        decreases count
      {
        var good, values := LoadValueList();
        if !good { return Delivery(false, columns, rows); }
        rows := rows + [values];
        count := count - 1;
      }
      d := Delivery(true, columns, rows);
    }
  }

  // ------------------------------------------------------- what was compiled

  /** The trees of a list of expressions; None where one of them has none. */
  function TreesOf(vs: seq<Ast>): (r: Option<seq<Item>>)
    ensures r.Some? ==> |r.value| == |vs|
  {
    if vs == [] then Some([])
    else if TreeOf(vs[0]).None? || TreesOf(vs[1..]).None? then None
    else Some([TreeOf(vs[0]).value] + TreesOf(vs[1..]).value)
  }

  function TreesOfSets(sets: seq<seq<Ast>>): (r: Option<seq<seq<Item>>>)
    ensures r.Some? ==> |r.value| == |sets|
  {
    if sets == [] then Some([])
    else if TreesOf(sets[0]).None? || TreesOfSets(sets[1..]).None? then None
    else Some([TreesOf(sets[0]).value] + TreesOfSets(sets[1..]).value)
  }

  predicate LexedList(vs: seq<Ast>, kindOf: Text -> Kind) {
    forall i :: 0 <= i < |vs| ==> Lexed(vs[i], kindOf)
  }

  predicate LexedSets(sets: seq<seq<Ast>>, kindOf: Text -> Kind) {
    forall i :: 0 <= i < |sets| ==> LexedList(sets[i], kindOf)
  }

  predicate LexedNames(cols: seq<Text>, kindOf: Text -> Kind) {
    forall i :: 0 <= i < |cols| ==> kindOf(cols[i]) == KName
  }

  /** First value on top. */
  function Pile(items: seq<Item>): (st: Stack)
    ensures |st| == |items|
  {
    if items == [] then [] else Pile(items[1..]) + [items[0]]
  }

  function PileSets(sets: seq<seq<Item>>): Stack {
    if sets == [] then [] else PileSets(sets[1..]) + Pile(sets[0]) + [Count(|sets[0]|)]
  }

  function On(st: Stack, pile: Option<Stack>): Option<Stack> {
    if pile.None? then None else Some(st + pile.value)
  }

  function PileOf(items: Option<seq<Item>>): Option<Stack> {
    if items.None? then None else Some(Pile(items.value))
  }

  function PileOfSets(sets: Option<seq<seq<Item>>>): Option<Stack> {
    if sets.None? then None else Some(PileSets(sets.value))
  }

  lemma LexedTail(vs: seq<Ast>, kindOf: Text -> Kind)
    requires vs != [] && LexedList(vs, kindOf)
    ensures Lexed(vs[0], kindOf) && LexedList(vs[1..], kindOf)
  {
    assert forall i :: 0 <= i < |vs| - 1 ==> vs[1..][i] == vs[i + 1];
  }

  lemma {:induction false} ValuesTable(vs: seq<Ast>, data: seq<Datum>, kindOf: Text -> Kind)
    requires Table(data, kindOf) && LexedList(vs, kindOf)
    ensures Table(EmitValues(vs, data).data, kindOf) && data <= EmitValues(vs, data).data
    decreases |vs|
  {
    if vs != [] {
      LexedTail(vs, kindOf);
      EmitTable(vs[0], data, kindOf);
      ValuesTable(vs[1..], Emit(vs[0], data).data, kindOf);
    }
  }

  /** A list of values ends up with its first value on top. */
  lemma {:induction false} RunValues(vs: seq<Ast>, data: seq<Datum>, whole: seq<Datum>, kindOf: Text -> Kind, st: Stack)
    requires Table(data, kindOf) && LexedList(vs, kindOf)
    requires EmitValues(vs, data).data <= whole && Short16(whole)
    ensures Run(EmitValues(vs, data).code, whole, st) == On(st, PileOf(TreesOf(vs)))
    decreases |vs|
  {
    if vs == [] {
      RunNothing(whole, st);
    } else {
      LexedTail(vs, kindOf);
      EmitTable(vs[0], data, kindOf);
      var m := Emit(vs[0], data);
      ValuesTable(vs[1..], m.data, kindOf);
      RunValues(vs[1..], m.data, whole, kindOf, st);
      var below := On(st, PileOf(TreesOf(vs[1..])));
      if below.Some? {
        CompilerCorrect(vs[0], data, whole, kindOf, below.value);
      }
      OneMore(vs, m.code, EmitValues(vs[1..], m.data).code, whole, st, below);
    }
  }

  lemma RunNothing(whole: seq<Datum>, st: Stack)
    requires Short16(whole)
    ensures Run([], whole, st) == Some(st + [])
  {
    assert Reverse([]) == [];
    assert st + [] == st;
  }

  lemma OneMore(vs: seq<Ast>, m: seq<Instr>, k: seq<Instr>, whole: seq<Datum>, st: Stack, below: Option<Stack>)
    requires vs != [] && Short16(whole)
    requires below == On(st, PileOf(TreesOf(vs[1..]))) && Run(k, whole, st) == below
    requires below.Some? ==> Run(m, whole, below.value) == Pushed(below.value, TreeOf(vs[0]))
    ensures Run(m + k, whole, st) == On(st, PileOf(TreesOf(vs)))
  {
    RunAppend(m, k, whole, st);
    PileNext(vs, st);
  }

  lemma PileNext(vs: seq<Ast>, st: Stack)
    requires vs != []
    ensures On(st, PileOf(TreesOf(vs)))
         == (var below := On(st, PileOf(TreesOf(vs[1..])));
             if below.None? || TreeOf(vs[0]).None? then None else Some(below.value + [TreeOf(vs[0]).value]))
  {
    if TreesOf(vs).Some? {
      var items := TreesOf(vs).value;
      assert items[0] == TreeOf(vs[0]).value && items[1..] == TreesOf(vs[1..]).value;
      assert st + Pile(items) == st + Pile(items[1..]) + [items[0]];
    }
  }

  lemma {:induction false} SetsTable(sets: seq<seq<Ast>>, data: seq<Datum>, kindOf: Text -> Kind)
    requires Table(data, kindOf) && LexedSets(sets, kindOf)
    ensures Table(EmitSets(sets, data).data, kindOf) && data <= EmitSets(sets, data).data
    decreases |sets|
  {
    if sets != [] {
      assert forall i :: 0 <= i < |sets| - 1 ==> sets[1..][i] == sets[i + 1];
      ValuesTable(sets[0], data, kindOf);
      SetsTable(sets[1..], EmitValues(sets[0], data).data, kindOf);
    }
  }

  /** The sets end up with the first one on top, each under its length. */
  lemma {:induction false} RunSets(sets: seq<seq<Ast>>, data: seq<Datum>, whole: seq<Datum>, kindOf: Text -> Kind, st: Stack)
    requires Table(data, kindOf) && LexedSets(sets, kindOf)
    requires EmitSets(sets, data).data <= whole && Short16(whole)
    ensures Run(EmitSets(sets, data).code, whole, st) == On(st, PileOfSets(TreesOfSets(sets)))
    decreases |sets|
  {
    if sets == [] {
      RunNothing(whole, st);
    } else {
      assert forall i :: 0 <= i < |sets| - 1 ==> sets[1..][i] == sets[i + 1];
      var m := EmitValues(sets[0], data);
      ValuesTable(sets[0], data, kindOf);
      SetsTable(sets[1..], m.data, kindOf);
      RunSets(sets[1..], m.data, whole, kindOf, st);
      var below := On(st, PileOfSets(TreesOfSets(sets[1..])));
      if below.Some? {
        RunValues(sets[0], data, whole, kindOf, below.value);
      }
      OneMoreSet(sets, m.code, EmitSets(sets[1..], m.data).code, whole, st, below);
    }
  }

  lemma RunCount(n: int, code: seq<Instr>, whole: seq<Datum>, st: Stack)
    requires Short16(whole)
    ensures Run([Push(n)] + code, whole, st)
         == (var s := Run(code, whole, st); if s.None? then None else Some(s.value + [Count(n)]))
  {
    RunAppend([Push(n)], code, whole, st);
    var s := Run(code, whole, st);
    if s.Some? { RunOne(Push(n), whole, s.value); }
  }

  lemma OneMoreSet(sets: seq<seq<Ast>>, m: seq<Instr>, k: seq<Instr>, whole: seq<Datum>, st: Stack, below: Option<Stack>)
    requires sets != [] && Short16(whole)
    requires below == On(st, PileOfSets(TreesOfSets(sets[1..]))) && Run(k, whole, st) == below
    requires below.Some? ==> Run(m, whole, below.value) == On(below.value, PileOf(TreesOf(sets[0])))
    ensures Run([Push(|sets[0]|)] + m + k, whole, st) == On(st, PileOfSets(TreesOfSets(sets)))
  {
    RunAppend([Push(|sets[0]|)] + m, k, whole, st);
    if below.Some? { RunCount(|sets[0]|, m, whole, below.value); }
    if TreesOfSets(sets).Some? { SetOnTop(sets, st); }
  }

  lemma SetOnTop(sets: seq<seq<Ast>>, st: Stack)
    requires sets != [] && TreesOfSets(sets).Some?
    ensures st + PileSets(TreesOfSets(sets).value)
         == st + PileSets(TreesOfSets(sets[1..]).value) + Pile(TreesOf(sets[0]).value) + [Count(|sets[0]|)]
  {
    var items := TreesOfSets(sets).value;
    var one, rest := TreesOf(sets[0]).value, TreesOfSets(sets[1..]).value;
    assert items == [one] + rest;
    assert items[0] == one && items[1..] == rest;
    assert PileSets(items) == PileSets(rest) + Pile(one) + [Count(|one|)];
    Regrouped(st, PileSets(rest), Pile(one), [Count(|one|)]);
  }

  lemma Regrouped(a: Stack, b: Stack, c: Stack, d: Stack)
    ensures a + (b + c + d) == a + b + c + d
  {
  }

  // -------------------------------------------------------------- the names

  /** `offs` holds offsets of the names, the first one last. */
  ghost predicate NamesOn(offs: Stack, cols: seq<Text>, b: seq<Byte>) {
    |offs| == |cols|
    && forall i :: 0 <= i < |cols| ==> TextAt(offs[|cols| - 1 - i], b) == Some(Unquote(cols[i]))
  }

  lemma {:induction false} NamesTable(cols: seq<Text>, data: seq<Datum>, kindOf: Text -> Kind)
    requires Table(data, kindOf) && LexedNames(cols, kindOf)
    ensures Table(EmitNames(cols, data).data, kindOf) && data <= EmitNames(cols, data).data
    decreases |cols|
  {
    if cols != [] {
      assert forall i :: 0 <= i < |cols| - 1 ==> cols[1..][i] == cols[i + 1];
      InternTable(data, Datum(KName, cols[0]), kindOf);
      NamesTable(cols[1..], Intern(data, Datum(KName, cols[0])), kindOf);
    }
  }

  lemma {:induction false} RunNames(cols: seq<Text>, data: seq<Datum>, whole: seq<Datum>, kindOf: Text -> Kind, st: Stack)
      returns (offs: Stack)
    requires Table(data, kindOf) && LexedNames(cols, kindOf)
    requires EmitNames(cols, data).data <= whole && Short16(whole)
    ensures Run(EmitNames(cols, data).code, whole, st) == Some(st + offs) && NamesOn(offs, cols, DataBytes(whole))
    decreases |cols|
  {
    if cols == [] {
      RunNothing(whole, st);
      offs := [];
    } else {
      assert forall i :: 0 <= i < |cols| - 1 ==> cols[1..][i] == cols[i + 1];
      var d, at := Intern(data, Datum(KName, cols[0])), FindData(data, cols[0]);
      InternTable(data, Datum(KName, cols[0]), kindOf);
      NamesTable(cols[1..], d, kindOf);
      var below := RunNames(cols[1..], d, whole, kindOf, st);
      offs := below + [Offset(OffsetOf(whole, at))];
      NamePushed(EmitNames(cols[1..], d).code, at, whole, st, below);
      LinkedEntry(whole, at);
      MoreNames(below, cols, OffsetOf(whole, at), DataBytes(whole), whole[at]);
    }
  }

  lemma NamePushed(code: seq<Instr>, at: nat, whole: seq<Datum>, st: Stack, below: Stack)
    requires Short16(whole) && at < |whole| && Run(code, whole, st) == Some(st + below)
    ensures Run([PushO(at)] + code, whole, st) == Some(st + (below + [Offset(OffsetOf(whole, at))]))
  {
    RunAppend([PushO(at)], code, whole, st);
    RunOne(PushO(at), whole, st + below);
    var x := [Offset(OffsetOf(whole, at))];
    assert st + (below + x) == st + below + x;
  }

  lemma MoreNames(below: Stack, cols: seq<Text>, at: nat, b: seq<Byte>, d: Datum)
    requires cols != [] && NamesOn(below, cols[1..], b) && EntryAt(b, at, d) && d.raw == cols[0]
    ensures NamesOn(below + [Offset(at)], cols, b)
  {
    var offs, rest := below + [Offset(at)], cols[1..];
    forall i | 0 <= i < |cols| ensures TextAt(offs[|cols| - 1 - i], b) == Some(Unquote(cols[i])) {
      if i > 0 { assert cols[i] == rest[i - 1]; }
    }
  }

  // --------------------------------------------------------------- delivery

  function Names(cols: seq<Text>): (r: seq<Text>)
    ensures |r| == |cols|
  {
    if cols == [] then [] else [Unquote(cols[0])] + Names(cols[1..])
  }

  predicate AllIn(cols: seq<Text>, schema: seq<Text>) {
    forall i :: 0 <= i < |cols| ==> Unquote(cols[i]) in schema
  }

  /** What a list of items holds. */
  function Held(items: seq<Item>, fixed: Text -> Text): (r: seq<Text>)
    ensures |r| == |items|
  {
    if items == [] then [] else [ValueText(items[0], fixed)] + Held(items[1..], fixed)
  }

  function HeldSets(sets: seq<seq<Item>>, fixed: Text -> Text): (r: seq<seq<Text>>)
    ensures |r| == |sets|
  {
    if sets == [] then [] else [Held(sets[0], fixed)] + HeldSets(sets[1..], fixed)
  }

  /** The sets before the first one of another length. */
  function FullRows(sets: seq<seq<Text>>, width: nat): seq<seq<Text>> {
    if sets == [] || |sets[0]| != width then [] else [sets[0]] + FullRows(sets[1..], width)
  }

  predicate AllFull(sets: seq<seq<Text>>, width: nat) {
    forall i :: 0 <= i < |sets| ==> |sets[i]| == width
  }

  lemma {:induction false} NamesTaken(st: Stack, offs: Stack, cols: seq<Text>, b: seq<Byte>, schema: seq<Text>, acc: seq<Text>)
    requires NamesOn(offs, cols, b)
    ensures TakeNames(st + offs, |cols|, b, schema, acc)
         == if AllIn(cols, schema) then Taken(acc + Names(cols), st) else TooFew
    decreases |cols|
  {
    if cols == [] {
      assert st + offs == st && acc + Names(cols) == acc;
    } else {
      NamesOff(st, offs, cols, b);
      NamesTaken(st, offs[..|cols| - 1], cols[1..], b, schema, acc + [Unquote(cols[0])]);
      NamesStep(st, offs, cols, b, schema, acc);
    }
  }

  lemma NamesStep(st: Stack, offs: Stack, cols: seq<Text>, b: seq<Byte>, schema: seq<Text>, acc: seq<Text>)
    requires cols != [] && NamesOn(offs, cols, b)
    requires TakeNames(st + offs[..|cols| - 1], |cols| - 1, b, schema, acc + [Unquote(cols[0])])
          == if AllIn(cols[1..], schema) then Taken(acc + [Unquote(cols[0])] + Names(cols[1..]), st) else TooFew
    ensures TakeNames(st + offs, |cols|, b, schema, acc)
         == if AllIn(cols, schema) then Taken(acc + Names(cols), st) else TooFew
  {
    NamesOff(st, offs, cols, b);
    var whole, first := st + offs, Unquote(cols[0]);
    assert whole[..|whole| - 1] == st + offs[..|cols| - 1];
    TakeOneName(whole, |cols|, b, schema, acc, first);
    AllInTail(cols, schema);
    NamesBehind(acc, cols);
  }

  lemma NamesBehind(acc: seq<Text>, cols: seq<Text>)
    requires cols != []
    ensures acc + [Unquote(cols[0])] + Names(cols[1..]) == acc + Names(cols)
  {
  }

  lemma TakeOneName(st: Stack, n: nat, b: seq<Byte>, schema: seq<Text>, acc: seq<Text>, first: Text)
    requires n > 0 && st != [] && TextAt(st[|st| - 1], b) == Some(first)
    ensures TakeNames(st, n, b, schema, acc)
         == if first in schema then TakeNames(st[..|st| - 1], n - 1, b, schema, acc + [first]) else TooFew
  {
  }

  lemma NamesOff(st: Stack, offs: Stack, cols: seq<Text>, b: seq<Byte>)
    requires cols != [] && NamesOn(offs, cols, b)
    ensures var whole, n := st + offs, |cols|;
            TextAt(whole[|whole| - 1], b) == Some(Unquote(cols[0])) && whole[..|whole| - 1] == st + offs[..n - 1]
            && NamesOn(offs[..n - 1], cols[1..], b)
  {
    var n, rest := |cols|, cols[1..];
    assert TextAt(offs[n - 1 - 0], b) == Some(Unquote(cols[0]));
    forall i | 0 <= i < n - 1 ensures TextAt(offs[..n - 1][n - 2 - i], b) == Some(Unquote(rest[i])) {
      assert rest[i] == cols[i + 1] && offs[..n - 1][n - 2 - i] == offs[n - 1 - (i + 1)];
    }
  }

  lemma AllInTail(cols: seq<Text>, schema: seq<Text>)
    requires cols != []
    ensures AllIn(cols, schema) <==> Unquote(cols[0]) in schema && AllIn(cols[1..], schema)
  {
    var rest := cols[1..];
    assert forall i :: 0 <= i < |rest| ==> rest[i] == cols[i + 1];
    if Unquote(cols[0]) in schema && AllIn(rest, schema) {
      forall i | 0 <= i < |cols| ensures Unquote(cols[i]) in schema {
        if i > 0 { assert cols[i] == rest[i - 1]; }
      }
    }
  }

  lemma {:induction false} ValuesTaken(st: Stack, items: seq<Item>, fixed: Text -> Text, acc: seq<Text>)
    ensures TakeValues(st + Pile(items), |items|, fixed, acc) == Taken(acc + Held(items, fixed), st)
    decreases |items|
  {
    if items == [] {
      assert st + Pile(items) == st && acc + Held(items, fixed) == acc;
    } else {
      var whole, first := st + Pile(items), ValueText(items[0], fixed);
      assert whole[|whole| - 1] == items[0] && whole[..|whole| - 1] == st + Pile(items[1..]);
      ValuesTaken(st, items[1..], fixed, acc + [first]);
      assert acc + [first] + Held(items[1..], fixed) == acc + Held(items, fixed);
    }
  }

  lemma {:induction false} SetsTaken(st: Stack, sets: seq<seq<Item>>, columns: seq<Text>, fixed: Text -> Text, acc: seq<seq<Text>>)
    ensures TakeSets(st + PileSets(sets), |sets|, columns, fixed, acc)
         == Delivery(AllFull(HeldSets(sets, fixed), |columns|), columns, acc + FullRows(HeldSets(sets, fixed), |columns|))
    decreases |sets|
  {
    var w, held := |columns|, HeldSets(sets, fixed);
    if sets == [] {
      assert acc + FullRows(held, w) == acc;
    } else {
      SetOnTake(st, sets, columns, fixed, acc);
      if |sets[0]| != w {
        assert acc + FullRows(held, w) == acc;
        assert |held[0]| != w;
      } else {
        SetsTaken(st, sets[1..], columns, fixed, acc + [held[0]]);
        assert held[1..] == HeldSets(sets[1..], fixed);
        FullTail(held, w);
        RowsNext(acc, held, w);
      }
    }
  }

  lemma RowsNext(acc: seq<seq<Text>>, held: seq<seq<Text>>, w: nat)
    requires held != [] && |held[0]| == w
    ensures acc + [held[0]] + FullRows(held[1..], w) == acc + FullRows(held, w)
  {
  }

  /** One set taken off. */
  lemma SetOnTake(st: Stack, sets: seq<seq<Item>>, columns: seq<Text>, fixed: Text -> Text, acc: seq<seq<Text>>)
    requires sets != []
    ensures TakeSets(st + PileSets(sets), |sets|, columns, fixed, acc)
         == if |sets[0]| != |columns| then Delivery(false, columns, acc)
            else TakeSets(st + PileSets(sets[1..]), |sets| - 1, columns, fixed, acc + [Held(sets[0], fixed)])
  {
    var one, below := sets[0], st + PileSets(sets[1..]);
    assert st + PileSets(sets) == below + Pile(one) + [Count(|one|)] by {
      Regrouped(st, PileSets(sets[1..]), Pile(one), [Count(|one|)]);
    }
    TopSet(below, one, |sets|, columns, fixed, acc);
  }

  lemma TopSet(below: Stack, one: seq<Item>, n: int, columns: seq<Text>, fixed: Text -> Text, acc: seq<seq<Text>>)
    requires n > 0
    ensures TakeSets(below + Pile(one) + [Count(|one|)], n, columns, fixed, acc)
         == if |one| != |columns| then Delivery(false, columns, acc)
            else TakeSets(below, n - 1, columns, fixed, acc + [Held(one, fixed)])
  {
    var whole := below + Pile(one) + [Count(|one|)];
    assert whole[|whole| - 1] == Count(|one|) && whole[..|whole| - 1] == below + Pile(one);
    if |one| == |columns| {
      ValuesTaken(below, one, fixed, []);
      assert [] + Held(one, fixed) == Held(one, fixed);
    }
  }

  lemma FullTail(sets: seq<seq<Text>>, w: nat)
    requires sets != [] && |sets[0]| == w
    ensures AllFull(sets, w) <==> AllFull(sets[1..], w)
  {
    var rest := sets[1..];
    assert forall i :: 0 <= i < |rest| ==> rest[i] == sets[i + 1];
    if AllFull(rest, w) {
      assert forall i :: 0 < i < |sets| ==> sets[i] == rest[i - 1];
    }
  }

  /** The columns meant by a statement. */
  function Meant(cols: seq<Text>, schema: seq<Text>): seq<Text> {
    if cols == [] then schema else Names(cols)
  }

  lemma StackDelivered(st: Stack, sets: seq<seq<Item>>, offs: Stack, cols: seq<Text>, b: seq<Byte>, schema: seq<Text>,
                       fixed: Text -> Text)
    requires NamesOn(offs, cols, b)
    ensures Deliver(st + PileSets(sets) + [Count(|sets|)] + offs + [Count(|cols|)], b, schema, fixed)
         == Expected(cols, HeldSets(sets, fixed), schema)
  {
    var s1 := st + PileSets(sets);
    AllNamesTaken(s1 + [Count(|sets|)], offs, cols, b, schema);
    DeliverFrom(s1, |sets|, s1 + [Count(|sets|)] + offs, cols, b, schema, fixed);
    AllSetsTaken(st, sets, Meant(cols, schema), fixed);
  }

  lemma AllNamesTaken(st: Stack, offs: Stack, cols: seq<Text>, b: seq<Byte>, schema: seq<Text>)
    requires NamesOn(offs, cols, b)
    ensures TakeNames(st + offs, |cols|, b, schema, []) == if AllIn(cols, schema) then Taken(Names(cols), st) else TooFew
  {
    NamesTaken(st, offs, cols, b, schema, []);
    assert [] + Names(cols) == Names(cols);
  }

  lemma AllSetsTaken(st: Stack, sets: seq<seq<Item>>, columns: seq<Text>, fixed: Text -> Text)
    ensures TakeSets(st + PileSets(sets), |sets|, columns, fixed, [])
         == Delivery(AllFull(HeldSets(sets, fixed), |columns|), columns, FullRows(HeldSets(sets, fixed), |columns|))
  {
    SetsTaken(st, sets, columns, fixed, []);
    var rows := FullRows(HeldSets(sets, fixed), |columns|);
    assert [] + rows == rows;
  }

  /** What the machine receives of sets of texts: all or, behind a set of another length, part of them. */
  function Expected(cols: seq<Text>, sets: seq<seq<Text>>, schema: seq<Text>): Delivery {
    if AllIn(cols, schema) then
      var w := Meant(cols, schema);
      Delivery(AllFull(sets, |w|), w, FullRows(sets, |w|))
    else Delivery(false, [], [])
  }

  lemma DeliverFrom(s1: Stack, m: nat, s3: Stack, cols: seq<Text>, b: seq<Byte>, schema: seq<Text>, fixed: Text -> Text)
    requires TakeNames(s3, |cols|, b, schema, [])
          == if AllIn(cols, schema) then Taken(Names(cols), s1 + [Count(m)]) else TooFew
    ensures Deliver(s3 + [Count(|cols|)], b, schema, fixed)
         == if AllIn(cols, schema) then TakeSets(s1, m, Meant(cols, schema), fixed, []) else Delivery(false, [], [])
  {
    var s4, s2 := s3 + [Count(|cols|)], s1 + [Count(m)];
    assert s4[..|s4| - 1] == s3 && s2[..|s2| - 1] == s1;
  }

  /**
   INSERT end to end: the machine receives exactly the names of the statement and the texts that
   its values hold, in source order, up to the first set whose length is not that of the columns.
   */
  lemma InsertDelivers(ins: Insertion, data: seq<Datum>, whole: seq<Datum>, kindOf: Text -> Kind, st: Stack,
                       schema: seq<Text>, fixed: Text -> Text)
    requires Table(data, kindOf) && LexedNames(ins.cols, kindOf) && LexedSets(ins.sets, kindOf)
    requires EmitBody(ins, data).data <= whole && Short16(whole)
    ensures Run(EmitBody(ins, data).code, whole, st).Some? <==> TreesOfSets(ins.sets).Some?
    ensures TreesOfSets(ins.sets).Some? ==> (
              Deliver(Run(EmitBody(ins, data).code, whole, st).value, DataBytes(whole), schema, fixed)
              == Expected(ins.cols, HeldSets(TreesOfSets(ins.sets).value, fixed), schema))
  {
    var c := EmitNames(ins.cols, data);
    var s := EmitSets(ins.sets, c.data);
    NamesTable(ins.cols, data, kindOf);
    SetsTable(ins.sets, c.data, kindOf);
    RunSets(ins.sets, c.data, whole, kindOf, st);
    RunCount(|ins.sets|, s.code, whole, st);
    RunAppend([Push(|ins.cols|)] + c.code, [Push(|ins.sets|)] + s.code, whole, st);
    if TreesOfSets(ins.sets).Some? {
      var sets := TreesOfSets(ins.sets).value;
      var s2 := st + PileSets(sets) + [Count(|sets|)];
      var offs := RunNames(ins.cols, data, whole, kindOf, s2);
      RunCount(|ins.cols|, c.code, whole, s2);
      StackDelivered(st, sets, offs, ins.cols, DataBytes(whole), schema, fixed);
    }
  }

  // --------------------------------------------------- the statement's texts

  /** The sets as they are written. */
  function WrittenList(vs: seq<Ast>, fixed: Text -> Text): (r: seq<Text>)
    ensures |r| == |vs|
  {
    if vs == [] then [] else [Written(vs[0], fixed)] + WrittenList(vs[1..], fixed)
  }

  function WrittenSets(sets: seq<seq<Ast>>, fixed: Text -> Text): (r: seq<seq<Text>>)
    ensures |r| == |sets|
  {
    if sets == [] then [] else [WrittenList(sets[0], fixed)] + WrittenSets(sets[1..], fixed)
  }

  predicate Constants(vs: seq<Ast>) {
    forall i :: 0 <= i < |vs| ==> IsConstant(vs[i])
  }

  /** All values of the sets that are stored are constants. */
  predicate ConstantRows(sets: seq<seq<Ast>>, width: nat) {
    sets == [] || |sets[0]| != width || (Constants(sets[0]) && ConstantRows(sets[1..], width))
  }

  predicate NamedList(vs: seq<Ast>) {
    forall i :: 0 <= i < |vs| ==> Named(vs[i])
  }

  predicate NamedSets(sets: seq<seq<Ast>>) {
    forall i :: 0 <= i < |sets| ==> NamedList(sets[i])
  }

  /** A set is stored as it is written exactly if all its values are constants. */
  lemma {:induction false} ListWrittenIff(vs: seq<Ast>, fixed: Text -> Text)
    requires TreesOf(vs).Some? && NamedList(vs)
    ensures Held(TreesOf(vs).value, fixed) == WrittenList(vs, fixed) <==> Constants(vs)
    decreases |vs|
  {
    if vs != [] {
      var rest, items := vs[1..], TreesOf(vs).value;
      assert forall i :: 0 <= i < |rest| ==> rest[i] == vs[i + 1];
      TreeIffSigns(vs[0]);
      HeldIffConstant(vs[0], fixed);
      ListWrittenIff(rest, fixed);
      assert items[0] == TreeOf(vs[0]).value && items[1..] == TreesOf(rest).value;
      HeadAndTail(Held(items, fixed), WrittenList(vs, fixed));
      assert Constants(vs) <==> IsConstant(vs[0]) && Constants(rest) by {
        if IsConstant(vs[0]) && Constants(rest) {
          forall i | 0 <= i < |vs| ensures IsConstant(vs[i]) { if i > 0 { assert vs[i] == rest[i - 1]; } }
        }
      }
    }
  }

  lemma HeadAndTail<T>(a: seq<T>, b: seq<T>)
    requires a != [] && b != []
    ensures a == b <==> a[0] == b[0] && a[1..] == b[1..]
  {
    assert a == [a[0]] + a[1..] && b == [b[0]] + b[1..];
  }

  lemma {:induction false} RowsWrittenIff(sets: seq<seq<Ast>>, width: nat, fixed: Text -> Text)
    requires TreesOfSets(sets).Some? && NamedSets(sets)
    ensures FullRows(HeldSets(TreesOfSets(sets).value, fixed), width) == FullRows(WrittenSets(sets, fixed), width)
       <==> ConstantRows(sets, width)
    ensures AllFull(HeldSets(TreesOfSets(sets).value, fixed), width) <==> AllFull(WrittenSets(sets, fixed), width)
    decreases |sets|
  {
    if sets != [] {
      var rest, items := sets[1..], TreesOfSets(sets).value;
      var held, written := HeldSets(items, fixed), WrittenSets(sets, fixed);
      assert forall i :: 0 <= i < |rest| ==> rest[i] == sets[i + 1];
      assert items[0] == TreesOf(sets[0]).value && items[1..] == TreesOfSets(rest).value;
      assert held[1..] == HeldSets(items[1..], fixed) && written[1..] == WrittenSets(rest, fixed);
      if |sets[0]| != width {
        assert |held[0]| != width && |written[0]| != width;
      } else {
        ListWrittenIff(sets[0], fixed);
        RowsWrittenIff(rest, width, fixed);
        FullTail(held, width);
        FullTail(written, width);
        HeadAndTail(FullRows(held, width), FullRows(written, width));
      }
    }
  }

  /** What is stored is what is written exactly if every value in a stored set is a constant. */
  lemma InsertWrittenIff(ins: Insertion, data: seq<Datum>, whole: seq<Datum>, kindOf: Text -> Kind, st: Stack,
                         schema: seq<Text>, fixed: Text -> Text)
    requires Table(data, kindOf) && LexedNames(ins.cols, kindOf) && LexedSets(ins.sets, kindOf)
    requires EmitBody(ins, data).data <= whole && Short16(whole)
    requires Run(EmitBody(ins, data).code, whole, st).Some? && AllIn(ins.cols, schema) && NamedSets(ins.sets)
    ensures Deliver(Run(EmitBody(ins, data).code, whole, st).value, DataBytes(whole), schema, fixed)
         == Expected(ins.cols, WrittenSets(ins.sets, fixed), schema)
       <==> ConstantRows(ins.sets, |Meant(ins.cols, schema)|)
  {
    InsertDelivers(ins, data, whole, kindOf, st, schema, fixed);
    RowsWrittenIff(ins.sets, |Meant(ins.cols, schema)|, fixed);
  }

  const SUM: Ast := Bin(Add, Literal(KInt, [49]), Literal(KInt, [50]))

  function One(a: Ast): Insertion { Insertion([], [[a]]) }

  /** VALUES (1 + 2) stores the empty text, which is null. */
  lemma SumStoresNothing(data: seq<Datum>, whole: seq<Datum>, kindOf: Text -> Kind, st: Stack, column: Text, fixed: Text -> Text)
    requires Table(data, kindOf) && kindOf([49]) == KInt && kindOf([50]) == KInt
    requires EmitBody(One(SUM), data).data <= whole && Short16(whole)
    ensures Run(EmitBody(One(SUM), data).code, whole, st).Some?
    ensures Deliver(Run(EmitBody(One(SUM), data).code, whole, st).value, DataBytes(whole), [column], fixed)
         == Delivery(true, [column], [[[]]])
    ensures Written(SUM, fixed) == [49, 43, 50]
  {
    assert ValueText(TreeOf(SUM).value, fixed) == [];
    assert Written(SUM, fixed) == [49, 43, 50];
    OneStores(SUM, data, whole, kindOf, st, column, fixed);
  }

  /** One value for one column. */
  lemma OneStores(a: Ast, data: seq<Datum>, whole: seq<Datum>, kindOf: Text -> Kind, st: Stack, column: Text, fixed: Text -> Text)
    requires Table(data, kindOf) && Lexed(a, kindOf) && TreeOf(a).Some?
    requires EmitBody(One(a), data).data <= whole && Short16(whole)
    ensures Run(EmitBody(One(a), data).code, whole, st).Some?
    ensures Deliver(Run(EmitBody(One(a), data).code, whole, st).value, DataBytes(whole), [column], fixed)
         == Delivery(true, [column], [[ValueText(TreeOf(a).value, fixed)]])
  {
    var ins := One(a);
    OneSet(a, fixed);
    assert LexedSets(ins.sets, kindOf) by { assert LexedList([a], kindOf); }
    InsertDelivers(ins, data, whole, kindOf, st, [column], fixed);
    OneRow(ValueText(TreeOf(a).value, fixed), |[column]|);
  }

  lemma OneSet(a: Ast, fixed: Text -> Text)
    requires TreeOf(a).Some?
    ensures TreesOfSets([[a]]) == Some([[TreeOf(a).value]])
    ensures HeldSets([[TreeOf(a).value]], fixed) == [[ValueText(TreeOf(a).value, fixed)]]
  {
    assert [a][1..] == [] && [[a]][1..] == [];
    assert TreesOf([]) == Some([]) && TreesOfSets([]) == Some([]);
    assert TreesOf([a]).value == [TreeOf(a).value];
    assert TreesOfSets([[a]]).value == [TreesOf([a]).value];
    var t := TreeOf(a).value;
    assert [t][1..] == [] && [[t]][1..] == [];
    assert Held([t], fixed) == [ValueText(t, fixed)];
  }

  lemma OneRow(t: Text, width: nat)
    requires width == 1
    ensures FullRows([[t]], width) == [[t]] && AllFull([[t]], width)
  {
    assert [[t]][1..] == [];
  }
}

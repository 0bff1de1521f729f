/** SELECT as the machine executes it: nested loops over column items that are filled in place. */
module QueryRun {
  import opened Prelude
  import opened Texts
  import opened SqlCode
  import opened QueryExpr
  import opened QueryItem
  import opened QueryPlan
  import opened QueryOrder
  import opened QueryFlip

  // ------------------------------------------------- items and their values

  /** Two expressions that differ only in the values that their columns hold. */
  predicate Alike(e: Expr, f: Expr) { SetNull(e) == SetNull(f) }

  lemma {:induction false} FilledRows(e: Expr, f: Expr, p: Row, q: Row)
    requires Alike(e, f) && Over(f, {p.tbl, q.tbl})
    ensures SetRows(e, p, q) == Look(f, Values(Both(p, q))) && Alike(SetRows(e, p, q), f)
    decreases e
  {
    if e.Op? {
      FilledRows(e.l, f.l, p, q);
      FilledRows(e.r, f.r, p, q);
    }
  }

  lemma {:induction false} FilledRow(e: Expr, p: Row)
    ensures SetRow(SetNull(e), p) == Look(e, Values(Only(p)))
    ensures Alike(SetNull(e), e) && Alike(SetRow(e, p), e)
  {
    if e.Op? {
      FilledRow(e.l, p);
      FilledRow(e.r, p);
    }
  }

  /** Filling the left row once more changes nothing after the pair has been filled. */
  lemma {:induction false} FilledAgain(f: Expr, p: Row, x: Pairing)
    requires x.p == p
    ensures SetRow(Look(f, Values(x)), p) == Look(f, Values(x))
  {
    if f.Op? {
      FilledAgain(f.l, p, x);
      FilledAgain(f.r, p, x);
    }
  }

  lemma {:induction false} FilledOne(e: Expr, f: Expr, p: Row)
    requires Alike(e, f) && Over(f, {p.tbl})
    ensures SetRow(e, p) == Look(f, Values(Only(p))) && Alike(SetRow(e, p), f)
    decreases e
  {
    if e.Op? {
      FilledOne(e.l, f.l, p);
      FilledOne(e.r, f.r, p);
    }
  }

  /** In items that hold nulls, the left row alone is what is left of it. */
  lemma {:induction false} FilledNull(e: Expr, f: Expr, p: Row)
    requires e == SetNull(f)
    ensures SetRow(e, p) == Look(f, Values(Only(p)))
  {
    FilledRow(f, p);
  }

  predicate AllAlike(es: seq<Expr>, fs: seq<Expr>) {
    |es| == |fs| && forall i :: 0 <= i < |es| ==> Alike(es[i], fs[i])
  }

  predicate AllOver(es: seq<Expr>, tables: set<nat>) {
    forall i :: 0 <= i < |es| ==> Over(es[i], tables)
  }

  predicate RowsOf(rows: seq<Row>, tbl: nat) {
    forall i :: 0 <= i < |rows| ==> rows[i].tbl == tbl
  }

  // ---------------------------------------------------------- failing early

  lemma {:induction false} RoundsFail(plan: Plan, p: Row, inner: seq<Row>, i: nat)
    requires plan.k <= |plan.es| && i <= |inner| && Rounds(plan, p, inner[..i]).None?
    ensures Rounds(plan, p, inner).None?
    decreases |inner| - i
  {
    if i == |inner| {
      assert inner[..i] == inner;
    } else {
      assert inner[..i + 1][..i] == inner[..i];
      RoundsFail(plan, p, inner, i + 1);
    }
  }

  lemma NextRound(plan: Plan, p: Row, inner: seq<Row>, i: nat)
    requires plan.k <= |plan.es| && i < |inner|
    ensures inner[..i + 1] == inner[..i] + [inner[i]]
    ensures Rounds(plan, p, inner[..i + 1]) == Cat(Rounds(plan, p, inner[..i]), Round(plan, Both(p, inner[i])))
  {
    assert inner[..i + 1][..i] == inner[..i];
  }

  lemma {:induction false} LoopsFail(plan: Plan, left: bool, outer: seq<Row>, inner: seq<Row>, i: nat)
    requires plan.k <= |plan.es| && i <= |outer| && Loops(plan, left, outer[..i], inner).None?
    ensures Loops(plan, left, outer, inner).None?
    decreases |outer| - i
  {
    if i == |outer| {
      assert outer[..i] == outer;
    } else {
      assert outer[..i + 1][..i] == outer[..i];
      LoopsFail(plan, left, outer, inner, i + 1);
    }
  }

  lemma EvalNext(n: Numerals, es: seq<Expr>, i: nat)
    requires i < |es|
    ensures EvalAll(n, es[..i + 1]) == Cat(EvalAll(n, es[..i]), Single(PrintedValue(n, es[i])))
  {
    assert es[..i + 1][..i] == es[..i];
  }

  lemma {:induction false} EvalFails(n: Numerals, es: seq<Expr>, i: nat)
    requires i <= |es| && EvalAll(n, es[..i]).None?
    ensures EvalAll(n, es).None?
    decreases |es| - i
  {
    if i == |es| {
      assert es[..i] == es;
    } else {
      assert es[..i + 1][..i] == es[..i];
      EvalFails(n, es, i + 1);
    }
  }

  /** The way of filling that puts the values of `x` into the columns of its tables. */
  predicate Describes(how: Filling, x: Pairing) {
    if x.Both? then how == FromRows(x.p, x.q) else how == FromRow(x.p)
  }

  function TablesOf(x: Pairing): set<nat> {
    if x.Both? then {x.p.tbl, x.q.tbl} else {x.p.tbl}
  }

  lemma FilledAs(e: Expr, f: Expr, how: Filling, x: Pairing)
    requires Alike(e, f) && Describes(how, x) && Over(f, TablesOf(x))
    ensures Filled(e, how) == Look(f, Values(x)) && Alike(Filled(e, how), f)
  {
    if x.Both? { FilledRows(e, f, x.p, x.q); } else { FilledOne(e, f, x.p); }
  }

  /** What compaction leaves: no operator over INT constants alone. */
  predicate Settled(e: Expr) { !(e.Op? && Integral(e)) }

  predicate ListSettled(plan: Plan) {
    forall i {:trigger Settled(plan.es[i])} :: plan.k <= i < |plan.es| ==> Settled(plan.es[i])
  }

  lemma {:induction false} AlikeIntegral(e: Expr, f: Expr)
    requires Alike(e, f)
    ensures Integral(e) == Integral(f) && (e.Op? <==> f.Op?)
    decreases e
  {
    if e.Op? && f.Op? {
      AlikeIntegral(e.l, f.l);
      AlikeIntegral(e.r, f.r);
    }
  }

  lemma CompactedSettled(plan: Plan)
    ensures ListSettled(Compacted(plan))
  {
    forall i | plan.k <= i < |plan.es| ensures Settled(Compacted(plan).es[i]) {
      FoldIntegral(plan.n, plan.es[i]);
    }
  }

  /** The result so far: `m_output` and `m_did_output`. */
  class ResultSet {
    const cols: seq<KeyColumn>
    var didOutput: bool
    var output: seq<Entry>
    ghost var emitted: seq<Emission>

    ghost predicate Valid()
      reads this
    {
      output == Output(cols, emitted)
    }

    constructor (cols: seq<KeyColumn>)
      ensures Valid() && emitted == [] && this.cols == cols
    {
      this.cols, didOutput, output, emitted := cols, false, [], [];
    }

    method Record(em: Emission)
      requires Valid()
      modifies this
      ensures Valid() && didOutput && emitted == old(emitted) + [em]
    {
      didOutput := true;
      output := Insert(output, Entry(KeyOf(cols, em, |output|), em.line));
      emitted := emitted + [em];
      assert emitted[..|emitted| - 1] == old(emitted);
    }

    /** The result has grown by exactly these lines. */
    ghost predicate Progressed(start: seq<Emission>, was: bool, lines: Option<seq<Emission>>)
      reads this
    {
      Valid() && lines.Some? && emitted == start + lines.value && didOutput == (was || lines.value != [])
    }
  }

  /** The items of one statement, and its result. */
  class Query {
    ghost const plan: Plan   // what was asked for
    ghost const tables: set<nat>
    const n: Numerals
    const k: nat
    const on: Node?
    const filter: Node?
    const items: ItemList
    ghost const onNodes: set<object>
    ghost const filterNodes: set<object>
    ghost const itemNodes: set<object>
    const out: ResultSet

    constructor (ghost plan: Plan, ghost tables: set<nat>, n: Numerals, k: nat,
                 on: Node?, filter: Node?, items: ItemList, out: ResultSet)
      requires n == plan.n && k == plan.k <= |plan.es| && ListSettled(plan)
      requires Over(plan.on, tables) && (plan.filter.Some? ==> Over(plan.filter.value, tables)) && AllOver(plan.es, tables)
      requires on != null ==> on.Valid() && on.Tree() == plan.on
      requires (filter != null) == plan.filter.Some?
      requires filter != null ==> filter.Valid() && filter.Tree() == plan.filter.value
      requires items.Valid() && items.Trees() == plan.es
      requires on != null ==> on.repr !! items.repr && (filter != null ==> on.repr !! filter.repr)
      requires filter != null ==> filter.repr !! items.repr
      requires out !in items.repr && (on != null ==> out !in on.repr) && (filter != null ==> out !in filter.repr)
      ensures Valid() && this.plan == plan && this.tables == tables && this.on == on && this.out == out
      ensures onNodes == if on != null then on.repr else {}
      ensures filterNodes == if filter != null then filter.repr else {}
      ensures itemNodes == items.repr
    {
      this.plan, this.tables, this.n, this.k := plan, tables, n, k;
      this.on, this.filter, this.items, this.out := on, filter, items, out;
      onNodes := if on != null then on.repr else {};
      filterNodes := if filter != null then filter.repr else {};
      itemNodes := items.repr;
    }

    /** The items share nothing, and differ from those asked for only in the values they hold. */
    ghost predicate Valid()
      reads onNodes, filterNodes, itemNodes
    {
      && n == plan.n && k == plan.k <= |plan.es| && ListSettled(plan)
      && out !in onNodes && out !in filterNodes && out !in itemNodes
      && onNodes !! filterNodes && onNodes !! itemNodes && filterNodes !! itemNodes
      && OnOk() && FilterOk() && ItemsOk()
    }

    ghost predicate OnOk()
      reads onNodes
    {
      Over(plan.on, tables)
      && (on != null ==> on in onNodes && on.repr == onNodes && on.Valid() && Alike(on.Tree(), plan.on))
    }

    ghost predicate FilterOk()
      reads filterNodes
    {
      (filter != null) == plan.filter.Some?
      && (filter != null ==>
            (filter in filterNodes && filter.repr == filterNodes && filter.Valid()
             && Alike(filter.Tree(), plan.filter.value) && Over(plan.filter.value, tables)))
    }

    ghost predicate ItemsOk()
      reads itemNodes
    {
      items in itemNodes && items.repr == itemNodes && items.Valid() && |items.nodes| == |plan.es|
      && AllOver(plan.es, tables)
      && forall i :: 0 <= i < |plan.es| ==> Alike(items.TreeAt(i), plan.es[i])
    }

    /** The items of the select list hold the values of `x`. */
    ghost predicate Holds(x: Pairing)
      requires ItemsOk()
      reads itemNodes
    {
      forall i :: 0 <= i < |plan.es| ==> items.TreeAt(i) == Look(plan.es[i], Values(x))
    }

    ghost predicate FilterHolds(x: Pairing)
      requires FilterOk()
      reads filterNodes
    {
      filter != null ==> filter.Tree() == Look(plan.filter.value, Values(x))
    }

    /** The value of one item as it is printed. */
    method EvalItem(i: nat) returns (text: Option<Text>)
      requires ItemsOk() && plan.k <= i < |plan.es| && ListSettled(plan)
      ensures text == PrintedValue(n, items.TreeAt(i))
    {
      var node := items.nodes[i];
      assert Settled(plan.es[i]);
      AlikeIntegral(items.TreeAt(i), plan.es[i]);
      var res := node.Execute(n);
      if res.Err? { return None; }
      text := Some(if node.Rounds() then n.shown(res.text) else res.text);
    }

    /** The values of the select list, unless one of them fails. */
    method EvalLine() returns (line: Option<seq<Text>>)
      requires ItemsOk() && k == plan.k <= |plan.es| && ListSettled(plan)
      ensures line == EvalAll(n, items.Trees()[k..])
    {
      ghost var shown := items.Trees()[k..];
      var texts: seq<Text> := [];
      for i := 0 to |items.nodes| - k
        invariant EvalAll(n, shown[..i]) == Some(texts)
      {
        EvalNext(n, shown, i);
        assert shown[i] == items.TreeAt(k + i);
        var text := EvalItem(k + i);
        if text.None? {
          EvalFails(n, shown, i + 1);
          return None;
        }
        texts := texts + [text.value];
      }
      assert shown[..|items.nodes| - k] == shown;
      line := Some(texts);
    }

    /** What the items of ORDER BY hold. */
    method KeyTexts() returns (keys: seq<Text>)
      requires ItemsOk() && k <= |plan.es|
      ensures keys == HeldAll(items.Trees()[..k])
    {
      keys := [];
      for i := 0 to k
        invariant |keys| == i && forall j :: 0 <= j < i ==> keys[j] == Held(items.TreeAt(j))
      {
        var node := items.nodes[i];
        assert node.Tree() == items.TreeAt(i);
        keys := keys + [node.HeldText()];
      }
    }

    /** The line for what the items hold. */
    method MakeLine(ghost x: Pairing) returns (em: Option<Emission>)
      requires Valid() && Holds(x)
      ensures LineAt(plan, x) == if em.None? then None else Some([em.value])
    {
      assert items.Trees() == LookAll(plan.es, Values(x));
      var line := EvalLine();
      if line.None? { return None; }
      var keys := KeyTexts();
      em := Some(Emission(keys, line.value));
    }

    /** `output_expr_list` */
    method OutputExprList(ghost x: Pairing) returns (ok: bool)
      requires Valid() && out.Valid() && Holds(x)
      modifies out
      ensures Valid() && Holds(x) && out.Valid() && (ok ==> out.didOutput)
      ensures ok == LineAt(plan, x).Some?
      ensures out.emitted == old(out.emitted) + if ok then LineAt(plan, x).value else []
    {
      var em := MakeLine(x);
      ok := em.Some?;
      if ok {
        out.Record(em.value);
        Undisturbed(x);
      }
      assert out.emitted + [] == out.emitted;
    }

    /** Putting a line into the result leaves the items alone. */
    twostate lemma Undisturbed(x: Pairing)
      requires old(Valid()) && old(Holds(x))
      requires unchanged(onNodes) && unchanged(filterNodes) && unchanged(itemNodes)
      ensures Valid() && Holds(x)
    {
    }

    /** `exec_join` behind the last table: WHERE if there is one, then output. */
    method ExecWhere(ghost x: Pairing) returns (ok: bool)
      requires Valid() && out.Valid() && Holds(x) && FilterHolds(x)
      modifies out
      ensures Valid() && out.Valid() && Holds(x)
      ensures ok == RowRoundAt(plan, x).Some?
      ensures out.emitted == old(out.emitted) + if ok then RowRoundAt(plan, x).value else []
      ensures ok ==> out.didOutput == (old(out.didOutput) || RowRoundAt(plan, x).value != [])
    {
      if filter != null {
        var res := filter.Execute(n);
        if res != Val(TRUE) {
          assert out.emitted + [] == out.emitted;
          return res.Val?;
        }
      }
      ok := OutputExprList(x);
    }

    method FillOn(p: Row, q: Row)
      requires Valid() && on != null && tables == {p.tbl, q.tbl}
      modifies onNodes
      ensures Valid() && on.Tree() == Look(plan.on, Values(Both(p, q)))
    {
      FilledRows(on.Tree(), plan.on, p, q);
      on.Fill(FromRows(p, q));
    }

    method FillFilter(how: Filling, ghost x: Pairing)
      requires Valid() && Describes(how, x) && tables == TablesOf(x)
      modifies filterNodes
      ensures Valid() && FilterHolds(x)
    {
      if filter != null {
        FilledAs(filter.Tree(), plan.filter.value, how, x);
        filter.Fill(how);
      }
    }

    method FillItems(how: Filling, ghost x: Pairing)
      requires Valid() && Describes(how, x) && tables == TablesOf(x)
      modifies itemNodes
      ensures Valid() && Holds(x)
    {
      forall i | 0 <= i < |plan.es|
        ensures Filled(items.TreeAt(i), how) == Look(plan.es[i], Values(x)) && Alike(Filled(items.TreeAt(i), how), plan.es[i])
      {
        FilledAs(items.TreeAt(i), plan.es[i], how, x);
      }
      items.FillAll(how);
    }

    method ClearItems()
      requires Valid()
      modifies itemNodes
      ensures Valid() && Cleared()
    {
      forall i | 0 <= i < |plan.es| ensures Alike(SetNull(items.TreeAt(i)), plan.es[i]) {
        FilledRow(items.TreeAt(i), Row(0, []));
      }
      items.FillAll(Clear);
    }

    ghost predicate Cleared()
      requires ItemsOk()
      reads itemNodes
    {
      forall i :: 0 <= i < |plan.es| ==> items.TreeAt(i) == SetNull(plan.es[i])
    }

    /** What the items hold in the middle of an inner loop. */
    ghost predicate HoldsSoFar(p: Row, seen: seq<Row>)
      requires ItemsOk()
      reads itemNodes
    {
      var x := HeldAfter(plan, p, seen);
      if x.Both? then Holds(x) else Cleared()
    }

    /** One round of the inner loop: the select list and WHERE are filled only for pairs that meet ON. */
    method ExecPair(p: Row, q: Row, ghost seen: seq<Row>) returns (ok: bool)
      requires Valid() && out.Valid() && on != null && tables == {p.tbl, q.tbl} && HoldsSoFar(p, seen)
      modifies out, onNodes, filterNodes, itemNodes
      ensures Valid() && out.Valid() && ok == Round(plan, Both(p, q)).Some?
      ensures out.emitted == old(out.emitted) + if ok then Round(plan, Both(p, q)).value else []
      ensures ok ==> out.didOutput == (old(out.didOutput) || Round(plan, Both(p, q)).value != [])
      ensures ok ==> HoldsSoFar(p, seen + [q])
    {
      ghost var x := Both(p, q);
      assert (seen + [q])[..|seen + [q]| - 1] == seen;
      FillOn(p, q);
      var res := on.Execute(n);
      assert out.emitted + [] == out.emitted;
      if res == Val(TRUE) {
        FillItems(FromRows(p, q), x);
        FillFilter(FromRows(p, q), x);
        ok := ExecWhere(x);
      } else {
        ok := res.Val?;
      }
    }

    /** The inner loop over the second table. */
    method ExecInner(p: Row, inner: seq<Row>) returns (ok: bool)
      requires Valid() && out.Valid() && on != null && HoldsSoFar(p, [])
      requires forall i :: 0 <= i < |inner| ==> tables == {p.tbl, inner[i].tbl}
      modifies out, onNodes, filterNodes, itemNodes
      ensures Valid() && out.Valid() && ok == Rounds(plan, p, inner).Some?
      ensures ok ==> HoldsSoFar(p, inner) && out.Progressed(old(out.emitted), old(out.didOutput), Rounds(plan, p, inner))
    {
      ghost var start, was := out.emitted, out.didOutput;
      for i := 0 to |inner|
        invariant Valid() && out.Valid() && HoldsSoFar(p, inner[..i])
        invariant out.Progressed(start, was, Rounds(plan, p, inner[..i]))
      {
        NextRound(plan, p, inner, i);
        ghost var part, was' := out.emitted, out.didOutput;
        ok := ExecPair(p, inner[i], inner[..i]);
        if !ok {
          RoundsFail(plan, p, inner, i + 1);
          return;
        }
        Further(start, was, part, was', Rounds(plan, p, inner[..i]), Round(plan, Both(p, inner[i])));
      }
      assert inner[..|inner|] == inner;
      ok := true;
    }

    lemma Further(start: seq<Emission>, was: bool, part: seq<Emission>, was': bool, a: Option<seq<Emission>>, b: Option<seq<Emission>>)
      requires a.Some? && part == start + a.value && was' == (was || a.value != [])
      requires out.Progressed(part, was', b)
      ensures out.Progressed(start, was, Cat(a, b))
    {
      assert start + a.value + b.value == start + (a.value + b.value);
    }

    /** Fill the columns of an unmatched row; the others keep what they hold. */
    method FillLeft(p: Row, ghost seen: seq<Row>)
      requires Valid() && HoldsSoFar(p, seen)
      modifies itemNodes
      ensures Valid() && Holds(HeldAfter(plan, p, seen))
    {
      ghost var x := HeldAfter(plan, p, seen);
      HeldLeft(plan, p, seen);
      forall i | 0 <= i < |plan.es|
        ensures SetRow(items.TreeAt(i), p) == Look(plan.es[i], Values(x)) && Alike(SetRow(items.TreeAt(i), p), plan.es[i])
      {
        if x.Both? { FilledAgain(plan.es[i], p, x); } else { FilledNull(items.TreeAt(i), plan.es[i], p); }
        FilledRow(items.TreeAt(i), p);
      }
      items.FillAll(FromRow(p));
    }

    /** A left join shows a row without output with whatever the other items hold. */
    method ExecUnmatched(p: Row, ghost seen: seq<Row>) returns (ok: bool)
      requires Valid() && out.Valid() && HoldsSoFar(p, seen)
      modifies out, itemNodes
      ensures Valid() && out.Valid() && ok == LineAt(plan, HeldAfter(plan, p, seen)).Some?
      ensures out.emitted == old(out.emitted) + if ok then LineAt(plan, HeldAfter(plan, p, seen)).value else []
    {
      FillLeft(p, seen);
      ok := OutputExprList(HeldAfter(plan, p, seen));
    }

    /** One row of the outer table. */
    method ExecOuter(left: bool, p: Row, inner: seq<Row>) returns (ok: bool)
      requires Valid() && out.Valid() && on != null && forall i :: 0 <= i < |inner| ==> tables == {p.tbl, inner[i].tbl}
      modifies out, onNodes, filterNodes, itemNodes
      ensures Valid() && out.Valid() && ok == OuterRound(plan, left, p, inner).Some?
      ensures ok ==> out.emitted == old(out.emitted) + OuterRound(plan, left, p, inner).value
    {
      if left { out.didOutput := false; }
      ClearItems();
      ok := ExecInner(p, inner);
      if ok && left && !out.didOutput {
        assert out.emitted == old(out.emitted) + [];
        ok := ExecUnmatched(p, inner);
      }
    }

    /** `exec_inner_join_0_0` and `exec_left_join_0_0` */
    method ExecJoin(left: bool, outer: seq<Row>, inner: seq<Row>) returns (ok: bool)
      requires Valid() && out.Valid() && on != null && out.emitted == []
      requires forall i, j :: 0 <= i < |outer| && 0 <= j < |inner| ==> tables == {outer[i].tbl, inner[j].tbl}
      modifies out, onNodes, filterNodes, itemNodes
      ensures Valid() && out.Valid() && ok == Loops(plan, left, outer, inner).Some?
      ensures ok ==> out.emitted == Loops(plan, left, outer, inner).value
    {
      for i := 0 to |outer|
        invariant Valid() && out.Valid() && Loops(plan, left, outer[..i], inner) == Some(out.emitted)
      {
        assert outer[..i + 1][..i] == outer[..i];
        ok := ExecOuter(left, outer[i], inner);
        if !ok {
          LoopsFail(plan, left, outer, inner, i + 1);
          return;
        }
      }
      assert outer[..|outer|] == outer;
      ok := true;
    }

    /** One row of a single table. */
    method ExecRow(row: Row) returns (ok: bool)
      requires Valid() && out.Valid() && tables == {row.tbl}
      modifies out, filterNodes, itemNodes
      ensures Valid() && out.Valid() && ok == RowRoundAt(plan, Only(row)).Some?
      ensures out.emitted == old(out.emitted) + if ok then RowRoundAt(plan, Only(row)).value else []
    {
      ghost var x := Only(row);
      ClearItems();
      FillFilter(FromRow(row), x);
      FillItems(FromRow(row), x);
      ok := ExecWhere(x);
    }

    /** `exec_query`: the scan of a single table. */
    method ExecQuery(rows: seq<Row>) returns (ok: bool)
      requires Valid() && out.Valid() && out.emitted == [] && forall i :: 0 <= i < |rows| ==> tables == {rows[i].tbl}
      modifies out, filterNodes, itemNodes
      ensures Valid() && out.Valid() && ok == SqlOne(plan, rows).Some?
      ensures ok ==> out.emitted == SqlOne(plan, rows).value
    {
      assert Onlys(rows[..0]) == [];
      for i := 0 to |rows|
        invariant Valid() && out.Valid() && SqlOne(plan, rows[..i]) == Some(out.emitted)
      {
        SqlOneNext(plan, rows, i);
        ok := ExecRow(rows[i]);
        if !ok {
          SqlOneFails(plan, rows, i + 1);
          return;
        }
      }
      assert rows[..|rows|] == rows;
      ok := true;
    }
  }

  lemma {:induction false} HeldLeft(plan: Plan, p: Row, seen: seq<Row>)
    ensures HeldAfter(plan, p, seen).p == p
    decreases |seen|
  {
    if seen != [] { HeldLeft(plan, p, seen[..|seen| - 1]); }
  }

  // ------------------------------------------------------------- statements

  /** The result of a statement: None if some evaluation fails. */
  function Answer(cols: seq<KeyColumn>, ems: Option<seq<Emission>>): Option<seq<Entry>> {
    if ems.None? then None else Some(Output(cols, ems.value))
  }

  method AddItem(items: ItemList, n: Numerals, e: Expr, compact: bool)
    requires items.Valid()
    modifies items
    ensures items.Valid() && fresh(items.repr - old(items.repr))
    ensures items.Trees() == old(items.Trees()) + [if compact then Fold(n, e) else e]
  {
    var node := Build(e);
    if compact { node.Compact(n); }
    items.Add(node);
  }

  /** `make_expression_list` and `order_by`: items of the select list are compacted, those of ORDER BY are not. */
  method BuildItems(n: Numerals, k: nat, es: seq<Expr>) returns (items: ItemList)
    ensures items.Valid() && fresh(items) && fresh(items.repr) && items.Trees() == CompactList(n, k, es)
  {
    items := new ItemList();
    ghost var made := CompactList(n, k, es);
    for i := 0 to |es|
      invariant items.Valid() && fresh(items) && fresh(items.repr) && items.Trees() == made[..i]
    {
      AddItem(items, n, es[i], i >= k);
      assert made[..i + 1] == made[..i] + [made[i]];
    }
    assert made[..|es|] == made;
  }

  method BuildFilter(filter: Option<Expr>) returns (node: Node?)
    ensures (node != null) == filter.Some?
    ensures node != null ==> fresh(node) && node.Valid() && fresh(node.repr) && node.Tree() == filter.value
  {
    node := null;
    if filter.Some? { node := Build(filter.value); }
  }

  function ActionOf(kind: JoinKind): Action {
    match kind
    case Inner => InnerJoin
    case Left => LeftJoin
    case Right => RightJoin
  }

  /** The relational result of a two-table FROM clause. */
  function SqlTwo(plan: Plan, kind: JoinKind, first: seq<Row>, second: seq<Row>): Option<seq<Emission>>
    requires plan.k <= |plan.es|
  {
    match kind
    case Inner => Sql(plan, false, first, second)
    case Left => Sql(plan, true, first, second)
    case Right => SqlRight(plan, first, second)
  }

  /** What the loops run over after `make_query`. */
  function LoopsTwo(plan: Plan, kind: JoinKind, first: seq<Row>, second: seq<Row>): Option<seq<Emission>>
    requires plan.k <= |plan.es|
  {
    if kind == Right then Loops(plan, true, second, first) else Loops(plan, kind == Left, first, second)
  }

  lemma LoopsAreSql(plan: Plan, kind: JoinKind, first: seq<Row>, second: seq<Row>, t1: nat, t2: nat)
    requires plan.k <= |plan.es| && t1 != t2 && RowsOf(first, t1) && RowsOf(second, t2)
    ensures kind == Inner || plan.filter.None? ==> LoopsTwo(plan, kind, first, second) == SqlTwo(plan, kind, first, second)
  {
    match kind
    case Inner => InnerJoinIsSql(plan, first, second);
    case Left => if plan.filter.None? { LeftJoinIsSql(plan, first, second); }
    case Right =>
      if plan.filter.None? { LeftJoinIsSql(plan, second, first); }
      forall i | 0 <= i < |second| ensures OtherTable(first, second[i]) { }
      RightJoinIsSql(plan, first, second);
  }

  /** Compacting constants changes neither the definition nor, therefore, the result. */
  lemma CompactedTwo(plan: Plan, kind: JoinKind, first: seq<Row>, second: seq<Row>, t1: nat, t2: nat)
    requires plan.k <= |plan.es| && t1 != t2 && RowsOf(first, t1) && RowsOf(second, t2)
    requires PlanFoldable(plan)
    ensures SqlTwo(Compacted(plan), kind, first, second) == SqlTwo(plan, kind, first, second)
  {
    if kind == Right {
      forall i | 0 <= i < |second| ensures OtherTable(first, second[i]) { }
      RightJoinIsSql(plan, first, second);
      RightJoinIsSql(Compacted(plan), first, second);
      SqlCompacted(plan, true, second, first);
    } else {
      SqlCompacted(plan, kind == Left, first, second);
    }
  }

  lemma {:induction false} FoldOver(n: Numerals, e: Expr, tables: set<nat>)
    requires Over(e, tables)
    ensures Over(Fold(n, e), tables)
  {
    if e.Op? {
      FoldOver(n, e.l, tables);
      FoldOver(n, e.r, tables);
    }
  }

  lemma CompactedOver(plan: Plan, tables: set<nat>)
    requires Over(plan.on, tables) && AllOver(plan.es, tables)
    ensures Over(Compacted(plan).on, tables) && AllOver(Compacted(plan).es, tables)
  {
    FoldOver(plan.n, plan.on, tables);
    forall i | 0 <= i < |plan.es| ensures Over(Compacted(plan).es[i], tables) {
      FoldOver(plan.n, plan.es[i], tables);
    }
  }

  /** The items of a join, with ON compacted, run over the tables in the order that was made. */
  method RunJoin(plan: Plan, cols: seq<KeyColumn>, on: Node, left: bool, outer: seq<Row>, inner: seq<Row>, ghost tables: set<nat>)
      returns (res: Option<seq<Entry>>)
    requires on.Valid() && on.Tree() == Fold(plan.n, plan.on) && plan.k <= |plan.es|
    requires Over(plan.on, tables) && (plan.filter.Some? ==> Over(plan.filter.value, tables)) && AllOver(plan.es, tables)
    requires forall i, j :: 0 <= i < |outer| && 0 <= j < |inner| ==> tables == {outer[i].tbl, inner[j].tbl}
    modifies on.repr
    ensures res == Answer(cols, Loops(Compacted(plan), left, outer, inner))
  {
    CompactedOver(plan, tables);
    CompactedSettled(plan);
    var items := BuildItems(plan.n, plan.k, plan.es);
    var filter := BuildFilter(plan.filter);
    var out := new ResultSet(cols);
    var q := new Query(Compacted(plan), tables, plan.n, plan.k, on, filter, items, out);
    var ok := q.ExecJoin(left, outer, inner);
    res := if ok then Some(out.output) else None;
  }

  /** The list of two items that the join operators make, and what `make_query` makes of it. */
  method MakeList(first: seq<Row>, second: seq<Row>, kind: JoinKind, on: Node) returns (x: TableItem, y: TableItem)
    ensures y.on == Some(on) && y.action == (if kind == Inner then InnerJoin else LeftJoin)
    ensures if kind == Right then x.rows == second && y.rows == first else x.rows == first && y.rows == second
  {
    var head := new TableItem(first, NoAction, None);
    var tail := new TableItem(second, ActionOf(kind), Some(on));
    head.next, tail.prev := tail, head;
    assert LinkedAt([head, tail], 0) && LinkedAt([head, tail], 1);
    x, y := MakeQuery(head, tail);
  }

  /** Join two tables: compact ON, make the query, run it. */
  method JoinTwo(plan: Plan, cols: seq<KeyColumn>, kind: JoinKind, first: seq<Row>, second: seq<Row>, t1: nat, t2: nat)
      returns (res: Option<seq<Entry>>)
    requires t1 != t2 && RowsOf(first, t1) && RowsOf(second, t2) && plan.k <= |plan.es|
    requires Over(plan.on, {t1, t2}) && (plan.filter.Some? ==> Over(plan.filter.value, {t1, t2})) && AllOver(plan.es, {t1, t2})
    ensures res == Answer(cols, LoopsTwo(Compacted(plan), kind, first, second))
  {
    var on := Build(plan.on);
    on.Compact(plan.n);
    var x, y := MakeList(first, second, kind, on);
    res := RunJoin(plan, cols, on, y.action == LeftJoin, x.rows, y.rows, {t1, t2});
  }

  /**
   SELECT over two different tables: what the loops give for compacted constants, and for INNER JOIN, and
   for LEFT and RIGHT JOIN without WHERE, the relational result; that is the result for the condition and
   the select list as they were written if these can be folded.  Lines come by the values of the ORDER BY
   columns.
   */
  method SelectTwo(plan: Plan, cols: seq<KeyColumn>, kind: JoinKind, first: seq<Row>, second: seq<Row>, t1: nat, t2: nat)
      returns (res: Option<seq<Entry>>)
    requires t1 != t2 && RowsOf(first, t1) && RowsOf(second, t2) && plan.k <= |plan.es|
    requires Over(plan.on, {t1, t2}) && (plan.filter.Some? ==> Over(plan.filter.value, {t1, t2})) && AllOver(plan.es, {t1, t2})
    ensures res == Answer(cols, LoopsTwo(Compacted(plan), kind, first, second))
    ensures kind == Inner || plan.filter.None? ==> res == Answer(cols, SqlTwo(Compacted(plan), kind, first, second))
    ensures (kind == Inner || plan.filter.None?) && PlanFoldable(plan) ==> res == Answer(cols, SqlTwo(plan, kind, first, second))
    ensures res.Some? ==> InOrder(cols, LoopsTwo(Compacted(plan), kind, first, second).value, res.value)
  {
    res := JoinTwo(plan, cols, kind, first, second, t1, t2);
    if res.Some? { OutputIsRanked(cols, LoopsTwo(Compacted(plan), kind, first, second).value); }
    LoopsAreSql(Compacted(plan), kind, first, second, t1, t2);
    if PlanFoldable(plan) { CompactedTwo(plan, kind, first, second, t1, t2); }
  }

  /**
   SELECT over one table: the rows that WHERE accepts, by the values of the ORDER BY columns and else
   in scan order, with the select list compacted; as it was written if it can be folded.
   */
  method SelectOne(plan: Plan, cols: seq<KeyColumn>, rows: seq<Row>, tbl: nat) returns (res: Option<seq<Entry>>)
    requires RowsOf(rows, tbl) && plan.k <= |plan.es|
    requires Over(plan.on, {tbl}) && (plan.filter.Some? ==> Over(plan.filter.value, {tbl})) && AllOver(plan.es, {tbl})
    ensures res == Answer(cols, SqlOne(Compacted(plan), rows))
    ensures ListFoldable(plan) ==> SqlOne(Compacted(plan), rows) == SqlOne(plan, rows)
    ensures res.Some? ==> InOrder(cols, SqlOne(Compacted(plan), rows).value, res.value)
  {
    CompactedOver(plan, {tbl});
    CompactedSettled(plan);
    var items := BuildItems(plan.n, plan.k, plan.es);
    var filter := BuildFilter(plan.filter);
    var out := new ResultSet(cols);
    var q := new Query(Compacted(plan), {tbl}, plan.n, plan.k, null, filter, items, out);
    var ok := q.ExecQuery(rows);
    res := if ok then Some(out.output) else None;
    if ok { OutputIsRanked(cols, SqlOne(Compacted(plan), rows).value); }
    if ListFoldable(plan) { ChosenCompacted(plan, Some(Onlys(rows))); }
  }
}

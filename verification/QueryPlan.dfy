/**
 What SELECT over two tables should give: join, then WHERE, then the select
 list; and what the nested loops give, row by row.
 */
module QueryPlan {
  import opened Prelude
  import opened Texts
  import opened Numbers
  import opened SqlCode
  import opened QueryExpr
  import opened QueryItem

  /** A joined row: a pair, or a row of the outer table that found no partner. */
  datatype Pairing = Both(p: Row, q: Row) | Only(p: Row)

  datatype JoinKind = Inner | Left | Right

  /** What one output line consists of: the order-by columns and the selected values. */
  datatype Emission = Emission(keys: seq<Text>, line: seq<Text>)

  /** The first `k` expressions are those of ORDER BY. */
  datatype Plan = Plan(n: Numerals, on: Expr, filter: Option<Expr>, k: nat, es: seq<Expr>)

  function Values(x: Pairing): (nat, nat) -> Text {
    match x
    case Both(p, q) =>
      (t: nat, c: nat) => if t == p.tbl then ValueAt(p, c) else if t == q.tbl then ValueAt(q, c) else NULL
    case Only(p) => (t: nat, c: nat) => if t == p.tbl then ValueAt(p, c) else NULL
  }

  function LookAll(es: seq<Expr>, value: (nat, nat) -> Text): (r: seq<Expr>)
    ensures |r| == |es| && forall i :: 0 <= i < |es| ==> r[i] == Look(es[i], value)
  {
    seq(|es|, i requires 0 <= i < |es| => Look(es[i], value))
  }

  // ------------------------------------------------- lists that may fail

  function Cat<T>(a: Option<seq<T>>, b: Option<seq<T>>): Option<seq<T>> {
    if a.None? || b.None? then None else Some(a.value + b.value)
  }

  /** Computed from INT constants alone, without division. */
  predicate Integral(e: Expr) {
    match e
    case Fixed(kind, _) => kind == LInt
    case Slot(_, _, _) => false
    case Op(op, l, r) => (op == Add || op == Sub || op == Mul) && Integral(l) && Integral(r)
  }

  /** Other results of arithmetic and FLOAT constants are rounded for output. */
  predicate Rounded(e: Expr) {
    (e.Op? && Arithmetic(e.op) && !Integral(e)) || (e.Fixed? && e.kind == LFloat)
  }

  function Printed(n: Numerals, e: Expr, text: Text): Text {
    if Rounded(e) then n.shown(text) else text
  }

  function PrintedValue(n: Numerals, e: Expr): Option<Text> {
    if Eval(n, e).Err? then None else Some(Printed(n, e, Eval(n, e).text))
  }

  function Single<T>(x: Option<T>): Option<seq<T>> {
    if x.None? then None else Some([x.value])
  }

  function EvalAll(n: Numerals, es: seq<Expr>): Option<seq<Text>> {
    if es == [] then Some([])
    else Cat(EvalAll(n, es[..|es| - 1]), Single(PrintedValue(n, es[|es| - 1])))
  }

  /** The value that an item holds. */
  function Held(e: Expr): Text {
    match e
    case Fixed(_, text) => text
    case Slot(_, _, value) => value
    case Op(_, _, _) => NULL
  }

  function HeldAll(es: seq<Expr>): (r: seq<Text>)
    ensures |r| == |es|
  {
    seq(|es|, i requires 0 <= i < |es| => Held(es[i]))
  }

  /** The output line for expressions whose columns have been filled. */
  function Shown(n: Numerals, k: nat, es: seq<Expr>): Option<seq<Emission>>
    requires k <= |es|
  {
    var line := EvalAll(n, es[k..]);
    if line.None? then None else Some([Emission(HeldAll(es[..k]), line.value)])
  }

  // ------------------------------------------------------------- definition

  function OnAt(plan: Plan, x: Pairing): Res { Eval(plan.n, Look(plan.on, Values(x))) }

  function WhereAt(plan: Plan, x: Pairing): Res {
    if plan.filter.None? then Val(TRUE) else Eval(plan.n, Look(plan.filter.value, Values(x)))
  }

  function LineAt(plan: Plan, x: Pairing): Option<seq<Emission>>
    requires plan.k <= |plan.es|
  {
    Shown(plan.n, plan.k, LookAll(plan.es, Values(x)))
  }

  function Keep<T>(r: Res, x: T): Option<seq<T>> {
    if r.Err? then None else Some(if r == Val(TRUE) then [x] else [])
  }

  /** The partners of `p`, in scan order. */
  function Partners(plan: Plan, p: Row, inner: seq<Row>): Option<seq<Pairing>> {
    if inner == [] then Some([])
    else
      var x := Both(p, inner[|inner| - 1]);
      Cat(Partners(plan, p, inner[..|inner| - 1]), Keep(OnAt(plan, x), x))
  }

  function Joined(plan: Plan, left: bool, p: Row, inner: seq<Row>): Option<seq<Pairing>> {
    var ps := Partners(plan, p, inner);
    if left && ps == Some([]) then Some([Only(p)]) else ps
  }

  function Where(plan: Plan, xs: seq<Pairing>): Option<seq<Pairing>> {
    if xs == [] then Some([])
    else
      var x := xs[|xs| - 1];
      Cat(Where(plan, xs[..|xs| - 1]), Keep(WhereAt(plan, x), x))
  }

  function Select(plan: Plan, xs: seq<Pairing>): Option<seq<Emission>>
    requires plan.k <= |plan.es|
  {
    if xs == [] then Some([]) else Cat(Select(plan, xs[..|xs| - 1]), LineAt(plan, xs[|xs| - 1]))
  }

  function JoinAll(plan: Plan, left: bool, outer: seq<Row>, inner: seq<Row>): Option<seq<Pairing>> {
    if outer == [] then Some([])
    else Cat(JoinAll(plan, left, outer[..|outer| - 1], inner), Joined(plan, left, outer[|outer| - 1], inner))
  }

  function Chosen(plan: Plan, xs: Option<seq<Pairing>>): Option<seq<Emission>>
    requires plan.k <= |plan.es|
  {
    if xs.None? || Where(plan, xs.value).None? then None else Select(plan, Where(plan, xs.value).value)
  }

  /** The relational meaning: FROM ... JOIN, then WHERE, then the select list. */
  function Sql(plan: Plan, left: bool, outer: seq<Row>, inner: seq<Row>): Option<seq<Emission>>
    requires plan.k <= |plan.es|
  {
    Chosen(plan, JoinAll(plan, left, outer, inner))
  }

  // ------------------------------------------------------ what a line shows

  /** The row of a table in a joined row. */
  predicate HasRow(x: Pairing, tbl: nat, row: Row) {
    row.tbl == tbl && match x case Both(p, q) => row == p || (row == q && p.tbl != tbl) case Only(p) => row == p
  }

  /** A column is the value stored in the row of its table; null if that has no such value, or there is no row. */
  lemma ColumnValue(n: Numerals, tbl: nat, col: nat, was: Text, x: Pairing, row: Row)
    ensures HasRow(x, tbl, row) && col < |row.values| ==> Eval(n, Look(Slot(tbl, col, was), Values(x))) == Val(row.values[col])
    ensures HasRow(x, tbl, row) && col >= |row.values| ==> Eval(n, Look(Slot(tbl, col, was), Values(x))) == Val(NULL)
    ensures x.p.tbl != tbl && (x.Both? ==> x.q.tbl != tbl) ==> Eval(n, Look(Slot(tbl, col, was), Values(x))) == Val(NULL)
  {
    var v := Values(x)(tbl, col);
    assert Look(Slot(tbl, col, was), Values(x)) == Slot(tbl, col, v);
    if HasRow(x, tbl, row) { assert v == ValueAt(row, col); }
  }

  lemma {:induction false} EvalAllAt(n: Numerals, es: seq<Expr>)
    ensures EvalAll(n, es).Some? <==> forall i :: 0 <= i < |es| ==> PrintedValue(n, es[i]).Some?
    ensures EvalAll(n, es).Some? ==>
              (|EvalAll(n, es).value| == |es|
               && forall i :: 0 <= i < |es| ==> Some(EvalAll(n, es).value[i]) == PrintedValue(n, es[i]))
    decreases |es|
  {
    if es != [] {
      var front := es[..|es| - 1];
      EvalAllAt(n, front);
      assert forall i :: 0 <= i < |front| ==> front[i] == es[i];
    }
  }

  /** Item `i` of the select list, as it is printed for a joined row. */
  function ItemAt(plan: Plan, x: Pairing, i: nat): Option<Text>
    requires plan.k + i < |plan.es|
  {
    PrintedValue(plan.n, Look(plan.es[plan.k + i], Values(x)))
  }

  /** A line fails exactly if one of its items does; else it shows them in the order of the select list. */
  lemma LineShows(plan: Plan, x: Pairing)
    requires plan.k <= |plan.es|
    ensures LineAt(plan, x).None? <==> exists i :: 0 <= i < |plan.es| - plan.k && ItemAt(plan, x, i).None?
    ensures LineAt(plan, x).Some? ==>
              (|LineAt(plan, x).value| == 1
               && |LineAt(plan, x).value[0].line| == |plan.es| - plan.k
               && forall i :: 0 <= i < |plan.es| - plan.k ==> Some(LineAt(plan, x).value[0].line[i]) == ItemAt(plan, x, i))
  {
    var es := LookAll(plan.es, Values(x))[plan.k..];
    EvalAllAt(plan.n, es);
    assert forall i :: 0 <= i < |es| ==> PrintedValue(plan.n, es[i]) == ItemAt(plan, x, i);
  }

  /** Its keys are the values of the ORDER BY columns. */
  lemma LineKeys(plan: Plan, x: Pairing, i: nat, row: Row)
    requires i < plan.k <= |plan.es| && LineAt(plan, x).Some? && plan.es[i].Slot?
    requires HasRow(x, plan.es[i].tbl, row) && plan.es[i].col < |row.values|
    ensures |LineAt(plan, x).value[0].keys| == plan.k && LineAt(plan, x).value[0].keys[i] == row.values[plan.es[i].col]
  {
    var es := LookAll(plan.es, Values(x));
    assert es[..plan.k][i] == Look(plan.es[i], Values(x));
    ColumnValue(plan.n, plan.es[i].tbl, plan.es[i].col, plan.es[i].value, x, row);
  }

  // ----------------------------------------------------------- nested loops

  /** One round of the inner loop. */
  function Round(plan: Plan, x: Pairing): Option<seq<Emission>>
    requires plan.k <= |plan.es|
  {
    var on := OnAt(plan, x);
    if on.Err? then None
    else if on != Val(TRUE) then Some([])
    else RowRoundAt(plan, x)
  }

  function Rounds(plan: Plan, p: Row, inner: seq<Row>): Option<seq<Emission>>
    requires plan.k <= |plan.es|
  {
    if inner == [] then Some([])
    else Cat(Rounds(plan, p, inner[..|inner| - 1]), Round(plan, Both(p, inner[|inner| - 1])))
  }

  /** What the expressions hold after the inner loop: the last pair that met ON, else nulls. */
  function HeldAfter(plan: Plan, p: Row, inner: seq<Row>): Pairing {
    if inner == [] then Only(p)
    else
      var x := Both(p, inner[|inner| - 1]);
      if OnAt(plan, x) == Val(TRUE) then x else HeldAfter(plan, p, inner[..|inner| - 1])
  }

  /** One outer row: a left join without output prints what the expressions hold. */
  function OuterRound(plan: Plan, left: bool, p: Row, inner: seq<Row>): Option<seq<Emission>>
    requires plan.k <= |plan.es|
  {
    var rs := Rounds(plan, p, inner);
    if left && rs == Some([]) then LineAt(plan, HeldAfter(plan, p, inner)) else rs
  }

  function Loops(plan: Plan, left: bool, outer: seq<Row>, inner: seq<Row>): Option<seq<Emission>>
    requires plan.k <= |plan.es|
  {
    if outer == [] then Some([])
    else Cat(Loops(plan, left, outer[..|outer| - 1], inner), OuterRound(plan, left, outer[|outer| - 1], inner))
  }

  // ------------------------------------------------------------ equivalence

  lemma {:induction false} WhereAppend(plan: Plan, xs: seq<Pairing>, ys: seq<Pairing>)
    ensures Where(plan, xs + ys) == Cat(Where(plan, xs), Where(plan, ys))
    decreases |ys|
  {
    if ys == [] {
      assert xs + ys == xs;
      if Where(plan, xs).Some? { assert Where(plan, xs).value + [] == Where(plan, xs).value; }
    } else {
      var zs := ys[..|ys| - 1];
      assert (xs + ys)[..|xs + ys| - 1] == xs + zs && (xs + ys)[|xs + ys| - 1] == ys[|ys| - 1];
      WhereAppend(plan, xs, zs);
      CatAssoc(Where(plan, xs), Where(plan, zs), Keep(WhereAt(plan, ys[|ys| - 1]), ys[|ys| - 1]));
    }
  }

  lemma {:induction false} SelectAppend(plan: Plan, xs: seq<Pairing>, ys: seq<Pairing>)
    requires plan.k <= |plan.es|
    ensures Select(plan, xs + ys) == Cat(Select(plan, xs), Select(plan, ys))
    decreases |ys|
  {
    if ys == [] {
      assert xs + ys == xs;
      if Select(plan, xs).Some? { assert Select(plan, xs).value + [] == Select(plan, xs).value; }
    } else {
      var zs := ys[..|ys| - 1];
      assert (xs + ys)[..|xs + ys| - 1] == xs + zs && (xs + ys)[|xs + ys| - 1] == ys[|ys| - 1];
      SelectAppend(plan, xs, zs);
      CatAssoc(Select(plan, xs), Select(plan, zs), LineAt(plan, ys[|ys| - 1]));
    }
  }

  lemma CatAssoc<T>(a: Option<seq<T>>, b: Option<seq<T>>, c: Option<seq<T>>)
    ensures Cat(Cat(a, b), c) == Cat(a, Cat(b, c))
  {
    if a.Some? && b.Some? && c.Some? { assert (a.value + b.value) + c.value == a.value + (b.value + c.value); }
  }

  lemma ChosenCat(plan: Plan, xs: Option<seq<Pairing>>, ys: Option<seq<Pairing>>)
    requires plan.k <= |plan.es|
    ensures Chosen(plan, Cat(xs, ys)) == Cat(Chosen(plan, xs), Chosen(plan, ys))
  {
    if xs.Some? && ys.Some? {
      WhereAppend(plan, xs.value, ys.value);
      if Where(plan, xs.value).Some? && Where(plan, ys.value).Some? {
        SelectAppend(plan, Where(plan, xs.value).value, Where(plan, ys.value).value);
      }
    }
  }

  lemma ChosenOne(plan: Plan, x: Pairing)
    requires plan.k <= |plan.es|
    ensures Chosen(plan, Some([x]))
         == if WhereAt(plan, x).Err? then None
            else if WhereAt(plan, x) == Val(TRUE) then LineAt(plan, x) else Some([])
    ensures Chosen(plan, Some([])) == Some([])
  {
    assert [x][..0] == [];
    assert Where(plan, [x]) == Cat(Some([]), Keep(WhereAt(plan, x), x));
    if WhereAt(plan, x) == Val(TRUE) {
      assert Where(plan, [x]) == Some([] + [x]) && [] + [x] == [x];
      assert Select(plan, [x]) == Cat(Some([]), LineAt(plan, x));
      if LineAt(plan, x).Some? { assert [] + LineAt(plan, x).value == LineAt(plan, x).value; }
    }
  }

  lemma {:induction false} RoundsChoose(plan: Plan, p: Row, inner: seq<Row>)
    requires plan.k <= |plan.es|
    ensures Rounds(plan, p, inner) == Chosen(plan, Partners(plan, p, inner))
    decreases |inner|
  {
    if inner == [] {
      ChosenOne(plan, Only(p));
    } else {
      var x, rest := Both(p, inner[|inner| - 1]), inner[..|inner| - 1];
      RoundsChoose(plan, p, rest);
      ChosenCat(plan, Partners(plan, p, rest), Keep(OnAt(plan, x), x));
      ChosenOne(plan, x);
    }
  }

  /** INNER JOIN: for every ON and WHERE the loops give exactly the satisfying pairs. */
  lemma {:induction false} InnerJoinIsSql(plan: Plan, outer: seq<Row>, inner: seq<Row>)
    requires plan.k <= |plan.es|
    ensures Loops(plan, false, outer, inner) == Sql(plan, false, outer, inner)
    decreases |outer|
  {
    if outer == [] {
      assert Chosen(plan, Some([])) == Some([]);
    } else {
      var p, rest := outer[|outer| - 1], outer[..|outer| - 1];
      InnerJoinIsSql(plan, rest, inner);
      RoundsChoose(plan, p, inner);
      ChosenCat(plan, JoinAll(plan, false, rest, inner), Joined(plan, false, p, inner));
    }
  }

  /** Without WHERE, a row shows nothing exactly when it has no partner. */
  lemma {:induction false} NothingShown(plan: Plan, p: Row, inner: seq<Row>)
    requires plan.k <= |plan.es| && plan.filter.None?
    ensures Rounds(plan, p, inner) == Some([]) <==> Partners(plan, p, inner) == Some([])
    ensures Partners(plan, p, inner) == Some([]) ==> HeldAfter(plan, p, inner) == Only(p)
    decreases |inner|
  {
    if inner != [] {
      NothingShown(plan, p, inner[..|inner| - 1]);
    }
  }

  /** LEFT JOIN without WHERE: the loops give the outer join, unmatched rows extended by nulls. */
  lemma {:induction false} LeftJoinIsSql(plan: Plan, outer: seq<Row>, inner: seq<Row>)
    requires plan.k <= |plan.es| && plan.filter.None?
    ensures Loops(plan, true, outer, inner) == Sql(plan, true, outer, inner)
    decreases |outer|
  {
    if outer == [] {
      assert Chosen(plan, Some([])) == Some([]);
    } else {
      var p, rest := outer[|outer| - 1], outer[..|outer| - 1];
      LeftJoinIsSql(plan, rest, inner);
      RoundsChoose(plan, p, inner);
      NothingShown(plan, p, inner);
      ChosenOne(plan, Only(p));
      ChosenCat(plan, JoinAll(plan, true, rest, inner), Joined(plan, true, p, inner));
    }
  }

  /** A partner passes WHERE, or there is no partner and the row extended by nulls passes it. */
  predicate RowRight(plan: Plan, p: Row, inner: seq<Row>)
    requires plan.k <= |plan.es|
  {
    || Rounds(plan, p, inner) != Some([])
    || (Partners(plan, p, inner) == Some([]) && WhereAt(plan, Only(p)) == Val(TRUE))
  }

  /**
   LEFT JOIN with WHERE, one outer row: it is treated as SQL demands exactly when it is right in
   that sense; a wrong row shows one line too many.
   */
  lemma LeftRowIff(plan: Plan, p: Row, inner: seq<Row>)
    requires plan.k <= |plan.es| && OuterRound(plan, true, p, inner).Some?
    ensures RowRight(plan, p, inner) ==> OuterRound(plan, true, p, inner) == Chosen(plan, Joined(plan, true, p, inner))
    ensures !RowRight(plan, p, inner) ==>
              (|OuterRound(plan, true, p, inner).value| == 1
               && Chosen(plan, Joined(plan, true, p, inner)) in {None, Some([])})
  {
    RoundsChoose(plan, p, inner);
    ChosenOne(plan, Only(p));
    if Partners(plan, p, inner) == Some([]) { NoPartner(plan, p, inner); }
  }

  predicate RowsRight(plan: Plan, outer: seq<Row>, inner: seq<Row>)
    requires plan.k <= |plan.es|
  {
    forall i :: 0 <= i < |outer| ==> RowRight(plan, outer[i], inner)
  }

  /** What SQL shows is what the loops show if all is right, else less (or SQL fails). */
  predicate NoMore(right: bool, loops: Option<seq<Emission>>, sql: Option<seq<Emission>>) {
    loops.Some? && (right ==> sql == loops)
    && (!right && sql.Some? ==> |sql.value| < |loops.value|)
  }

  lemma NoMoreCat(r1: bool, l1: Option<seq<Emission>>, s1: Option<seq<Emission>>,
                  r2: bool, l2: Option<seq<Emission>>, s2: Option<seq<Emission>>)
    requires NoMore(r1, l1, s1) && NoMore(r2, l2, s2)
    ensures NoMore(r1 && r2, Cat(l1, l2), Cat(s1, s2))
  {
  }

  lemma RowsRightNext(plan: Plan, outer: seq<Row>, inner: seq<Row>)
    requires plan.k <= |plan.es| && outer != []
    ensures RowsRight(plan, outer, inner)
       <==> RowsRight(plan, outer[..|outer| - 1], inner) && RowRight(plan, outer[|outer| - 1], inner)
  {
    var rest := outer[..|outer| - 1];
    assert forall i :: 0 <= i < |rest| ==> rest[i] == outer[i];
  }

  lemma {:induction false} LeftLines(plan: Plan, outer: seq<Row>, inner: seq<Row>)
    requires plan.k <= |plan.es| && Loops(plan, true, outer, inner).Some?
    ensures NoMore(RowsRight(plan, outer, inner), Loops(plan, true, outer, inner), Sql(plan, true, outer, inner))
    decreases |outer|
  {
    if outer == [] {
      assert Chosen(plan, Some([])) == Some([]);
    } else {
      var p, rest := outer[|outer| - 1], outer[..|outer| - 1];
      var l, j := Loops(plan, true, rest, inner), JoinAll(plan, true, rest, inner);
      LeftLines(plan, rest, inner);
      LeftRowIff(plan, p, inner);
      ChosenCat(plan, j, Joined(plan, true, p, inner));
      RowsRightNext(plan, outer, inner);
      NoMoreCat(RowsRight(plan, rest, inner), l, Chosen(plan, j), RowRight(plan, p, inner),
                OuterRound(plan, true, p, inner), Chosen(plan, Joined(plan, true, p, inner)));
    }
  }

  /** LEFT JOIN with WHERE gives the relational result exactly when every outer row is right. */
  lemma LeftJoinIff(plan: Plan, outer: seq<Row>, inner: seq<Row>)
    requires plan.k <= |plan.es| && Loops(plan, true, outer, inner).Some?
    ensures Loops(plan, true, outer, inner) == Sql(plan, true, outer, inner) <==> RowsRight(plan, outer, inner)
  {
    LeftLines(plan, outer, inner);
  }

  const TWO: Text := [50]

  /** 1 = 2, which no row meets. */
  const NEVER: Expr := Op(Eq, Fixed(LInt, ONE), Fixed(LInt, TWO))

  lemma NeverMet(x: Pairing)
    ensures Eval(Standard(), Look(NEVER, Values(x))) == Val(FALSE)
  {
    ReadsOnes();
    assert Read(TWO) == Some(Ratio(2, 1)) by {
      ReadPlainBack(2);
      ReadSignedBack(2);
      assert Decimal(2) == TWO;
      FindAbsent(TWO, SLASH);
      assert TWO[..1] == TWO;
    }
    assert Look(NEVER, Values(x)) == NEVER;
    EvalNode(Standard(), Eq, ONE, TWO, Fixed(LInt, ONE), Fixed(LInt, TWO));
  }

  /** a LEFT JOIN b ON 1 = 2 WHERE 1 = 2: an unmatched row is shown although WHERE rejects every row. */
  lemma ShownThoughRejected(p: Row)
    ensures var plan := Plan(Standard(), NEVER, Some(NEVER), 0, [Fixed(LText, ONE)]);
            Loops(plan, true, [p], []) == Some([Emission([], [ONE])]) && Sql(plan, true, [p], []) == Some([])
  {
    var plan := Plan(Standard(), NEVER, Some(NEVER), 0, [Fixed(LText, ONE)]);
    var x := Only(p);
    assert [p][..0] == [];
    NeverMet(x);
    ChosenOne(plan, x);
    OneItem(plan, x, Fixed(LText, ONE), ONE);
    var em := Emission([], [ONE]);
    assert OuterRound(plan, true, p, []) == Some([em]);
    assert Loops(plan, true, [p], []) == Cat(Loops(plan, true, [], []), Some([em]));
    assert [] + [em] == [em];
    assert JoinAll(plan, true, [p], []) == Cat(Some([]), Some([x]));
    assert [] + [x] == [x];
  }

  /** The line of a select list with one item. */
  lemma OneItem(plan: Plan, x: Pairing, e: Expr, text: Text)
    requires plan.k == 0 && plan.es == [e]
    requires PrintedValue(plan.n, Look(e, Values(x))) == Some(text)
    ensures LineAt(plan, x) == Some([Emission([], [text])])
  {
    var es := LookAll(plan.es, Values(x));
    assert es == [Look(e, Values(x))];
    assert es[0..] == es && es[..0] == [] && es[..|es| - 1] == [];
    assert EvalAll(plan.n, []) == Some([]);
    assert EvalAll(plan.n, es) == Some([] + [text]);
    assert HeldAll([]) == [] && [] + [text] == [text];
  }

  lemma {:induction false} NoPartner(plan: Plan, p: Row, inner: seq<Row>)
    requires Partners(plan, p, inner) == Some([])
    ensures HeldAfter(plan, p, inner) == Only(p)
    decreases |inner|
  {
    if inner != [] { NoPartner(plan, p, inner[..|inner| - 1]); }
  }

  // ---------------------------------------------------------------- one table

  function Onlys(rows: seq<Row>): (r: seq<Pairing>)
    ensures |r| == |rows|
  {
    seq(|rows|, i requires 0 <= i < |rows| => Only(rows[i]))
  }

  /** The relational meaning of SELECT over one table. */
  function SqlOne(plan: Plan, rows: seq<Row>): Option<seq<Emission>>
    requires plan.k <= |plan.es|
  {
    Chosen(plan, Some(Onlys(rows)))
  }

  /** What a joined row puts into the result. */
  function RowRoundAt(plan: Plan, x: Pairing): Option<seq<Emission>>
    requires plan.k <= |plan.es|
  {
    if WhereAt(plan, x).Err? then None
    else if WhereAt(plan, x) != Val(TRUE) then Some([])
    else LineAt(plan, x)
  }

  lemma SqlOneNext(plan: Plan, rows: seq<Row>, i: nat)
    requires plan.k <= |plan.es| && i < |rows|
    ensures SqlOne(plan, rows[..i + 1]) == Cat(SqlOne(plan, rows[..i]), RowRoundAt(plan, Only(rows[i])))
    ensures SqlOne(plan, rows[..0]) == Some([])
  {
    assert Onlys(rows[..i + 1]) == Onlys(rows[..i]) + [Only(rows[i])];
    ChosenCat(plan, Some(Onlys(rows[..i])), Some([Only(rows[i])]));
    ChosenOne(plan, Only(rows[i]));
    assert Onlys(rows[..0]) == [];
  }

  lemma {:induction false} SqlOneFails(plan: Plan, rows: seq<Row>, i: nat)
    requires plan.k <= |plan.es| && i <= |rows| && SqlOne(plan, rows[..i]).None?
    ensures SqlOne(plan, rows).None?
    decreases |rows| - i
  {
    if i == |rows| {
      assert rows[..i] == rows;
    } else {
      SqlOneNext(plan, rows, i);
      SqlOneFails(plan, rows, i + 1);
    }
  }

  // ---------------------------------------------------------------- RIGHT JOIN

  /** The partners of a row of the second table, pairs still in the order of the FROM clause. */
  function RightPartners(plan: Plan, first: seq<Row>, q: Row): Option<seq<Pairing>> {
    if first == [] then Some([])
    else
      var x := Both(first[|first| - 1], q);
      Cat(RightPartners(plan, first[..|first| - 1], q), Keep(OnAt(plan, x), x))
  }

  function RightJoined(plan: Plan, first: seq<Row>, q: Row): Option<seq<Pairing>> {
    var ps := RightPartners(plan, first, q);
    if ps == Some([]) then Some([Only(q)]) else ps
  }

  /** first RIGHT JOIN second: every row of the second table, in its order, with its partners or with nulls. */
  function RightJoinAll(plan: Plan, first: seq<Row>, second: seq<Row>): Option<seq<Pairing>> {
    if second == [] then Some([])
    else Cat(RightJoinAll(plan, first, second[..|second| - 1]), RightJoined(plan, first, second[|second| - 1]))
  }

  function SqlRight(plan: Plan, first: seq<Row>, second: seq<Row>): Option<seq<Emission>>
    requires plan.k <= |plan.es|
  {
    Chosen(plan, RightJoinAll(plan, first, second))
  }

  function Swap(x: Pairing): Pairing {
    match x
    case Both(p, q) => Both(q, p)
    case Only(p) => x
  }

  /** It does not matter which of two rows of different tables is looked at first. */
  lemma {:induction false} SwapLook(e: Expr, x: Pairing)
    requires x.Both? ==> x.p.tbl != x.q.tbl
    ensures Look(e, Values(x)) == Look(e, Values(Swap(x)))
  {
    if e.Op? {
      SwapLook(e.l, x);
      SwapLook(e.r, x);
    }
  }

  /** The condition that decides a pair of a right join is the one that was written. */
  lemma RightJoinDecides(plan: Plan, p: Row, q: Row)
    requires p.tbl != q.tbl && plan.k <= |plan.es|
    ensures OnAt(plan, Both(p, q)) == OnAt(plan, Both(q, p))
    ensures WhereAt(plan, Both(p, q)) == WhereAt(plan, Both(q, p))
    ensures LineAt(plan, Both(p, q)) == LineAt(plan, Both(q, p))
  {
    SwapLook(plan.on, Both(p, q));
    if plan.filter.Some? { SwapLook(plan.filter.value, Both(p, q)); }
    forall i | 0 <= i < |plan.es| ensures Look(plan.es[i], Values(Both(p, q))) == Look(plan.es[i], Values(Both(q, p))) {
      SwapLook(plan.es[i], Both(p, q));
    }
    assert LookAll(plan.es, Values(Both(p, q))) == LookAll(plan.es, Values(Both(q, p)));
  }

  predicate OtherTable(rows: seq<Row>, q: Row) {
    forall i :: 0 <= i < |rows| ==> rows[i].tbl != q.tbl
  }

  predicate OtherTables(rows: seq<Row>, others: seq<Row>) {
    forall i :: 0 <= i < |others| ==> OtherTable(rows, others[i])
  }

  /** Pairs are of different tables. */
  predicate Mixed(xs: seq<Pairing>) {
    forall i :: 0 <= i < |xs| ==> xs[i].Both? ==> xs[i].p.tbl != xs[i].q.tbl
  }

  function SwapAll(xs: seq<Pairing>): (r: seq<Pairing>)
    ensures |r| == |xs| && forall i :: 0 <= i < |xs| ==> r[i] == Swap(xs[i])
  {
    seq(|xs|, i requires 0 <= i < |xs| => Swap(xs[i]))
  }

  function Swapped(xs: Option<seq<Pairing>>): Option<seq<Pairing>> {
    if xs.None? then None else Some(SwapAll(xs.value))
  }

  predicate AllMixed(xs: Option<seq<Pairing>>) {
    xs.Some? ==> Mixed(xs.value)
  }

  lemma SwappedCat(a: Option<seq<Pairing>>, b: Option<seq<Pairing>>)
    ensures Swapped(Cat(a, b)) == Cat(Swapped(a), Swapped(b))
    ensures AllMixed(a) && AllMixed(b) ==> AllMixed(Cat(a, b))
  {
    if a.Some? && b.Some? { assert SwapAll(a.value + b.value) == SwapAll(a.value) + SwapAll(b.value); }
  }

  lemma {:induction false} PartnersSwapped(plan: Plan, first: seq<Row>, q: Row)
    requires OtherTable(first, q) && plan.k <= |plan.es|
    ensures Partners(plan, q, first) == Swapped(RightPartners(plan, first, q)) && AllMixed(RightPartners(plan, first, q))
    decreases |first|
  {
    if first == [] {
      assert SwapAll([]) == [];
    } else {
      var p, rest := first[|first| - 1], first[..|first| - 1];
      var x := Both(p, q);
      PartnersSwapped(plan, rest, q);
      RightJoinDecides(plan, p, q);
      assert Swapped(Keep(OnAt(plan, x), x)) == Keep(OnAt(plan, Both(q, p)), Both(q, p)) by {
        assert SwapAll([x]) == [Both(q, p)] && SwapAll([]) == [];
      }
      SwappedCat(RightPartners(plan, rest, q), Keep(OnAt(plan, x), x));
    }
  }

  lemma {:induction false} JoinSwapped(plan: Plan, first: seq<Row>, second: seq<Row>)
    requires OtherTables(first, second) && plan.k <= |plan.es|
    ensures JoinAll(plan, true, second, first) == Swapped(RightJoinAll(plan, first, second))
    ensures AllMixed(RightJoinAll(plan, first, second))
    decreases |second|
  {
    if second == [] {
      assert SwapAll([]) == [];
    } else {
      var q, rest := second[|second| - 1], second[..|second| - 1];
      assert OtherTable(first, q) && forall i :: 0 <= i < |rest| ==> rest[i] == second[i];
      JoinSwapped(plan, first, rest);
      PartnersSwapped(plan, first, q);
      var ps := RightPartners(plan, first, q);
      assert Joined(plan, true, q, first) == Swapped(RightJoined(plan, first, q)) by {
        assert SwapAll([Only(q)]) == [Only(q)] && SwapAll([]) == [];
        if ps.Some? && SwapAll(ps.value) == [] { assert |ps.value| == 0; }
      }
      SwappedCat(RightJoinAll(plan, first, rest), RightJoined(plan, first, q));
    }
  }

  lemma PairSwapped(plan: Plan, x: Pairing)
    requires plan.k <= |plan.es| && (x.Both? ==> x.p.tbl != x.q.tbl)
    ensures WhereAt(plan, Swap(x)) == WhereAt(plan, x) && LineAt(plan, Swap(x)) == LineAt(plan, x)
  {
    if x.Both? { RightJoinDecides(plan, x.p, x.q); }
  }

  lemma {:induction false} WhereSwapped(plan: Plan, xs: seq<Pairing>)
    requires plan.k <= |plan.es| && Mixed(xs)
    ensures Where(plan, SwapAll(xs)) == Swapped(Where(plan, xs)) && AllMixed(Where(plan, xs))
    decreases |xs|
  {
    if xs == [] {
      assert SwapAll([]) == [];
    } else {
      var x, rest := xs[|xs| - 1], xs[..|xs| - 1];
      WhereSwapped(plan, rest);
      PairSwapped(plan, x);
      assert SwapAll(xs)[..|xs| - 1] == SwapAll(rest);
      assert Swapped(Keep(WhereAt(plan, x), x)) == Keep(WhereAt(plan, x), Swap(x)) by {
        assert SwapAll([x]) == [Swap(x)] && SwapAll([]) == [];
      }
      SwappedCat(Where(plan, rest), Keep(WhereAt(plan, x), x));
    }
  }

  lemma {:induction false} SelectSwapped(plan: Plan, xs: seq<Pairing>)
    requires plan.k <= |plan.es| && Mixed(xs)
    ensures Select(plan, SwapAll(xs)) == Select(plan, xs)
    decreases |xs|
  {
    if xs != [] {
      var x, rest := xs[|xs| - 1], xs[..|xs| - 1];
      SelectSwapped(plan, rest);
      PairSwapped(plan, x);
      assert SwapAll(xs)[..|xs| - 1] == SwapAll(rest);
    }
  }

  /** A right join is the left join of the tables turned around: same lines, same order. */
  lemma RightJoinIsSql(plan: Plan, first: seq<Row>, second: seq<Row>)
    requires plan.k <= |plan.es| && OtherTables(first, second)
    ensures Sql(plan, true, second, first) == SqlRight(plan, first, second)
  {
    JoinSwapped(plan, first, second);
    var xs := RightJoinAll(plan, first, second);
    if xs.Some? {
      WhereSwapped(plan, xs.value);
      if Where(plan, xs.value).Some? { SelectSwapped(plan, Where(plan, xs.value).value); }
    }
  }

  // ------------------------------------------- compacted conditions and items

  /** Folding makes an INT constant exactly of what is computed from such constants. */
  lemma {:induction false} FoldIntegral(n: Numerals, e: Expr)
    ensures Integral(e) <==> Fold(n, e).Fixed? && Fold(n, e).kind == LInt
    ensures Integral(Fold(n, e)) <==> Integral(e)
  {
    if e.Op? {
      FoldIntegral(n, e.l);
      FoldIntegral(n, e.r);
      FoldOpIntegral(n, e.op, Fold(n, e.l), Fold(n, e.r));
    }
  }

  lemma FoldOpIntegral(n: Numerals, op: BinOp, l: Expr, r: Expr)
    requires Integral(l) ==> l.Fixed?
    requires Integral(r) ==> r.Fixed?
    ensures FoldOp(n, op, l, r).Fixed? && FoldOp(n, op, l, r).kind == LInt
       <==> (op == Add || op == Sub || op == Mul) && Integral(l) && Integral(r)
    ensures Integral(FoldOp(n, op, l, r)) <==> (op == Add || op == Sub || op == Mul) && Integral(l) && Integral(r)
  {
  }

  /** So folding does not change whether a result is rounded for output. */
  lemma FoldRounded(n: Numerals, e: Expr)
    ensures Rounded(Fold(n, e)) <==> Rounded(e)
  {
    FoldIntegral(n, e);
  }

  lemma {:induction false} LookRounded(e: Expr, value: (nat, nat) -> Text)
    ensures Integral(Look(e, value)) == Integral(e) && Rounded(Look(e, value)) == Rounded(e)
  {
    if e.Op? {
      LookRounded(e.l, value);
      LookRounded(e.r, value);
    }
  }

  /** The select list is compacted, the items of ORDER BY in front of it are not. */
  function CompactList(n: Numerals, k: nat, es: seq<Expr>): (r: seq<Expr>)
    ensures |r| == |es| && forall i :: 0 <= i < |es| ==> r[i] == if i < k then es[i] else Fold(n, es[i])
  {
    seq(|es|, i requires 0 <= i < |es| => if i < k then es[i] else Fold(n, es[i]))
  }

  /** The plan after its ON condition and its select list have been compacted. */
  function Compacted(plan: Plan): Plan {
    plan.(on := Fold(plan.n, plan.on), es := CompactList(plan.n, plan.k, plan.es))
  }

  predicate GoodConstants(n: Numerals, e: Expr) { Literals(n, e) && Foldable(n, e) }

  /** Folding keeps the values of the select list. */
  ghost predicate ListFoldable(plan: Plan) {
    Exact(plan.n) && forall i :: plan.k <= i < |plan.es| ==> GoodConstants(plan.n, plan.es[i])
  }

  ghost predicate PlanFoldable(plan: Plan) {
    ListFoldable(plan) && GoodConstants(plan.n, plan.on)
  }

  lemma OnCompacted(plan: Plan, x: Pairing)
    requires Exact(plan.n) && GoodConstants(plan.n, plan.on)
    ensures OnAt(Compacted(plan), x) == OnAt(plan, x)
  {
    CompactedDecides(plan.n, plan.on, Values(x));
  }

  lemma {:induction false} PartnersCompacted(plan: Plan, p: Row, inner: seq<Row>)
    requires Exact(plan.n) && GoodConstants(plan.n, plan.on)
    ensures Partners(Compacted(plan), p, inner) == Partners(plan, p, inner)
    decreases |inner|
  {
    if inner != [] {
      PartnersCompacted(plan, p, inner[..|inner| - 1]);
      OnCompacted(plan, Both(p, inner[|inner| - 1]));
    }
  }

  lemma {:induction false} JoinCompacted(plan: Plan, left: bool, outer: seq<Row>, inner: seq<Row>)
    requires Exact(plan.n) && GoodConstants(plan.n, plan.on)
    ensures JoinAll(Compacted(plan), left, outer, inner) == JoinAll(plan, left, outer, inner)
    decreases |outer|
  {
    if outer != [] {
      JoinCompacted(plan, left, outer[..|outer| - 1], inner);
      PartnersCompacted(plan, outer[|outer| - 1], inner);
    }
  }

  lemma {:induction false} WhereCompacted(plan: Plan, xs: seq<Pairing>)
    ensures Where(Compacted(plan), xs) == Where(plan, xs)
    decreases |xs|
  {
    if xs != [] { WhereCompacted(plan, xs[..|xs| - 1]); }
  }

  /** A compacted item prints what the item as it was written would print. */
  lemma ItemCompacted(n: Numerals, e: Expr, value: (nat, nat) -> Text)
    requires Exact(n) && GoodConstants(n, e)
    ensures PrintedValue(n, Look(Fold(n, e), value)) == PrintedValue(n, Look(e, value))
  {
    CompactedDecides(n, e, value);
    FoldRounded(n, e);
    LookRounded(e, value);
    LookRounded(Fold(n, e), value);
  }

  lemma {:induction false} EvalAllSame(n: Numerals, es: seq<Expr>, fs: seq<Expr>)
    requires |es| == |fs| && forall i :: 0 <= i < |es| ==> PrintedValue(n, es[i]) == PrintedValue(n, fs[i])
    ensures EvalAll(n, es) == EvalAll(n, fs)
    decreases |es|
  {
    if es != [] { EvalAllSame(n, es[..|es| - 1], fs[..|fs| - 1]); }
  }

  lemma LineCompacted(plan: Plan, x: Pairing)
    requires plan.k <= |plan.es| && ListFoldable(plan)
    ensures LineAt(Compacted(plan), x) == LineAt(plan, x)
  {
    var n, k, value := plan.n, plan.k, Values(x);
    var es, fs := LookAll(Compacted(plan).es, value), LookAll(plan.es, value);
    assert es[..k] == fs[..k];
    forall i | 0 <= i < |es[k..]| ensures PrintedValue(n, es[k..][i]) == PrintedValue(n, fs[k..][i]) {
      assert GoodConstants(n, plan.es[k + i]);
      ItemCompacted(n, plan.es[k + i], value);
    }
    EvalAllSame(n, es[k..], fs[k..]);
  }

  lemma {:induction false} SelectCompacted(plan: Plan, xs: seq<Pairing>)
    requires plan.k <= |plan.es| && ListFoldable(plan)
    ensures Select(Compacted(plan), xs) == Select(plan, xs)
    decreases |xs|
  {
    if xs != [] {
      SelectCompacted(plan, xs[..|xs| - 1]);
      LineCompacted(plan, xs[|xs| - 1]);
    }
  }

  lemma ChosenCompacted(plan: Plan, xs: Option<seq<Pairing>>)
    requires plan.k <= |plan.es| && ListFoldable(plan)
    ensures Chosen(Compacted(plan), xs) == Chosen(plan, xs)
  {
    if xs.Some? {
      WhereCompacted(plan, xs.value);
      if Where(plan, xs.value).Some? { SelectCompacted(plan, Where(plan, xs.value).value); }
    }
  }

  /** Compacting the ON condition and the select list changes no result. */
  lemma SqlCompacted(plan: Plan, left: bool, outer: seq<Row>, inner: seq<Row>)
    requires plan.k <= |plan.es| && PlanFoldable(plan)
    ensures Sql(Compacted(plan), left, outer, inner) == Sql(plan, left, outer, inner)
  {
    JoinCompacted(plan, left, outer, inner);
    ChosenCompacted(plan, JoinAll(plan, left, outer, inner));
  }

  /** SELECT '' = '' shows true for every row, although the expression is null. */
  lemma ShownFolded(n: Numerals, row: Row)
    requires Exact(n)
    ensures var plan := Plan(n, Fixed(LBool, TRUE), None, 0, [Op(Eq, Fixed(LText, NULL), Fixed(LText, NULL))]);
            SqlOne(Compacted(plan), [row]) == Some([Emission([], [TRUE])])
            && SqlOne(plan, [row]) == Some([Emission([], [NULL])])
  {
    var e := Op(Eq, Fixed(LText, NULL), Fixed(LText, NULL));
    var plan := Plan(n, Fixed(LBool, TRUE), None, 0, [e]);
    FoldedNull(n);
    assert Fold(n, e) == FoldOp(n, Eq, Fixed(LText, NULL), Fixed(LText, NULL));
    assert Compacted(plan).es == [Fixed(LBool, TRUE)];
    assert Onlys([row]) == [Only(row)];
    ChosenOne(plan, Only(row));
    ChosenOne(Compacted(plan), Only(row));
    OneItem(plan, Only(row), e, NULL);
    OneItem(Compacted(plan), Only(row), Fixed(LBool, TRUE), TRUE);
  }
}

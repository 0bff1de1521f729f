/**
 The machine's items: a tree of nodes that is compacted in place and whose
 column nodes are filled from the current rows.
 */
module QueryItem {
  import opened Prelude
  import opened SqlCode
  import opened QueryExpr

  /** A stored row: the table it belongs to and its column values. */
  datatype Row = Row(tbl: nat, values: seq<Text>)

  function ValueAt(row: Row, col: nat): Text {
    if col < |row.values| then row.values[col] else NULL
  }

  // ------------------------------------------------- filling, as a function

  /** `set_column_value` with one row. */
  function SetRow(e: Expr, row: Row): Expr {
    match e
    case Slot(tbl, col, _) => if tbl == row.tbl then Slot(tbl, col, ValueAt(row, col)) else e
    case Op(op, l, r) => Op(op, SetRow(l, row), SetRow(r, row))
    case Fixed(_, _) => e
  }

  /** With two: the left row is looked at first. */
  function SetRows(e: Expr, lrow: Row, rrow: Row): Expr {
    match e
    case Slot(tbl, col, _) =>
      if tbl == lrow.tbl then Slot(tbl, col, ValueAt(lrow, col))
      else if tbl == rrow.tbl then Slot(tbl, col, ValueAt(rrow, col))
      else e
    case Op(op, l, r) => Op(op, SetRows(l, lrow, rrow), SetRows(r, lrow, rrow))
    case Fixed(_, _) => e
  }

  function SetNull(e: Expr): Expr {
    match e
    case Slot(tbl, col, _) => Slot(tbl, col, NULL)
    case Op(op, l, r) => Op(op, SetNull(l), SetNull(r))
    case Fixed(_, _) => e
  }

  /** The three ways in which the values of columns are set. */
  datatype Filling = Clear | FromRow(p: Row) | FromRows(p: Row, q: Row)

  function Filled(e: Expr, how: Filling): Expr {
    match how
    case Clear => SetNull(e)
    case FromRow(p) => SetRow(e, p)
    case FromRows(p, q) => SetRows(e, p, q)
  }

  function SlotText(tbl: nat, col: nat, text: Text, how: Filling): Text {
    match how
    case Clear => NULL
    case FromRow(p) => if tbl == p.tbl then ValueAt(p, col) else text
    case FromRows(p, q) =>
      if tbl == p.tbl then ValueAt(p, col) else if tbl == q.tbl then ValueAt(q, col) else text
  }

  /** Every slot is replaced by what a lookup says. */
  function Look(e: Expr, value: (nat, nat) -> Text): Expr {
    match e
    case Slot(tbl, col, _) => Slot(tbl, col, value(tbl, col))
    case Op(op, l, r) => Op(op, Look(l, value), Look(r, value))
    case Fixed(_, _) => e
  }

  predicate Over(e: Expr, tables: set<nat>) {
    match e
    case Slot(tbl, _, _) => tbl in tables
    case Op(_, l, r) => Over(l, tables) && Over(r, tables)
    case Fixed(_, _) => true
  }

  /** Replacing values leaves constants alone, so compacting once is compacting every time. */
  lemma {:induction false} FoldLook(n: Numerals, e: Expr, value: (nat, nat) -> Text)
    ensures Fold(n, Look(e, value)) == Look(Fold(n, e), value)
  {
    if e.Op? {
      FoldLook(n, e.l, value);
      FoldLook(n, e.r, value);
      FoldOpLook(n, e.op, Fold(n, e.l), Fold(n, e.r), value);
    }
  }

  lemma FoldOpLook(n: Numerals, op: BinOp, l: Expr, r: Expr, value: (nat, nat) -> Text)
    ensures FoldOp(n, op, Look(l, value), Look(r, value)) == Look(FoldOp(n, op, l, r), value)
  {
  }

  lemma {:induction false} LookKeeps(n: Numerals, e: Expr, value: (nat, nat) -> Text)
    ensures Literals(n, Look(e, value)) == Literals(n, e)
    ensures Foldable(n, Look(e, value)) == Foldable(n, e)
  {
    if e.Op? {
      LookKeeps(n, e.l, value);
      LookKeeps(n, e.r, value);
      FoldLook(n, e.l, value);
      FoldLook(n, e.r, value);
      GuardLook(n, e.op, Fold(n, e.l), Fold(n, e.r), value);
    }
  }

  lemma GuardLook(n: Numerals, op: BinOp, l: Expr, r: Expr, value: (nat, nat) -> Text)
    ensures Guard(n, op, Look(l, value), Look(r, value)) == Guard(n, op, l, r)
  {
  }

  /** A condition compacted before the scan decides every row as the condition itself does. */
  lemma CompactedDecides(n: Numerals, e: Expr, value: (nat, nat) -> Text)
    requires Exact(n) && Literals(n, e) && Foldable(n, e)
    ensures Eval(n, Look(Fold(n, e), value)) == Eval(n, Look(e, value))
  {
    FoldLook(n, e, value);
    LookKeeps(n, e, value);
    FoldCorrect(n, Look(e, value));
  }

  // ------------------------------------------------------- nodes on the heap

  datatype Tag = TFixed(kind: LitKind) | TSlot(tbl: nat, col: nat) | TOp(op: BinOp)

  class Node {
    var tag: Tag
    var text: Text
    var left: Node?
    var right: Node?
    ghost var repr: set<object>

    ghost predicate Valid()
      reads this, repr
      decreases repr
    {
      this in repr
      && (tag.TOp? ==>
            (left != null && right != null && left in repr && right in repr
             && left.repr <= repr && right.repr <= repr && this !in left.repr && this !in right.repr
             && left.repr !! right.repr && left.Valid() && right.Valid()))
    }

    /** The expression that the node is the root of. */
    ghost function Tree(): Expr
      requires Valid()
      reads this, repr
      decreases repr
    {
      match tag
      case TFixed(kind) => Fixed(kind, text)
      case TSlot(tbl, col) => Slot(tbl, col, text)
      case TOp(op) => Op(op, left.Tree(), right.Tree())
    }

    constructor Leaf(tag: Tag, text: Text)
      requires !tag.TOp?
      ensures Valid() && fresh(repr)
      ensures Tree() == if tag.TFixed? then Fixed(tag.kind, text) else Slot(tag.tbl, tag.col, text)
    {
      this.tag, this.text, left, right := tag, text, null, null;
      repr := {this};
    }

    /** What the stack operators build: the two topmost items under a new one. */
    constructor Apply(op: BinOp, l: Node, r: Node)
      requires l.Valid() && r.Valid() && l.repr !! r.repr
      ensures Valid() && fresh(repr - l.repr - r.repr) && Tree() == Op(op, old(l.Tree()), old(r.Tree()))
    {
      tag, text, left, right := TOp(op), NULL, l, r;
      repr := {this} + l.repr + r.repr;
    }

    /** `compact_condition`: operands first, then the node itself, which may become a constant. */
    method Compact(n: Numerals)
      requires Valid()
      modifies repr
      ensures Valid() && repr == old(repr) && Tree() == Fold(n, old(Tree()))
      decreases repr
    {
      if tag.TOp? {
        left.Compact(n);
        right.Compact(n);
        CompactSelf(n);
      }
    }

    method CompactSelf(n: Numerals)
      requires Valid() && tag.TOp?
      modifies this`tag, this`text
      ensures Valid() && Tree() == FoldOp(n, old(tag.op), old(left.Tree()), old(right.Tree()))
    {
      var op := tag.op;
      var numbers := left.tag.TFixed? && right.tag.TFixed?
                     && left.tag.kind in {LInt, LFloat} && right.tag.kind in {LInt, LFloat};
      if numbers && Arithmetic(op) {
        text := Calculated(n, op, NumberOf(n, left.text), NumberOf(n, right.text));
        tag := TFixed(if op != Div && left.tag.kind == LInt && right.tag.kind == LInt then LInt else LFloat);
      } else if numbers && Comparison(op) {
        text := BoolText(CompareNumbers(op, NumberOf(n, left.text), NumberOf(n, right.text)));
        tag := TFixed(LBool);
      } else if Comparison(op) && left.tag == TFixed(LText) && right.tag == TFixed(LText) {
        text := BoolText(CompareTexts(op, left.text, right.text));
        tag := TFixed(LBool);
      } else if (op == And || op == Or) && left.tag == TFixed(LBool) && right.tag == TFixed(LBool) {
        var a, b := n.truth(left.text), n.truth(right.text);
        text := BoolText(if op == And then a && b else a || b);
        tag := TFixed(LBool);
      }
    }

    /** `set_column_value` with one row or two, and `set_column_value_null`. */
    method Fill(how: Filling)
      requires Valid()
      modifies repr
      ensures Valid() && repr == old(repr) && Tree() == Filled(old(Tree()), how)
      decreases repr
    {
      match tag
      case TFixed(_) =>
      case TSlot(tbl, col) => text := SlotText(tbl, col, text, how);
      case TOp(_) =>
        left.Fill(how);
        right.Fill(how);
    }

    /** The value field of an item; operators have none. */
    function HeldText(): Text
      reads this
    {
      if tag.TOp? then NULL else text
    }

    /** Whether `output_expr_list` rounds the result: operators of arithmetic and FLOAT constants. */
    predicate Rounds()
      reads this
    {
      (tag.TOp? && Arithmetic(tag.op)) || tag == TFixed(LFloat)
    }

    /** `exec_condition`: reads the tree, changes nothing. */
    method Execute(n: Numerals) returns (res: Res)
      requires Valid()
      ensures res == Eval(n, Tree())
      decreases repr
    {
      if !tag.TOp? { return Val(text); }
      var op := tag.op;
      res := left.Execute(n);
      if res.Err? || res.text == NULL { return; }
      if (op == And && !n.truth(res.text)) || (op == Or && n.truth(res.text)) { return; }
      var a := res.text;
      res := right.Execute(n);
      if res.Err? || res.text == NULL { return; }
      if op == And {
        if n.truth(res.text) { res := Val(TRUE); }
      } else if op == Or {
        if !n.truth(res.text) { res := Val(FALSE); }
      } else if Arithmetic(op) {
        res := Calculate(n, op, a, res.text);
      } else {
        res := Val(BoolText(Decide(n, op, a, res.text)));
      }
    }
  }

  /** A node for every part of an expression. */
  method Build(e: Expr) returns (node: Node)
    ensures node.Valid() && fresh(node.repr) && node.Tree() == e
    decreases e
  {
    if e.Fixed? {
      node := new Node.Leaf(TFixed(e.kind), e.text);
    } else if e.Slot? {
      node := new Node.Leaf(TSlot(e.tbl, e.col), e.value);
    } else {
      var a := Build(e.l);
      var b := Build(e.r);
      node := new Node.Apply(e.op, a, b);
    }
  }

  /** A list of items that share no nodes. */
  class ItemList {
    var nodes: seq<Node>
    ghost var repr: set<object>

    ghost predicate Valid()
      reads this, repr
    {
      this in repr && AllIn() && Apart()
    }

    ghost predicate AllIn()
      reads this, repr
    {
      forall i :: 0 <= i < |nodes| ==> nodes[i] in repr && nodes[i].repr <= repr && this !in nodes[i].repr && nodes[i].Valid()
    }

    ghost predicate Apart()
      reads this, repr
      requires AllIn()
    {
      forall i, j :: 0 <= i < j < |nodes| ==> nodes[i].repr !! nodes[j].repr
    }

    /** The expression of item `i`. */
    ghost function TreeAt(i: int): Expr
      requires AllIn() && 0 <= i < |nodes|
      reads this, repr
    {
      nodes[i].Tree()
    }

    /** The expressions of the first `n` items. */
    ghost function TreesTo(n: nat): (r: seq<Expr>)
      requires AllIn() && n <= |nodes|
      reads this, repr
      ensures |r| == n && forall i :: 0 <= i < n ==> r[i] == TreeAt(i)
    {
      if n == 0 then [] else TreesTo(n - 1) + [TreeAt(n - 1)]
    }

    ghost function Trees(): (r: seq<Expr>)
      requires Valid()
      reads this, repr
      ensures |r| == |nodes| && forall i :: 0 <= i < |r| ==> r[i] == TreeAt(i)
    {
      TreesTo(|nodes|)
    }

    constructor ()
      ensures Valid() && fresh(repr) && nodes == [] && Trees() == []
    {
      nodes, repr := [], {this};
    }

    method Add(node: Node)
      requires Valid() && node.Valid() && node.repr !! repr
      modifies this
      ensures Valid() && repr == old(repr) + old(node.repr) && Trees() == old(Trees()) + [old(node.Tree())]
    {
      ghost var was, e := Trees(), node.Tree();
      nodes := nodes + [node];
      repr := repr + node.repr;
      assert forall i :: 0 <= i < |was| ==> TreeAt(i) == was[i];
      assert Trees() == was + [e];
    }

    /** Fill all items. */
    method FillAll(how: Filling)
      requires Valid()
      modifies repr
      ensures Valid() && repr == old(repr) && nodes == old(nodes)
      ensures forall i :: 0 <= i < |nodes| ==> TreeAt(i) == Filled(old(TreeAt(i)), how)
    {
      for i := 0 to |nodes|
        invariant Valid() && repr == old(repr) && nodes == old(nodes)
        invariant forall j :: 0 <= j < i ==> TreeAt(j) == Filled(old(TreeAt(j)), how)
        invariant forall j :: i <= j < |nodes| ==> TreeAt(j) == old(TreeAt(j))
      {
        FillOne(i, how);
      }
    }

    method FillOne(i: nat, how: Filling)
      requires Valid() && i < |nodes|
      modifies nodes[i].repr
      ensures Valid() && repr == old(repr) && nodes == old(nodes)
      ensures TreeAt(i) == Filled(old(TreeAt(i)), how)
      ensures forall j :: 0 <= j < |nodes| && j != i ==> TreeAt(j) == old(TreeAt(j))
    {
      assert forall j :: 0 <= j < |nodes| && j != i ==> nodes[j].repr !! nodes[i].repr;
      nodes[i].Fill(how);
    }
  }
}

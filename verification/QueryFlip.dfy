/**
 `make_query`: the tables of a FROM clause as a doubly linked list of items, and
 the turn that makes a left join of the last right join.
 */
module QueryFlip {
  import opened Prelude
  import opened QueryItem

  datatype Action = NoAction | InnerJoin | LeftJoin | RightJoin

  /** Seen from the other side, a right join is a left join and a left join is an inner one. */
  function Turned(a: Action): Action {
    if a == LeftJoin then InnerJoin else if a == RightJoin then LeftJoin else a
  }

  /** A table of the query: how it is joined with the one before it, and on which condition. */
  class TableItem {
    const rows: seq<Row>
    var action: Action
    var on: Option<Node>
    var prev: TableItem?
    var next: TableItem?

    constructor (rows: seq<Row>, action: Action, on: Option<Node>)
      ensures this.rows == rows && this.action == action && this.on == on && prev == null && next == null
    {
      this.rows, this.action, this.on, prev, next := rows, action, on, null, null;
    }
  }

  predicate AllDifferent(list: seq<TableItem>) {
    forall i, j :: 0 <= i < j < |list| ==> list[i] != list[j]
  }

  /** The item at an index, or none. */
  function At(list: seq<TableItem>, i: int): TableItem? {
    if 0 <= i < |list| then list[i] else null
  }

  /** Item `i` is linked to its neighbours in the list. */
  predicate LinkedAt(list: seq<TableItem>, i: int)
    requires 0 <= i < |list|
    reads list[i]
  {
    list[i].prev == At(list, i - 1) && list[i].next == At(list, i + 1)
  }

  /** The list is spelled by the prev and next fields of its items. */
  predicate Linked(list: seq<TableItem>)
    reads list
  {
    AllDifferent(list) && forall i :: 0 <= i < |list| ==> LinkedAt(list, i)
  }

  function ReverseList(list: seq<TableItem>): (r: seq<TableItem>)
    ensures |r| == |list| && forall i :: 0 <= i < |r| ==> r[i] == list[|list| - 1 - i]
  {
    seq(|list|, i requires 0 <= i < |list| => list[|list| - 1 - i])
  }

  /** Collect the items from `curr` back to the head, as `item_list` does. */
  method Collect(curr: TableItem, ghost list: seq<TableItem>) returns (back: seq<TableItem>)
    requires Linked(list) && list != [] && curr == list[|list| - 1]
    ensures back == ReverseList(list)
  {
    back := [];
    var each: TableItem? := curr;
    ghost var i := |list|;
    while each != null
      invariant 0 <= i <= |list| && each == At(list, i - 1) && |back| == |list| - i
      invariant forall j :: 0 <= j < |back| ==> back[j] == list[|list| - 1 - j]
      decreases i
    {
      assert LinkedAt(list, i - 1);
      back := back + [each];
      each := each.prev;
      i := i - 1;
    }
  }

  /** Link the items in the order of the list. */
  method Relink(list: seq<TableItem>)
    requires AllDifferent(list) && list != []
    modifies list
    ensures Linked(list)
    ensures forall i :: 0 <= i < |list| ==> list[i].action == old(list[i].action) && list[i].on == old(list[i].on)
  {
    for i := 1 to |list|
      invariant forall j :: 0 < j < i ==> list[j].prev == list[j - 1]
      invariant forall j :: 0 <= j < i - 1 ==> list[j].next == list[j + 1]
      invariant forall j :: 0 <= j < |list| ==> list[j].action == old(list[j].action) && list[j].on == old(list[j].on)
    {
      list[i - 1].next := list[i];
      list[i].prev := list[i - 1];
    }
    list[0].prev := null;
    list[|list| - 1].next := null;
    forall i | 0 <= i < |list| ensures LinkedAt(list, i) { }
  }

  /** Move actions and conditions one item to the right; the head has neither. */
  method ShiftJoins(list: seq<TableItem>)
    requires AllDifferent(list) && list != []
    modifies list
    ensures old(Linked(list)) ==> Linked(list)
    ensures list[0].action == NoAction && list[0].on == None
    ensures forall i :: 0 < i < |list| ==> list[i].action == Turned(old(list[i - 1].action)) && list[i].on == old(list[i - 1].on)
  {
    var i := |list| - 1;
    while i >= 1
      invariant 0 <= i < |list|
      invariant forall j :: 0 <= j < |list| ==> list[j].prev == old(list[j].prev) && list[j].next == old(list[j].next)
      invariant forall j :: 0 <= j <= i ==> list[j].action == old(list[j].action) && list[j].on == old(list[j].on)
      invariant forall j :: i < j < |list| ==> list[j].action == Turned(old(list[j - 1].action)) && list[j].on == old(list[j - 1].on)
    {
      list[i].action := Turned(list[i - 1].action);
      list[i].on := list[i - 1].on;
      i := i - 1;
    }
    list[0].action, list[0].on := NoAction, None;
    if old(Linked(list)) {
      forall i | 0 <= i < |list| ensures LinkedAt(list, i) { assert old(LinkedAt(list, i)); }
    }
  }

  /**
   Turn the list around at its end, which is joined to the right: the last table comes first,
   and every join is attached to the table that now stands on its right.
   */
  method Turn(tail: TableItem, ghost list: seq<TableItem>) returns (turned: seq<TableItem>)
    requires Linked(list) && list != [] && tail == list[|list| - 1]
    modifies list
    ensures turned == ReverseList(list) && Linked(turned)
    ensures turned[0].action == NoAction && turned[0].on == None
    ensures forall i :: 0 < i < |turned| ==>
              turned[i].action == Turned(old(list[|list| - i].action)) && turned[i].on == old(list[|list| - i].on)
  {
    turned := Collect(tail, list);
    assert AllDifferent(turned);
    Relink(turned);
    ShiftJoins(turned);
  }

  /** Two tables: the head and the tail of the list that is executed. */
  method MakeQuery(head: TableItem, tail: TableItem) returns (first: TableItem, second: TableItem)
    requires Linked([head, tail]) && tail.action != NoAction && head.action == NoAction
    modifies head, tail
    ensures Linked([first, second])
    ensures old(tail.action) != RightJoin ==>
              first == head && second == tail && second.action == old(tail.action) && second.on == old(tail.on)
    ensures old(tail.action) == RightJoin ==>
              first == tail && second == head && second.action == LeftJoin && second.on == old(tail.on)
  {
    ghost var list := [head, tail];
    assert LinkedAt(list, 0) && LinkedAt(list, 1);
    var curr: TableItem? := tail;
    ghost var i := 1;
    while curr != null && curr.action != RightJoin
      invariant -1 <= i <= 1 && curr == At(list, i) && (i < 1 ==> tail.action != RightJoin)
      decreases i
    {
      if i >= 0 { assert LinkedAt(list, i); }
      curr := curr.prev;
      i := i - 1;
    }
    if curr != null {
      assert curr == tail;
      var turned := Turn(curr, list);
      first, second := turned[0], turned[1];
      assert turned == [first, second];
    } else {
      first, second := head, tail;
    }
  }
}

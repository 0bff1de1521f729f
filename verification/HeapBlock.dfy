/** One data block: rows behind a header, the live ones in a doubly linked list of positions. */
module HeapBlock {
  import opened Prelude

  const DATA_HDR_SZ: nat := 24
  const ROW_HDR_SZ: nat := 6

  /** A stored row with its size, prev and next fields; position 0 stands for none. */
  datatype Cell = Cell(size: nat, prev: nat, next: nat, body: seq<Byte>)

  /** `prevSib` and `nextSib` are block offsets, NIL for the invalid reference. */
  datatype Block = Block(rem: nat, prevSib: int, nextSib: int, head: nat, tail: nat, cells: map<nat, Cell>)

  const NIL: int := -1
  const EMPTY_BLOCK: Block := Block(BLOCK_SZ - DATA_HDR_SZ, NIL, NIL, 0, 0, map[])

  function Nth(live: seq<nat>, i: int): nat {
    if 0 <= i < |live| then live[i] else 0
  }

  predicate Increasing(live: seq<nat>) {
    forall i, j :: 0 <= i < j < |live| ==> live[i] < live[j]
  }

  /** Rows lie between the header and the free space and do not overlap. */
  predicate Packed(b: Block) {
    && b.rem <= BLOCK_SZ - DATA_HDR_SZ
    && (forall p :: p in b.cells ==>
          DATA_HDR_SZ <= p && b.cells[p].size >= ROW_HDR_SZ && p + b.cells[p].size <= BLOCK_SZ - b.rem)
    && (forall p, q :: p in b.cells && q in b.cells && p < q ==> p + b.cells[p].size <= q)
  }

  /** The row at `i` is linked to its neighbours in the list. */
  predicate LinkedAt(b: Block, live: seq<nat>, i: int) {
    0 <= i < |live| && live[i] in b.cells
    && b.cells[live[i]].prev == Nth(live, i - 1) && b.cells[live[i]].next == Nth(live, i + 1)
  }

  /** Head, tail, prev and next spell exactly the live rows. */
  predicate Spelled(b: Block, live: seq<nat>) {
    && b.head == Nth(live, 0) && b.tail == Nth(live, |live| - 1)
    && (forall i :: 0 <= i < |live| ==> live[i] in b.cells)
    && (forall i :: 0 <= i < |live| ==> LinkedAt(b, live, i))
  }

  predicate BlockOk(b: Block, live: seq<nat>) {
    Packed(b) && Increasing(live) && Spelled(b, live)
  }

  /** A row after `p` has been put behind the tail. */
  function Appended(b: Block, p: nat, size: nat, body: seq<Byte>, q: nat): Cell
    requires q == p || q in b.cells
  {
    if q == p then Cell(size, b.tail, 0, body)
    else if q == b.tail && b.tail != 0 then b.cells[q].(next := p)
    else b.cells[q]
  }

  /** Put a row behind all others and link it to the tail. */
  function PutRow(b: Block, size: nat, body: seq<Byte>): Block
    requires size <= b.rem <= BLOCK_SZ
  {
    var p := BLOCK_SZ - b.rem;
    Block(b.rem - size, b.prevSib, b.nextSib, if b.head == 0 then p else b.head, p,
          map q | q in b.cells.Keys + {p} :: Appended(b, p, size, body, q))
  }

  /** A row after `p` has been bypassed. */
  function Bypassed(b: Block, p: nat, q: nat): Cell
    requires p in b.cells && q in b.cells
  {
    var c, prev, next := b.cells[q], b.cells[p].prev, b.cells[p].next;
    Cell(c.size, if next != 0 && q == next then prev else c.prev, if prev != 0 && q == prev then next else c.next, c.body)
  }

  /** Take a row out of the list; its bytes stay where they are. */
  function Unlink(b: Block, p: nat): Block
    requires p in b.cells
  {
    Block(b.rem, b.prevSib, b.nextSib,
          if b.head == p then b.cells[p].next else b.head,
          if b.tail == p then b.cells[p].prev else b.tail,
          map q | q in b.cells :: Bypassed(b, p, q))
  }

  lemma PutRowOk(b: Block, live: seq<nat>, size: nat, body: seq<Byte>)
    requires BlockOk(b, live) && ROW_HDR_SZ <= size <= b.rem
    ensures var p := BLOCK_SZ - b.rem;
            var c := PutRow(b, size, body);
            BlockOk(c, live + [p]) && p !in b.cells && c.cells.Keys == b.cells.Keys + {p}
            && c.cells[p].body == body && c.rem == b.rem - size && c.prevSib == b.prevSib && c.nextSib == b.nextSib
    ensures forall q :: q in b.cells ==> SameRow(PutRow(b, size, body), b, q)
  {
    PutPacked(b, size, body);
    PutSpelled(b, live, size, body);
    PutElsewhere(b, size, body);
  }

  lemma PutElsewhere(b: Block, size: nat, body: seq<Byte>)
    requires Packed(b) && ROW_HDR_SZ <= size <= b.rem
    ensures var p, c := BLOCK_SZ - b.rem, PutRow(b, size, body);
            p !in b.cells && c.cells.Keys == b.cells.Keys + {p} && c.cells[p].body == body
    ensures forall q :: q in b.cells ==> SameRow(PutRow(b, size, body), b, q)
  {
  }

  lemma PutSpelled(b: Block, live: seq<nat>, size: nat, body: seq<Byte>)
    requires BlockOk(b, live) && ROW_HDR_SZ <= size <= b.rem
    ensures var l := live + [BLOCK_SZ - b.rem]; Increasing(l) && Spelled(PutRow(b, size, body), l)
  {
    assert forall i :: 0 <= i < |live| ==> live[i] in b.cells;
    PutLinks(b, live, size, body);
    if live != [] { assert live[0] in b.cells; }
  }

  lemma PutLinks(b: Block, live: seq<nat>, size: nat, body: seq<Byte>)
    requires BlockOk(b, live) && ROW_HDR_SZ <= size <= b.rem
    ensures var l := live + [BLOCK_SZ - b.rem];
            Increasing(l) && forall i :: 0 <= i < |l| ==> LinkedAt(PutRow(b, size, body), l, i)
  {
    var c, l := PutRow(b, size, body), live + [BLOCK_SZ - b.rem];
    assert forall i :: 0 <= i < |live| ==> live[i] in b.cells;
    forall i | 0 <= i < |l|
      ensures LinkedAt(c, l, i)
    {
      AppendedLinks(b, live, size, body, i);
    }
  }

  lemma PutPacked(b: Block, size: nat, body: seq<Byte>)
    requires Packed(b) && ROW_HDR_SZ <= size <= b.rem
    ensures Packed(PutRow(b, size, body))
  {
  }

  lemma AppendedLinks(b: Block, live: seq<nat>, size: nat, body: seq<Byte>, i: nat)
    requires BlockOk(b, live) && ROW_HDR_SZ <= size <= b.rem && i <= |live|
    ensures var p := BLOCK_SZ - b.rem;
            var l := live + [p];
            (i < |live| ==> l[i] in b.cells && l[i] != p)
            && Appended(b, p, size, body, l[i]).prev == Nth(l, i - 1) && Appended(b, p, size, body, l[i]).next == Nth(l, i + 1)
  {
    if i < |live| {
      assert live[i] in b.cells && LinkedAt(b, live, i);
      if i < |live| - 1 { assert live[i] < live[|live| - 1]; }
    }
  }

  /** Size and contents of a row are as before. */
  predicate SameRow(c: Block, b: Block, q: nat) {
    q in c.cells && q in b.cells && c.cells[q].size == b.cells[q].size && c.cells[q].body == b.cells[q].body
  }

  function Without<T>(s: seq<T>, k: nat): (r: seq<T>)
    requires k < |s|
    ensures |r| == |s| - 1
  {
    s[..k] + s[k + 1..]
  }

  lemma UnlinkOk(b: Block, live: seq<nat>, k: nat)
    requires BlockOk(b, live) && k < |live|
    ensures live[k] in b.cells
    ensures var c := Unlink(b, live[k]);
            BlockOk(c, Without(live, k)) && c.cells.Keys == b.cells.Keys
            && c.rem == b.rem && c.prevSib == b.prevSib && c.nextSib == b.nextSib
    ensures forall q :: q in b.cells ==> SameRow(Unlink(b, live[k]), b, q)
  {
    assert LinkedAt(b, live, k);
    UnlinkPacked(b, live[k]);
    WithoutIncreasing(live, k);
    UnlinkSpelled(b, live, k);
  }

  lemma WithoutIncreasing(live: seq<nat>, k: nat)
    requires Increasing(live) && k < |live|
    ensures Increasing(Without(live, k))
  {
    var l := Without(live, k);
    assert forall i :: 0 <= i < |l| ==> l[i] == live[Index(k, i)];
  }

  lemma UnlinkSpelled(b: Block, live: seq<nat>, k: nat)
    requires BlockOk(b, live) && k < |live|
    ensures live[k] in b.cells && Spelled(Unlink(b, live[k]), Without(live, k))
  {
    var l := Without(live, k);
    assert LinkedAt(b, live, k);
    var c := Unlink(b, live[k]);
    assert live[0] in b.cells;
    forall i | 0 <= i < |l|
      ensures LinkedAt(c, l, i)
    {
      assert LinkedAt(b, live, Index(k, i));
      PrevLinked(b, live, k, i);
      NextLinked(b, live, k, i);
    }
    assert forall i :: 0 <= i < |l| ==> LinkedAt(c, l, i) && l[i] in c.cells;
    EndsAfter(b, live, k);
  }

  lemma UnlinkPacked(b: Block, p: nat)
    requires Packed(b) && p in b.cells
    ensures Packed(Unlink(b, p))
  {
  }

  /** Where the row that is now at `i` was before row `k` went. */
  function Index(k: nat, i: nat): nat {
    if i < k then i else i + 1
  }

  lemma Neighbours(live: seq<nat>, k: nat, i: nat)
    requires k < |live| && i < |live| - 1
    ensures var l, j := Without(live, k), Index(k, i);
            l[i] == live[j]
            && Nth(l, i - 1) == Nth(live, if i == k then k - 1 else j - 1)
            && Nth(l, i + 1) == Nth(live, if i + 1 == k then k + 1 else j + 1)
  {
  }

  /** No two live rows have the same position, and none has position 0. */
  lemma Distinct(live: seq<nat>, i: nat, j: int)
    requires Increasing(live) && i < |live| && (live != [] ==> live[0] > 0)
    ensures live[i] == Nth(live, j) <==> i == j
  {
    if 0 <= j < |live| {
      if i < j { assert live[i] < live[j]; }
      if j < i { assert live[j] < live[i]; }
    } else if i > 0 {
      assert live[0] < live[i];
    }
  }

  lemma PrevLinked(b: Block, live: seq<nat>, k: nat, i: nat)
    requires Increasing(live) && k < |live| && i < |live| - 1 && live[0] > 0
    requires LinkedAt(b, live, k) && LinkedAt(b, live, Index(k, i))
    ensures var l := Without(live, k);
            live[k] in b.cells && l[i] in b.cells && Bypassed(b, live[k], l[i]).prev == Nth(l, i - 1)
  {
    var j := Index(k, i);
    Distinct(live, j, k + 1);
    Neighbours(live, k, i);
  }

  lemma NextLinked(b: Block, live: seq<nat>, k: nat, i: nat)
    requires Increasing(live) && k < |live| && i < |live| - 1 && live[0] > 0
    requires LinkedAt(b, live, k) && LinkedAt(b, live, Index(k, i))
    ensures var l := Without(live, k);
            live[k] in b.cells && l[i] in b.cells && Bypassed(b, live[k], l[i]).next == Nth(l, i + 1)
  {
    var j := Index(k, i);
    Distinct(live, j, k - 1);
    Neighbours(live, k, i);
  }

  lemma EndsAfter(b: Block, live: seq<nat>, k: nat)
    requires BlockOk(b, live) && k < |live|
    ensures var l := Without(live, k);
            live[k] in b.cells
            && (if b.head == live[k] then b.cells[live[k]].next else b.head) == Nth(l, 0)
            && (if b.tail == live[k] then b.cells[live[k]].prev else b.tail) == Nth(l, |l| - 1)
  {
    assert LinkedAt(b, live, k);
    if k > 0 { assert live[0] < live[k]; }
    if k + 1 < |live| { assert live[k] < live[|live| - 1]; }
  }
}

/** The rows of a table: data blocks chained by sibling offsets, and the scan over them. */
module HeapFile {
  import opened Prelude
  import opened HeapBlock

  /** A row, or a position of the data iterator. */
  datatype Place = Place(position: int, offset: int)

  type Blocks = map<int, Block>

  function Before(chain: seq<int>, i: int): int {
    if 0 < i <= |chain| then chain[i - 1] else NIL
  }

  function After(chain: seq<int>, i: int): int {
    if 0 <= i && i + 1 < |chain| then chain[i + 1] else NIL
  }

  /** Block `i` of the chain holds its rows and knows its neighbours. */
  predicate ChainedAt(blocks: Blocks, chain: seq<int>, lists: seq<seq<nat>>, i: int) {
    0 <= i < |chain| && |lists| == |chain| && chain[i] in blocks
    && BlockOk(blocks[chain[i]], lists[i])
    && blocks[chain[i]].prevSib == Before(chain, i) && blocks[chain[i]].nextSib == After(chain, i)
  }

  predicate Rising(chain: seq<int>, bound: int) {
    (forall i, j :: 0 <= i < j < |chain| ==> chain[i] < chain[j])
    && forall i :: 0 <= i < |chain| ==> 0 <= chain[i] < bound
  }

  predicate Chained(blocks: Blocks, chain: seq<int>, lists: seq<seq<nat>>) {
    |lists| == |chain| && forall i :: 0 <= i < |chain| ==> ChainedAt(blocks, chain, lists, i)
  }

  function Places(offset: int, live: seq<nat>): (r: seq<Place>)
    ensures |r| == |live|
  {
    seq(|live|, i requires 0 <= i < |live| => Place(live[i], offset))
  }

  /** All live rows, block by block. */
  function Rows(chain: seq<int>, lists: seq<seq<nat>>): seq<Place>
    requires |lists| == |chain|
  {
    if chain == [] then []
    else Rows(chain[..|chain| - 1], lists[..|chain| - 1]) + Places(chain[|chain| - 1], lists[|chain| - 1])
  }

  lemma RowsNext(chain: seq<int>, lists: seq<seq<nat>>, i: nat)
    requires |lists| == |chain| && i < |chain|
    ensures Rows(chain[..i + 1], lists[..i + 1]) == Rows(chain[..i], lists[..i]) + Places(chain[i], lists[i])
  {
    assert chain[..i + 1][..i] == chain[..i] && lists[..i + 1][..i] == lists[..i];
  }

  lemma PlacesSnoc(offset: int, live: seq<nat>, p: nat)
    ensures Places(offset, live + [p]) == Places(offset, live) + [Place(p, offset)]
  {
  }

  // ---------------------------------------------------------------- scanning

  /**
   The fields of the row at a position.  Position 0 is the block's own header: its size field
   are the upper bytes of the free space, its next field those of the previous sibling.
   */
  function SizeField(b: Block, p: int): int {
    if p in b.cells then b.cells[p].size else 0
  }

  function NextField(b: Block, p: int): int {
    if p in b.cells then b.cells[p].next else if b.prevSib == NIL then -32768 else 0
  }

  function Begin(blocks: Blocks, root: int): Place {
    if root in blocks then Place(blocks[root].head, root) else Place(-1, NIL)
  }

  function End(blocks: Blocks, last: int): Place {
    if last in blocks then Place(blocks[last].tail + SizeField(blocks[last], blocks[last].tail), last) else Place(-1, NIL)
  }

  /** `iterator2::operator++` */
  function Step(blocks: Blocks, it: Place): Place
    requires it.offset in blocks
  {
    var b := blocks[it.offset];
    var next := NextField(b, it.position);
    if next != 0 then Place(next, it.offset)
    else if b.nextSib == NIL then Place(b.tail + SizeField(b, b.tail), it.offset)
    else if b.nextSib in blocks then Place(blocks[b.nextSib].head, b.nextSib)
    else Place(-1, NIL)
  }

  /** Only the last block may have lost all its rows. */
  predicate OnlyLastEmpty(lists: seq<seq<nat>>) {
    forall i :: 0 <= i < |lists| - 1 ==> lists[i] != []
  }

  /** Where a scan enters block `i`: at a live row exactly if there is one, at the end exactly if the last block is empty. */
  lemma EnterBlock(blocks: Blocks, chain: seq<int>, lists: seq<seq<nat>>, i: nat, bound: int)
    requires Chained(blocks, chain, lists) && Rising(chain, bound) && i < |chain|
    ensures chain[i] in blocks && chain[|chain| - 1] in blocks
    ensures var at := Place(blocks[chain[i]].head, chain[i]);
            (lists[i] != [] <==> at.position in lists[i])
            && (lists[i] != [] ==> at.position == lists[i][0])
            && (at == End(blocks, chain[|chain| - 1]) <==> i == |chain| - 1 && lists[i] == [])
  {
    assert ChainedAt(blocks, chain, lists, i) && ChainedAt(blocks, chain, lists, |chain| - 1);
    var b, live := blocks[chain[i]], lists[i];
    if live != [] {
      assert live[0] in b.cells && live[|live| - 1] in b.cells;
      assert b.head == live[0];
      if |live| > 1 { assert live[0] < live[|live| - 1]; }
    } else if i == |chain| - 1 {
      assert 0 !in b.cells;
    } else {
      assert chain[i] < chain[|chain| - 1];
    }
  }

  /** One step of the iterator from a live row. */
  lemma StepFrom(blocks: Blocks, chain: seq<int>, lists: seq<seq<nat>>, i: nat, k: nat, bound: int)
    requires Chained(blocks, chain, lists) && Rising(chain, bound) && i < |chain| && k < |lists[i]|
    ensures chain[i] in blocks && chain[|chain| - 1] in blocks
    ensures var at := Place(lists[i][k], chain[i]);
            at != End(blocks, chain[|chain| - 1])
            && (k + 1 < |lists[i]| ==> Step(blocks, at) == Place(lists[i][k + 1], chain[i]))
            && (k + 1 == |lists[i]| && i + 1 < |chain| ==>
                  chain[i + 1] in blocks && Step(blocks, at) == Place(blocks[chain[i + 1]].head, chain[i + 1]))
            && (k + 1 == |lists[i]| && i + 1 == |chain| ==> Step(blocks, at) == End(blocks, chain[|chain| - 1]))
  {
    assert ChainedAt(blocks, chain, lists, i) && ChainedAt(blocks, chain, lists, |chain| - 1);
    var b, live := blocks[chain[i]], lists[i];
    assert LinkedAt(b, live, k);
    if k + 1 < |live| { assert live[k + 1] in b.cells; }
    if i + 1 < |chain| { assert ChainedAt(blocks, chain, lists, i + 1); }
    if i == |chain| - 1 {
      assert live[|live| - 1] in b.cells && b.tail == live[|live| - 1];
      if k < |live| - 1 { assert live[k] < live[|live| - 1]; }
    }
  }

  // ----------------------------------------------------------- whole scans

  function StepSafe(blocks: Blocks, it: Place): Place {
    if it.offset in blocks then Step(blocks, it) else it
  }

  /** Where the iterator is after `n` steps, and the places it has visited before. */
  function Walk(blocks: Blocks, it: Place, n: nat): Place {
    if n == 0 then it else StepSafe(blocks, Walk(blocks, it, n - 1))
  }

  function Trail(blocks: Blocks, it: Place, n: nat): (r: seq<Place>)
    ensures |r| == n
  {
    if n == 0 then [] else Trail(blocks, it, n - 1) + [Walk(blocks, it, n - 1)]
  }

  lemma {:induction false} WalkOn(blocks: Blocks, it: Place, a: nat, b: nat)
    ensures Walk(blocks, it, a + b) == Walk(blocks, Walk(blocks, it, a), b)
    ensures Trail(blocks, it, a + b) == Trail(blocks, it, a) + Trail(blocks, Walk(blocks, it, a), b)
    decreases b
  {
    if b > 0 {
      WalkOn(blocks, it, a, b - 1);
    } else {
      assert Trail(blocks, it, a) + [] == Trail(blocks, it, a);
    }
  }

  /** Where a scan enters block `i`. */
  function Entry(blocks: Blocks, chain: seq<int>, i: nat): Place
    requires i < |chain|
  {
    if chain[i] in blocks then Place(blocks[chain[i]].head, chain[i]) else Place(-1, NIL)
  }

  /** Where it goes behind the last row of block `i`. */
  function Exit(blocks: Blocks, chain: seq<int>, i: nat): Place
    requires i < |chain|
  {
    if i + 1 < |chain| then Entry(blocks, chain, i + 1) else End(blocks, chain[i])
  }

  /** Through the first `k` rows of a block. */
  lemma {:induction false} WalkBlock(blocks: Blocks, chain: seq<int>, lists: seq<seq<nat>>, i: nat, k: nat, bound: int)
    requires Chained(blocks, chain, lists) && Rising(chain, bound) && i < |chain| && lists[i] != [] && k <= |lists[i]|
    ensures Trail(blocks, Entry(blocks, chain, i), k) == Places(chain[i], lists[i][..k])
    ensures Walk(blocks, Entry(blocks, chain, i), k)
         == if k < |lists[i]| then Place(lists[i][k], chain[i]) else Exit(blocks, chain, i)
    decreases k
  {
    EnterBlock(blocks, chain, lists, i, bound);
    if k == 0 {
      assert lists[i][..0] == [];
    } else {
      WalkBlock(blocks, chain, lists, i, k - 1, bound);
      StepFrom(blocks, chain, lists, i, k - 1, bound);
      assert lists[i][..k] == lists[i][..k - 1] + [lists[i][k - 1]];
      PlacesSnoc(chain[i], lists[i][..k - 1], lists[i][k - 1]);
    }
  }

  /** Through all blocks before block `i`, if none of them is empty. */
  lemma {:induction false} WalkBlocks(blocks: Blocks, chain: seq<int>, lists: seq<seq<nat>>, i: nat, bound: int)
    requires Chained(blocks, chain, lists) && Rising(chain, bound) && i < |chain|
    requires forall j :: 0 <= j < i ==> lists[j] != []
    ensures var seen := Rows(chain[..i], lists[..i]);
            Trail(blocks, Entry(blocks, chain, 0), |seen|) == seen
            && Walk(blocks, Entry(blocks, chain, 0), |seen|) == Entry(blocks, chain, i)
    decreases i
  {
    if i == 0 {
      assert chain[..0] == [] && lists[..0] == [];
    } else {
      var seen := Rows(chain[..i - 1], lists[..i - 1]);
      WalkBlocks(blocks, chain, lists, i - 1, bound);
      WalkBlock(blocks, chain, lists, i - 1, |lists[i - 1]|, bound);
      assert lists[i - 1][..|lists[i - 1]|] == lists[i - 1];
      WalkOn(blocks, Entry(blocks, chain, 0), |seen|, |lists[i - 1]|);
      RowsNext(chain, lists, i - 1);
    }
  }

  lemma {:induction false} LivePlaces(blocks: Blocks, chain: seq<int>, lists: seq<seq<nat>>, i: nat, m: nat)
    requires Chained(blocks, chain, lists) && i <= |chain| && m < |Rows(chain[..i], lists[..i])|
    ensures Rows(chain[..i], lists[..i])[m].position >= DATA_HDR_SZ
    ensures Rows(chain[..i], lists[..i])[m].offset in blocks
    decreases i
  {
    if i > 0 {
      RowsNext(chain, lists, i - 1);
      var front := Rows(chain[..i - 1], lists[..i - 1]);
      assert ChainedAt(blocks, chain, lists, i - 1);
      if m < |front| {
        LivePlaces(blocks, chain, lists, i - 1, m);
      } else {
        assert lists[i - 1][m - |front|] in blocks[chain[i - 1]].cells;
      }
    }
  }

  /** The loop from begin to end visits exactly these rows. */
  ghost predicate Scanned(blocks: Blocks, begin: Place, end: Place, rows: seq<Place>) {
    Trail(blocks, begin, |rows|) == rows && Walk(blocks, begin, |rows|) == end
    && forall m :: 0 <= m < |rows| ==> rows[m] != end
  }

  lemma {:induction false} RowsPrefix(chain: seq<int>, lists: seq<seq<nat>>, i: nat)
    requires |lists| == |chain| && i <= |chain|
    ensures Rows(chain[..i], lists[..i]) <= Rows(chain, lists)
    decreases |chain| - i
  {
    if i == |chain| {
      assert chain[..i] == chain && lists[..i] == lists;
    } else {
      RowsNext(chain, lists, i);
      RowsPrefix(chain, lists, i + 1);
    }
  }

  lemma {:induction false} NeverEnd(blocks: Blocks, chain: seq<int>, lists: seq<seq<nat>>, i: nat, m: nat, bound: int)
    requires Chained(blocks, chain, lists) && Rising(chain, bound) && i <= |chain| && m < |Rows(chain[..i], lists[..i])|
    ensures Rows(chain[..i], lists[..i])[m] != End(blocks, chain[|chain| - 1])
    decreases i
  {
    if i > 0 {
      RowsNext(chain, lists, i - 1);
      var front := Rows(chain[..i - 1], lists[..i - 1]);
      if m < |front| { NeverEnd(blocks, chain, lists, i - 1, m, bound); }
      else { StepFrom(blocks, chain, lists, i - 1, m - |front|, bound); }
    }
  }

  /** Through all blocks, the last one included. */
  lemma WalkAll(blocks: Blocks, chain: seq<int>, lists: seq<seq<nat>>, bound: int)
    requires Chained(blocks, chain, lists) && Rising(chain, bound) && chain != [] && OnlyLastEmpty(lists)
    ensures var rows := Rows(chain, lists);
            Trail(blocks, Entry(blocks, chain, 0), |rows|) == rows
            && Walk(blocks, Entry(blocks, chain, 0), |rows|) == End(blocks, chain[|chain| - 1])
  {
    var n := |chain| - 1;
    var seen := Rows(chain[..n], lists[..n]);
    WalkBlocks(blocks, chain, lists, n, bound);
    EnterBlock(blocks, chain, lists, n, bound);
    if lists[n] != [] {
      WalkBlock(blocks, chain, lists, n, |lists[n]|, bound);
      assert lists[n][..|lists[n]|] == lists[n];
      WalkOn(blocks, Entry(blocks, chain, 0), |seen|, |lists[n]|);
    } else {
      assert Rows(chain, lists) == seen;
    }
  }

  lemma ScanComplete(blocks: Blocks, chain: seq<int>, lists: seq<seq<nat>>, bound: int)
    requires Chained(blocks, chain, lists) && Rising(chain, bound) && chain != [] && OnlyLastEmpty(lists)
    ensures Scanned(blocks, Entry(blocks, chain, 0), End(blocks, chain[|chain| - 1]), Rows(chain, lists))
  {
    WalkAll(blocks, chain, lists, bound);
    forall m | 0 <= m < |Rows(chain, lists)| ensures Rows(chain, lists)[m] != End(blocks, chain[|chain| - 1]) {
      assert chain[..|chain|] == chain && lists[..|chain|] == lists;
      NeverEnd(blocks, chain, lists, |chain|, m, bound);
    }
  }

  /** A block that lost all its rows, with blocks behind it: the scan stops at a place that is no row. */
  lemma ScanStrays(blocks: Blocks, chain: seq<int>, lists: seq<seq<nat>>, i: nat, bound: int)
    requires Chained(blocks, chain, lists) && Rising(chain, bound) && i < |chain| - 1 && lists[i] == []
    requires forall j :: 0 <= j < i ==> lists[j] != []
    ensures !Scanned(blocks, Entry(blocks, chain, 0), End(blocks, chain[|chain| - 1]), Rows(chain, lists))
  {
    var seen, rows := Rows(chain[..i], lists[..i]), Rows(chain, lists);
    var start := Entry(blocks, chain, 0);
    WalkBlocks(blocks, chain, lists, i, bound);
    EnterBlock(blocks, chain, lists, i, bound);
    RowsPrefix(chain, lists, i);
    assert ChainedAt(blocks, chain, lists, i);
    assert Walk(blocks, start, |seen|) == Place(0, chain[i]);
    if |seen| < |rows| {
      assert chain[..|chain|] == chain && lists[..|chain|] == lists;
      LivePlaces(blocks, chain, lists, |chain|, |seen|);
      TrailAt(blocks, start, |seen|, |rows|);
      assert rows[|seen|] != Trail(blocks, start, |rows|)[|seen|];
    }
  }

  /** A scan visits exactly the live rows if and only if no block but the last has lost all its rows. */
  lemma ScanIff(blocks: Blocks, chain: seq<int>, lists: seq<seq<nat>>, bound: int)
    requires Chained(blocks, chain, lists) && Rising(chain, bound) && chain != []
    ensures Scanned(blocks, Entry(blocks, chain, 0), End(blocks, chain[|chain| - 1]), Rows(chain, lists)) <==> OnlyLastEmpty(lists)
  {
    if OnlyLastEmpty(lists) {
      ScanComplete(blocks, chain, lists, bound);
    } else {
      var i := FirstEmpty(lists, 0);
      ScanStrays(blocks, chain, lists, i, bound);
    }
  }

  lemma {:induction false} FirstEmpty(lists: seq<seq<nat>>, from: nat) returns (i: nat)
    requires !OnlyLastEmpty(lists) && from < |lists| && forall j :: 0 <= j < from ==> lists[j] != []
    ensures i < |lists| - 1 && lists[i] == [] && forall j :: 0 <= j < i ==> lists[j] != []
    decreases |lists| - from
  {
    if lists[from] == [] && from < |lists| - 1 {
      i := from;
    } else {
      i := FirstEmpty(lists, from + 1);
    }
  }

  // ---------------------------------------------------------------- updating

  /** Rows of other blocks stay as they are when one block of the chain is replaced. */
  lemma ReplaceBlock(blocks: Blocks, chain: seq<int>, lists: seq<seq<nat>>, i: nat, b: Block, live: seq<nat>, bound: int)
    requires Chained(blocks, chain, lists) && Rising(chain, bound) && i < |chain| && chain[i] in blocks
    requires BlockOk(b, live) && b.prevSib == blocks[chain[i]].prevSib && b.nextSib == blocks[chain[i]].nextSib
    ensures Chained(blocks[chain[i] := b], chain, lists[i := live])
  {
    var blocks', lists' := blocks[chain[i] := b], lists[i := live];
    forall j | 0 <= j < |chain| ensures ChainedAt(blocks', chain, lists', j) {
      assert ChainedAt(blocks, chain, lists, j);
      if j < i { assert chain[j] < chain[i]; } else if i < j { assert chain[i] < chain[j]; }
    }
  }

  lemma {:induction false} RowsReplaced(chain: seq<int>, lists: seq<seq<nat>>, i: nat, live: seq<nat>)
      returns (before: seq<Place>, after: seq<Place>)
    requires |lists| == |chain| && i < |chain|
    ensures Rows(chain, lists) == before + Places(chain[i], lists[i]) + after
    ensures Rows(chain, lists[i := live]) == before + Places(chain[i], live) + after
    ensures i == |chain| - 1 ==> after == []
    decreases |chain|
  {
    var n := |chain| - 1;
    var c, l := chain[..n], lists[..n];
    if i == n {
      before, after := Rows(c, l), [];
      assert lists[i := live][..n] == l;
    } else {
      var x, y := RowsReplaced(c, l, i, live);
      before, after := x, y + Places(chain[n], lists[n]);
      assert lists[i := live][..n] == l[i := live];
    }
  }

  /** The chain's last block is told about a block behind it. */
  function LinkLast(blocks: Blocks, last: int, at: int): Blocks {
    if last in blocks then blocks[last := blocks[last].(nextSib := at)] else blocks
  }

  function Extended(blocks: Blocks, last: int, at: int): Blocks {
    LinkLast(blocks, last, at)[at := EMPTY_BLOCK.(prevSib := last)]
  }

  /** A new empty block behind the last one. */
  lemma NewBlock(blocks: Blocks, chain: seq<int>, lists: seq<seq<nat>>, at: int, bound: int)
    requires Chained(blocks, chain, lists) && Rising(chain, at) && 0 <= at < bound && NIL !in blocks
    ensures Rising(chain + [at], bound)
    ensures Chained(Extended(blocks, Before(chain, |chain|), at), chain + [at], lists + [[]])
    ensures Rows(chain + [at], lists + [[]]) == Rows(chain, lists)
  {
    var n, last := |chain|, Before(chain, |chain|);
    var after, c, l := Extended(blocks, last, at), chain + [at], lists + [[]];
    forall j | 0 <= j < n + 1 ensures ChainedAt(after, c, l, j) {
      if j < n {
        OldBlock(blocks, chain, lists, at, j);
      } else {
        assert Before(c, n) == last;
      }
    }
    assert c[..n] == chain && l[..n] == lists;
    assert Places(at, []) == [];
  }

  lemma ExtendedKeeps(blocks: Blocks, last: int, at: int)
    requires at !in blocks
    ensures Kept(blocks, Extended(blocks, last, at))
    ensures forall o :: o in Extended(blocks, last, at) ==> o in blocks || o == at
  {
  }

  /** Root and last offset are those of the chain, and every block was given out. */
  predicate HeapOk(blocks: Blocks, chain: seq<int>, lists: seq<seq<nat>>, root: int, last: int, next: int) {
    Chained(blocks, chain, lists) && Rising(chain, next) && AllBelow(blocks, next)
    && root == (if chain == [] then NIL else chain[0]) && last == Before(chain, |chain|)
  }

  /** Offsets are multiples of the block size. */
  predicate AllBelow(blocks: Blocks, next: int) {
    next % BLOCK_SZ == 0 && forall o :: o in blocks ==> 0 <= o < next && o % BLOCK_SZ == 0
  }

  lemma NewDataOk(blocks: Blocks, chain: seq<int>, lists: seq<seq<nat>>, root: int, last: int, next: int)
    requires HeapOk(blocks, chain, lists, root, last, next) && 0 <= next
    ensures HeapOk(Extended(blocks, last, next), chain + [next], lists + [[]], if root < 0 then next else root, next, next + BLOCK_SZ)
    ensures Rows(chain + [next], lists + [[]]) == Rows(chain, lists)
    ensures Kept(blocks, Extended(blocks, last, next))
  {
    NewBlock(blocks, chain, lists, next, next + BLOCK_SZ);
    ExtendedKeeps(blocks, last, next);
    EndsMoved(chain, root, next);
  }

  lemma EndsMoved(chain: seq<int>, root: int, next: int)
    requires Rising(chain, next) && root == if chain == [] then NIL else chain[0]
    ensures (chain + [next])[0] == if root < 0 then next else root
    ensures Before(chain + [next], |chain + [next]|) == next
  {
    if chain != [] { assert chain[0] >= 0; }
  }

  lemma OldBlock(blocks: Blocks, chain: seq<int>, lists: seq<seq<nat>>, at: int, j: nat)
    requires Chained(blocks, chain, lists) && Rising(chain, at) && j < |chain|
    ensures ChainedAt(Extended(blocks, Before(chain, |chain|), at), chain + [at], lists + [[]], j)
  {
    var n := |chain|;
    var after := Extended(blocks, chain[n - 1], at);
    assert ChainedAt(blocks, chain, lists, j);
    if j < n - 1 { assert chain[j] < chain[n - 1]; }
    SameBlock(blocks[chain[j]], after[chain[j]], lists[j]);
    assert Before(chain + [at], j) == Before(chain, j);
    assert After(chain + [at], j) == if j == n - 1 then at else After(chain, j);
  }

  /** Sibling offsets are no concern of the rows. */
  lemma SameBlock(b: Block, c: Block, live: seq<nat>)
    requires BlockOk(b, live) && c == b.(nextSib := c.nextSib)
    ensures BlockOk(c, live)
  {
    forall i | 0 <= i < |live| ensures LinkedAt(c, live, i) { assert LinkedAt(b, live, i); }
  }

  /** Contents of rows are kept by whatever happens to other rows. */
  ghost predicate Kept(before: Blocks, after: Blocks) {
    forall o, p :: o in before && p in before[o].cells ==> o in after && SameRow(after[o], before[o], p)
  }

  lemma KeptTwice(a: Blocks, b: Blocks, c: Blocks)
    requires Kept(a, b) && Kept(b, c)
    ensures Kept(a, c)
  {
    forall o, p | o in a && p in a[o].cells ensures o in c && SameRow(c[o], a[o], p) {
      assert SameRow(b[o], a[o], p);
      assert SameRow(c[o], b[o], p);
    }
  }

  /** A row put behind the last block's rows is the last live row. */
  lemma AppendRow(blocks: Blocks, chain: seq<int>, lists: seq<seq<nat>>, size: nat, body: seq<Byte>, bound: int)
    requires Chained(blocks, chain, lists) && Rising(chain, bound) && chain != []
    requires chain[|chain| - 1] in blocks && ROW_HDR_SZ <= size <= blocks[chain[|chain| - 1]].rem <= BLOCK_SZ
    ensures var i := |chain| - 1;
            var b := blocks[chain[i]];
            var after, l := blocks[chain[i] := PutRow(b, size, body)], lists[i := lists[i] + [BLOCK_SZ - b.rem]];
            Chained(after, chain, l) && Rows(chain, l) == Rows(chain, lists) + [Place(BLOCK_SZ - b.rem, chain[i])]
            && Kept(blocks, after) && BLOCK_SZ - b.rem !in b.cells
  {
    var i := |chain| - 1;
    assert ChainedAt(blocks, chain, lists, i);
    var b, live := blocks[chain[i]], lists[i];
    var p := BLOCK_SZ - b.rem;
    PutRowOk(b, live, size, body);
    ReplaceBlock(blocks, chain, lists, i, PutRow(b, size, body), live + [p], bound);
    var before, after := RowsReplaced(chain, lists, i, live + [p]);
    PlacesSnoc(chain[i], live, p);
    assert before + (Places(chain[i], live) + [Place(p, chain[i])]) + [] == before + Places(chain[i], live) + [] + [Place(p, chain[i])];
  }

  /** A row taken out of its block's list is no longer live; all others still are, in the same order. */
  lemma DropRow(blocks: Blocks, chain: seq<int>, lists: seq<seq<nat>>, i: nat, k: nat, bound: int)
      returns (x: seq<Place>, y: seq<Place>)
    requires Chained(blocks, chain, lists) && Rising(chain, bound) && i < |chain| && k < |lists[i]|
    ensures chain[i] in blocks && lists[i][k] in blocks[chain[i]].cells
    ensures var after := blocks[chain[i] := Unlink(blocks[chain[i]], lists[i][k])];
            var l := lists[i := Without(lists[i], k)];
            Chained(after, chain, l) && Kept(blocks, after)
            && Rows(chain, lists) == x + [Place(lists[i][k], chain[i])] + y && Rows(chain, l) == x + y
  {
    assert ChainedAt(blocks, chain, lists, i);
    var b, live := blocks[chain[i]], lists[i];
    UnlinkOk(b, live, k);
    UnlinkKeeps(blocks, chain[i], live[k]);
    ReplaceBlock(blocks, chain, lists, i, Unlink(b, live[k]), Without(live, k), bound);
    x, y := DropPlace(chain, lists, i, k);
  }

  lemma DropPlace(chain: seq<int>, lists: seq<seq<nat>>, i: nat, k: nat) returns (x: seq<Place>, y: seq<Place>)
    requires |lists| == |chain| && i < |chain| && k < |lists[i]|
    ensures Rows(chain, lists) == x + [Place(lists[i][k], chain[i])] + y
    ensures Rows(chain, lists[i := Without(lists[i], k)]) == x + y
  {
    var live := lists[i];
    var before, after := RowsReplaced(chain, lists, i, Without(live, k));
    var ps := Places(chain[i], live);
    assert Places(chain[i], Without(live, k)) == ps[..k] + ps[k + 1..];
    assert ps == ps[..k] + [ps[k]] + ps[k + 1..];
    x, y := before + ps[..k], ps[k + 1..] + after;
  }

  lemma UnlinkKeeps(blocks: Blocks, o: int, p: nat)
    requires o in blocks && p in blocks[o].cells
    ensures Kept(blocks, blocks[o := Unlink(blocks[o], p)])
  {
  }

  /** The row lists of the blocks with a row more in the last one. */
  function Behind(lists: seq<seq<nat>>, position: nat): seq<seq<nat>> {
    if lists == [] then [] else lists[|lists| - 1 := lists[|lists| - 1] + [position]]
  }

  class Heap {
    var blocks: Blocks
    var dataRoot: int
    var dataOffset: int
    var nextOffset: nat
    ghost var chain: seq<int>
    ghost var lists: seq<seq<nat>>

    constructor ()
      ensures Valid() && Live() == [] && blocks == map[] && chain == [] && lists == []
    {
      blocks, dataRoot, dataOffset, nextOffset := map[], NIL, NIL, 0;
      chain, lists := [], [];
    }

    ghost predicate Valid()
      reads this
    {
      HeapOk(blocks, chain, lists, dataRoot, dataOffset, nextOffset)
    }

    /** There is a last block if any block has been made. */
    lemma LastBlock()
      requires Valid()
      ensures dataOffset >= 0 <==> dataOffset in blocks
      ensures dataOffset in blocks ==> blocks[dataOffset].nextSib == NIL
    {
      if chain != [] { assert ChainedAt(blocks, chain, lists, |chain| - 1); }
    }

    /** The live rows in insertion order. */
    ghost function Live(): seq<Place>
      requires Valid()
      reads this
    {
      Rows(chain, lists)
    }

    /** The old last block and the new one are made neighbours. */
    method LinkIn(last: int, at: int)
      modifies this`blocks
      ensures blocks == Extended(old(blocks), last, at)
    {
      blocks := LinkLast(blocks, last, at);
      blocks := blocks[at := EMPTY_BLOCK.(prevSib := last)];
    }

    /** `new_data(next_offset(true))`, linked behind the last block. */
    method NewData()
      requires Valid()
      modifies this
      ensures Valid() && Live() == old(Live()) && Kept(old(blocks), blocks)
      ensures chain != [] && dataOffset in blocks && blocks[dataOffset].rem == BLOCK_SZ - DATA_HDR_SZ
      ensures dataOffset == old(nextOffset) && blocks == Extended(old(blocks), old(dataOffset), dataOffset)
      ensures chain == old(chain) + [dataOffset] && lists == old(lists) + [[]]
    {
      var at, last := nextOffset, dataOffset;
      ghost var root := if dataRoot < 0 then at else dataRoot;
      ghost var more, c, l := Extended(blocks, last, at), chain + [at], lists + [[]];
      NewDataOk(blocks, chain, lists, dataRoot, last, at);
      assert HeapOk(more, c, l, root, at, at + BLOCK_SZ);
      LinkIn(last, at);
      chain, lists := c, l;
      nextOffset, dataOffset := at + BLOCK_SZ, at;
      if dataRoot < 0 { dataRoot := at; }
      assert HeapOk(blocks, chain, lists, dataRoot, dataOffset, nextOffset);
    }

    /** Store a row behind all others. */
    method Insert(size: nat, body: seq<Byte>) returns (at: Place)
      requires Valid() && ROW_HDR_SZ <= size <= BLOCK_SZ - DATA_HDR_SZ
      modifies this
      ensures Valid() && Live() == old(Live()) + [at] && Kept(old(blocks), blocks)
      ensures at.offset in blocks && at.position in blocks[at.offset].cells
      ensures blocks[at.offset].cells[at.position].body == body
      ensures at.offset in old(blocks) ==> at.position !in old(blocks)[at.offset].cells
      ensures old(HasRoom(size)) ==> (dataOffset in blocks && blocks == old(blocks)[dataOffset := blocks[dataOffset]]
                                      && dataOffset == old(dataOffset) && nextOffset == old(nextOffset))
      ensures chain == (if old(HasRoom(size)) then old(chain) else old(chain) + [at.offset]) && at.offset == dataOffset
      ensures lists == Behind(if old(HasRoom(size)) then old(lists) else old(lists) + [[]], at.position)
      ensures !old(HasRoom(size)) ==> blocks[dataOffset].rem == BLOCK_SZ - DATA_HDR_SZ - size
    {
      MakeRoom(size);
      AppendRow(blocks, chain, lists, size, body, nextOffset);
      var b := blocks[dataOffset];
      var position := BLOCK_SZ - b.rem;
      at := Place(position, dataOffset);
      ghost var i, was := |chain| - 1, blocks;
      blocks := blocks[dataOffset := PutRow(b, size, body)];
      lists := lists[i := lists[i] + [position]];
      KeptTwice(old(blocks), was, blocks);
    }

    /** The last block takes a row of this size. */
    predicate HasRoom(size: nat)
      reads this
    {
      dataOffset in blocks && size <= blocks[dataOffset].rem
    }

    /** The first block, or another one if the row does not fit the last. */
    method MakeRoom(size: nat)
      requires Valid() && ROW_HDR_SZ <= size <= BLOCK_SZ - DATA_HDR_SZ
      modifies this
      ensures Valid() && Live() == old(Live()) && Kept(old(blocks), blocks)
      ensures chain != [] && dataOffset in blocks && size <= blocks[dataOffset].rem <= BLOCK_SZ
      ensures if old(HasRoom(size)) then blocks == old(blocks) && dataOffset == old(dataOffset) && nextOffset == old(nextOffset)
              else dataOffset == old(nextOffset) && blocks == Extended(old(blocks), old(dataOffset), dataOffset)
                   && blocks[dataOffset].rem == BLOCK_SZ - DATA_HDR_SZ
      ensures chain == (if old(HasRoom(size)) then old(chain) else old(chain) + [dataOffset])
      ensures lists == if old(HasRoom(size)) then old(lists) else old(lists) + [[]]
    {
      if dataOffset < 0 {
        NewData();
      } else {
        assert ChainedAt(blocks, chain, lists, |chain| - 1);
        if blocks[dataOffset].rem < size { NewData(); }
      }
    }

    /** Take a live row out of its list. */
    method Remove(at: Place, ghost i: nat, ghost k: nat)
      requires Valid() && i < |chain| && k < |lists[i]| && at == Place(lists[i][k], chain[i])
      modifies this
      ensures Valid() && Kept(old(blocks), blocks) && blocks.Keys == old(blocks).Keys
      ensures chain == old(chain) && lists == old(lists)[i := Without(old(lists)[i], k)]
      ensures exists x, y :: old(Live()) == x + [at] + y && Live() == x + y
    {
      ghost var x, y := DropRow(blocks, chain, lists, i, k, nextOffset);
      blocks := blocks[at.offset := Unlink(blocks[at.offset], at.position)];
      lists := lists[i := Without(lists[i], k)];
      assert old(Live()) == x + [at] + y && Live() == x + y;
    }

    /** From begin to end by `++`: every live row once, in insertion order, also if the last block is empty. */
    method Scan() returns (rows: seq<Place>)
      requires Valid() && OnlyLastEmpty(lists)
      ensures rows == Live()
    {
      rows := [];
      if dataRoot < 0 { return; }
      var begin, end := Begin(blocks, dataRoot), End(blocks, dataOffset);
      ScanComplete(blocks, chain, lists, nextOffset);
      assert ChainedAt(blocks, chain, lists, 0) && ChainedAt(blocks, chain, lists, |chain| - 1);
      ghost var live := Live();
      assert Scanned(blocks, begin, end, live);
      var it := begin;
      while it != end
        invariant |rows| <= |live| && rows == Trail(blocks, begin, |rows|) && it == Walk(blocks, begin, |rows|)
        decreases |live| - |rows|
      {
        TrailAt(blocks, begin, |rows|, |live|);
        assert chain[..|chain|] == chain && lists[..|chain|] == lists;
        LivePlaces(blocks, chain, lists, |chain|, |rows|);
        rows := rows + [it];
        it := Step(blocks, it);
      }
      if |rows| < |live| { TrailAt(blocks, begin, |rows|, |live|); }
    }
  }

  lemma {:induction false} TrailAt(blocks: Blocks, it: Place, m: nat, n: nat)
    requires m < n
    ensures Trail(blocks, it, n)[m] == Walk(blocks, it, m)
    decreases n
  {
    if m < n - 1 { TrailAt(blocks, it, m, n - 1); }
  }

  lemma NewBlockRow(lists: seq<seq<nat>>, position: nat)
    ensures Behind(lists + [[]], position) == lists + [[position]]
  {
    assert [] + [position] == [position];
  }

  /**
   Two rows that do not fit one block, the first of which is removed again: the first block is
   empty, and a scan from begin to end does not visit the row that is left.
   */
  method StrayingHeap(body: seq<Byte>) returns (h: Heap)
    ensures fresh(h) && h.Valid() && |h.Live()| == 1 && h.chain != []
    ensures !Scanned(h.blocks, Entry(h.blocks, h.chain, 0), End(h.blocks, h.chain[|h.chain| - 1]), h.Live())
  {
    h := new Heap();
    var a := h.Insert(20000, body);
    NewBlockRow([], a.position);
    var b := h.Insert(20000, body);
    NewBlockRow([[a.position]], b.position);
    assert Without([a.position], 0) == [];
    h.Remove(a, 0, 0);
    ScanIff(h.blocks, h.chain, h.lists, h.nextOffset);
  }
}

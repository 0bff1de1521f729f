/**
 Removals that would have to rebalance, or that meet their key as a separator
 without a left leaf to take an element from: what their steps do.
 */
module IndexRebalance {
  import opened Prelude
  import opened IndexShape
  import opened IndexPath
  import opened IndexSplit
  import opened IndexStore
  import opened IndexLeafStore
  import opened IndexScan
  import opened IndexRemove
  import opened IndexSeparator
  import opened IndexBorrow
  import opened IndexFile
  import opened IndexLookup
  import opened IndexDelete

  // ----------------------------------------- the successor takes its place

  /** The node with separator `n` overwritten by the first key of the leaf on its right. */
  ghost function Overwritten(u: Tree, n: nat): Tree
    requires u.Inner? && n < |u.keys| && |u.kids| == |u.keys| + 1 && u.kids[n + 1].Leaf? && u.kids[n + 1].elems != []
  {
    Inner(u.off, u.keys[n := u.kids[n + 1].elems[0].key], u.kids)
  }

  /** Two leaves and the separator between them that is to be removed. */
  ghost predicate BetweenLeaves(u: Tree, n: nat, key: Key) {
    u.Inner? && n < |u.keys| && |u.kids| == |u.keys| + 1 && u.keys[n] == key && u.kids[n].Leaf? && u.kids[n + 1].Leaf?
  }

  /**
   `remove_from_non_leaf` when the leaf on the left is minimal and the one on the right is not: the
   element goes if and only if the right leaf begins with the same key; otherwise the key stays and
   its separator is overwritten.
   */
  method RemoveBySuccessor(ix: Index, off: int, n: nat, key: Key, ghost p: Path) returns (r: Removal)
    requires ix.Stored() && IsPath(ix.shape, p) && Sub(ix.shape, p).off == off && BetweenLeaves(Sub(ix.shape, p), n, key)
    requires Count(Sub(ix.shape, p).kids[n]) < ix.Degree() <= Count(Sub(ix.shape, p).kids[n + 1])
    modifies ix`store, ix`shape
    ensures !r.Rebalance?
    ensures r.Removed? <==> Sub(old(ix.shape), p).kids[n + 1].elems[0].key == key
    ensures r.Removed? ==> ix.Stored() && r.elem.key == key && r.elem in old(ix.Contents())
                           && multiset(ix.Contents()) == multiset(old(ix.Contents())) - multiset{r.elem}
    ensures r.Absent? ==> ix.shape == old(ix.shape) && HasKey(ix.Contents(), key)
                          && !Seps(Replace(ix.shape, p, Overwritten(Sub(ix.shape, p), n)))
    ensures r.Absent? ==> off in old(ix.store) && n < |old(ix.store)[off].slots|
                          && ix.store == WithKey(old(ix.store), off, n, Sub(ix.shape, p).kids[n + 1].elems[0].key)
  {
    ghost var s0, t, es := ix.store, ix.shape, Sub(ix.shape, p).kids[n + 1].elems;
    KidLeaf(ix, p, n + 1);
    LeafInOrder(ix, p, n + 1);
    LeavesAcross(t, p, n, ix.height, ix.Degree());
    KidBlock(ix, p, n);
    var right := ix.store[off].slots[n + 1].ptr;
    assert s0[right].slots[0].key == es[0].key;
    ghost var m: nat;
    r, m := TakeFromNext(ix, off, n, right, key);
    if es[0].key == key {
      SuccessorElement(s0, t, p, n, m, ix.height, ix.Degree(), ix.nextOffset);
      SuccessorValid(s0, ix.store, t, p, n, m, key, ix.height, ix.Degree(), ix.nextOffset);
      ix.shape := Replace(t, p + [n + 1], Leaf(right, Without(es, m)));
    } else {
      KeyStays(t, p, n, key, ix.height, ix.Degree());
    }
  }

  /** Its steps on the two blocks. */
  method TakeFromNext(ix: Index, off: int, n: nat, right: int, key: Key) returns (r: Removal, ghost m: nat)
    requires off in ix.store && right in ix.store && off != right && !ix.store[off].leaf && n < |ix.store[off].slots|
    requires ix.store[right].leaf && ix.store[right].numKey > 0 && KeysInOrder(ix.store[right])
    requires ix.store[off].slots[n].key == key <= ix.store[right].slots[0].key
    modifies ix`store
    ensures !r.Rebalance?
    ensures var b := old(ix.store)[right];
            && (r.Removed? <==> b.slots[0].key == key)
            && (r.Absent? ==> ix.store == WithKey(old(ix.store), off, n, b.slots[0].key))
            && (r.Removed? ==> m < b.numKey && b.slots[m].key == key && r.elem == Decode(b.slots[m])
                               && OnlyBody(old(ix.store), ix.store, right) && RemoveBody(b, ix.store[right], m))
  {
    ghost var s0 := ix.store;
    var next := ix.GetElement(right, 0);
    ix.PutElement(off, n, next);
    assert ix.store == WithKey(s0, off, n, next.key);
    if next.key == key { assert s0[off].slots[n := s0[off].slots[n]] == s0[off].slots; }
    r, m := RemoveAtLeaf(ix, right, key);
    if r.Absent? { assert s0[right].slots[0].key != key; }
  }

  /** The store with one key field of an inner node's block changed. */
  function WithKey(s: Store, off: int, n: nat, k: Key): Store
    requires off in s && n < |s[off].slots|
  {
    s[off := s[off].(slots := s[off].slots[n := Slot(s[off].slots[n].ptr, k)])]
  }

  lemma SuccessorValid(s0: Store, s1: Store, t: Tree, p: Path, n: nat, m: nat, key: Key, h: nat, d: nat, limit: int)
    requires ValidIndex(s0, t, h, d, limit) && IsPath(t, p) && BetweenLeaves(Sub(t, p), n, key)
    requires m < |Sub(t, p).kids[n + 1].elems| && |Sub(t, p).kids[n + 1].elems| >= d
    requires Sub(t, p).kids[n + 1].elems[0].key == key
    requires var c := Sub(t, p).kids[n + 1].off;
             c in s0 && m < |s0[c].slots| && s0[c].slots[m].key == key && OnlyBody(s0, s1, c) && RemoveBody(s0[c], s1[c], m)
    ensures IsPath(t, p + [n + 1])
    ensures var c := Sub(t, p).kids[n + 1];
            var t' := Replace(t, p + [n + 1], Leaf(c.off, Without(c.elems, m)));
            ValidIndex(s1, t', h, d, limit) && multiset(Elems(t')) == multiset(Elems(t)) - multiset{c.elems[m]}
  {
    PathStep(t, p, n + 1);
    LeavesAcross(t, p, n, h, d);
    SuccessorElement(s0, t, p, n, m, h, d, limit);
    EqualKeysLeft(Sub(t, p).kids[n + 1].elems, m);
    RemoveValidAt(s0, s1, t, p + [n + 1], Sub(t, p).kids[n + 1], m, h, d, limit);
  }

  lemma SuccessorElement(s0: Store, t: Tree, p: Path, n: nat, m: nat, h: nat, d: nat, limit: int)
    requires ValidIndex(s0, t, h, d, limit) && IsPath(t, p) && Sub(t, p).Inner? && n + 1 < |Sub(t, p).kids|
    requires Sub(t, p).kids[n + 1].Leaf? && m < |Sub(t, p).kids[n + 1].elems|
    ensures var c := Sub(t, p).kids[n + 1];
            && c.off in s0 && m < |s0[c.off].slots| && Decode(s0[c.off].slots[m]) == c.elems[m]
            && s0[c.off].slots[m].key == c.elems[m].key && c.elems[m] in Elems(t)
  {
    PathStep(t, p, n + 1);
    LeafElement(s0, t, p + [n + 1], m, h, d, limit);
  }

  lemma RemoveValidAt(s0: Store, s1: Store, t: Tree, q: Path, c: Tree, m: nat, h: nat, d: nat, limit: int)
    requires ValidIndex(s0, t, h, d, limit) && IsPath(t, q) && q != [] && Sub(t, q) == c && c.Leaf?
    requires m < |c.elems| && |c.elems| >= d && LastKey(Without(c.elems, m)) == LastKey(c.elems)
    requires OnlyBody(s0, s1, c.off) && RemoveBody(s0[c.off], s1[c.off], m)
    ensures var t' := Replace(t, q, Leaf(c.off, Without(c.elems, m)));
            ValidIndex(s1, t', h, d, limit) && multiset(Elems(t')) == multiset(Elems(t)) - multiset{c.elems[m]}
  {
    RemoveValid(s0, s1, t, q, m, h, d, limit);
  }

  /** The right leaf is in order and holds no key smaller than the separator. */
  lemma LeavesAcross(t: Tree, p: Path, n: nat, h: nat, d: nat)
    requires WellFormed(t, h, d) && IsPath(t, p) && Sub(t, p).Inner? && n < |Sub(t, p).keys|
    requires |Sub(t, p).kids| == |Sub(t, p).keys| + 1 && Sub(t, p).kids[n + 1].Leaf?
    ensures var es := Sub(t, p).kids[n + 1].elems;
            es != [] && Sorted(es) && Sub(t, p).keys[n] <= es[0].key
  {
    var u := Sub(t, p);
    SubInvariants(t, p, h, d);
    SubElems(t, p);
    SortedPart(Pre(t, p), Elems(u), Post(t, p));
    SeparatorsHold(u, n + 1);
    SortedPart(ElemsAll(u.kids[..n + 1]), u.kids[n + 1].elems, ElemsAll(u.kids[n + 2..]));
    assert u.kids[n + 1].elems[0] in Elems(u.kids[n + 1]);
  }

  /** Taking one of several equal first keys leaves the largest key what it is. */
  lemma EqualKeysLeft(es: seq<Elem>, m: nat)
    requires Sorted(es) && m < |es| && |es| >= 2 && es[m].key == es[0].key
    ensures LastKey(Without(es, m)) == LastKey(es)
  {
    if m == |es| - 1 { assert es[0].key <= es[m - 1].key <= es[m].key; }
  }

  lemma KeyStays(t: Tree, p: Path, n: nat, key: Key, h: nat, d: nat)
    requires WellFormed(t, h, d) && IsPath(t, p) && BetweenLeaves(Sub(t, p), n, key)
    requires Sub(t, p).kids[n + 1].elems != [] && Sub(t, p).kids[n + 1].elems[0].key != key
    ensures HasKey(Elems(t), key) && !Seps(Replace(t, p, Overwritten(Sub(t, p), n)))
  {
    SubInvariants(t, p, h, d);
    KeyBelow(t, p, n);
    var v := Overwritten(Sub(t, p), n);
    assert !Seps(v);
    ReplaceSurroundings(t, p, v);
    if Seps(Replace(t, p, v)) { SubSeps(Replace(t, p, v), p); }
  }

  lemma KeyBelow(t: Tree, p: Path, n: nat)
    requires IsPath(t, p) && Sub(t, p).Inner? && Seps(Sub(t, p)) && n < |Sub(t, p).keys|
    ensures HasKey(Elems(t), Sub(t, p).keys[n])
  {
    SeparatorPresent(Sub(t, p), n);
    SubElems(t, p);
    HasKeyIn(Elems(Sub(t, p)), Sub(t, p).keys[n]);
    HasKeyIn(Elems(t), Sub(t, p).keys[n]);
  }

  /** Leaves with one row and two, below a parent of degree two. */
  function OneAndTwo(): Tree {
    Inner(65536, [1], [Leaf(0, [Elem(1, 0, 24)]), Leaf(32768, [Elem(2, 0, 40), Elem(3, 0, 56)])])
  }

  /** Removing key 1 from it overwrites its separator by 2, and key 1 stays. */
  lemma SuccessorStays()
    ensures WellFormed(OneAndTwo(), 1, 2) && BetweenLeaves(OneAndTwo(), 0, 1)
    ensures Count(OneAndTwo().kids[0]) < 2 <= Count(OneAndTwo().kids[1]) && OneAndTwo().kids[1].elems[0].key != 1
    ensures HasKey(Elems(OneAndTwo()), 1) && Overwritten(OneAndTwo(), 0).keys == [2] && !Seps(Overwritten(OneAndTwo(), 0))
  {
    var u := OneAndTwo();
    OneAndTwoElems();
    assert Elems(u)[0].key == 1;
    assert forall i :: 0 <= i < 2 ==> u.kids[i].Leaf?;
    OneAndTwoDistinct();
  }

  lemma OneAndTwoElems()
    ensures Elems(OneAndTwo()) == [Elem(1, 0, 24), Elem(2, 0, 40), Elem(3, 0, 56)]
  {
    var u := OneAndTwo();
    TwoKids(u.kids, 0);
    assert u.kids[..0] == [] && u.kids[2..] == [];
    assert Elems(u) == [Elem(1, 0, 24)] + [Elem(2, 0, 40), Elem(3, 0, 56)];
  }

  lemma OneAndTwoDistinct()
    ensures Distinct(OneAndTwo())
  {
    var ts := OneAndTwo().kids;
    assert ts[1..][1..] == [] && ts[1..][0] == ts[1];
    assert OffsAll(ts[1..]) == {32768} + OffsAll([]);
    assert OffsAll(ts) == {0} + OffsAll(ts[1..]);
    assert DistinctAll(ts[1..]) by { assert DistinctAll([]); }
  }

  // ------------------------------------------------ borrowing from the right

  /** The keys and children in use are those of the node; nothing is said of the slots behind them. */
  ghost predicate Spells(b: Block, t: Tree) {
    && t.Inner? && |t.kids| == |t.keys| + 1 && b.numKey == |t.keys| < |b.slots| && !b.leaf
    && (forall i :: 0 <= i < b.numKey ==> b.slots[i].key == t.keys[i])
    && (forall i :: 0 <= i <= b.numKey ==> b.slots[i].ptr == t.kids[i].off)
  }

  /** Slot `i` when the first `c` child offsets and the first `a` keys have come from one slot further. */
  function GaveSlot(b: Block, c: nat, a: nat, i: nat): Slot
    requires i < |b.slots| && c < |b.slots| && a < |b.slots|
  {
    Slot(if i < c then b.slots[i + 1].ptr else b.slots[i].ptr, if i < a then b.slots[i + 1].key else b.slots[i].key)
  }

  ghost predicate GaveBody(b: Block, v: Block) {
    && v.leaf == b.leaf && b.numKey > 0 && v.numKey == b.numKey - 1 && |v.slots| == |b.slots| && b.numKey < |b.slots|
    && (forall i :: 0 <= i < |v.slots| ==> v.slots[i] == GaveSlot(b, b.numKey, b.numKey - 1, i))
  }

  /** The receiving block. */
  function AddedSlot(b: Block, key: Key, child: int, i: nat): Slot
    requires i < |b.slots|
  {
    Slot(if i == b.numKey + 1 then child else b.slots[i].ptr, if i == b.numKey then key else b.slots[i].key)
  }

  ghost predicate AddedBody(b: Block, v: Block, key: Key, child: int) {
    && v.leaf == b.leaf && v.numKey == b.numKey + 1 && |v.slots| == |b.slots|
    && (forall i :: 0 <= i < |v.slots| ==> v.slots[i] == AddedSlot(b, key, child, i))
  }

  /** The shifting loops. */
  method GiveFirst(ix: Index, off: int)
    requires off in ix.store && !ix.store[off].leaf && 0 < ix.store[off].numKey < |ix.store[off].slots|
    modifies ix`store
    ensures OnlyBody(old(ix.store), ix.store, off) && GaveBody(old(ix.store)[off], ix.store[off])
  {
    ghost var b := ix.store[off];
    var m := ix.store[off].numKey;
    for i := 1 to m
      invariant OnlyBody(old(ix.store), ix.store, off) && ix.HeaderKept(b, ix.store[off])
      invariant forall j :: 0 <= j < |b.slots| ==>
                  ix.store[off].slots[j] == GaveSlot(b, 0, i - 1, j)
    {
      ix.CopyElement(off, i, off, i - 1);
    }
    for i := 1 to m + 1
      invariant OnlyBody(old(ix.store), ix.store, off) && ix.HeaderKept(b, ix.store[off])
      invariant forall j :: 0 <= j < |b.slots| ==>
                  ix.store[off].slots[j] == GaveSlot(b, i - 1, m - 1, j)
    {
      ix.PutChild(off, i - 1, ix.store[off].slots[i].ptr);
    }
    ix.SetNumKey(off, m - 1);
  }

  /** `borrow_from_next` between inner nodes, on the blocks of a parent and two neighbouring children. */
  method BorrowFromNext(ix: Index, off: int, i: nat, child: int, sibling: int, ghost u: Tree)
    requires off in ix.store && child in ix.store && sibling in ix.store && off != child && off != sibling && child != sibling
    requires u.Inner? && i < |u.keys| && Spells(ix.store[off], u) && u.kids[i].Inner? && u.kids[i + 1].Inner?
    requires u.kids[i].off == child && u.kids[i + 1].off == sibling && |u.kids[i + 1].keys| > 0
    requires Spells(ix.store[child], u.kids[i]) && Spells(ix.store[sibling], u.kids[i + 1])
    requires ix.store[child].numKey + 1 < |ix.store[child].slots|
    modifies ix`store
    ensures forall o :: o in old(ix.store) && o !in {off, child, sibling} ==> o in ix.store && ix.store[o] == old(ix.store)[o]
    ensures off in ix.store && child in ix.store && sibling in ix.store
    ensures var q := FromNext(PairAt(u, i));
            Spells(ix.store[off], InParent(u, i, q)) && Spells(ix.store[child], q.l) && Spells(ix.store[sibling], q.r)
    ensures GaveBody(old(ix.store)[sibling], ix.store[sibling])
  {
    ghost var s0 := ix.store;
    ix.CopyElement(off, i, child, ix.store[child].numKey);
    ix.PutChild(child, ix.store[child].numKey + 1, ix.store[sibling].slots[0].ptr);
    ix.CopyElement(sibling, 0, off, i);
    ghost var s1 := ix.store;
    GiveFirst(ix, sibling);
    ix.SetNumKey(child, ix.store[child].numKey + 1);
    assert AddedBody(s0[child], ix.store[child], u.keys[i], u.kids[i + 1].kids[0].off);
    NextSpelled(s0[off], ix.store[off], s0[child], ix.store[child], s0[sibling], ix.store[sibling], u, i);
  }

  lemma NextSpelled(b: Block, v: Block, cb: Block, cv: Block, sb: Block, sv: Block, u: Tree, i: nat)
    requires u.Inner? && i < |u.keys| && Spells(b, u) && u.kids[i].Inner? && u.kids[i + 1].Inner? && |u.kids[i + 1].keys| > 0
    requires Spells(cb, u.kids[i]) && Spells(sb, u.kids[i + 1]) && cb.numKey + 1 < |cb.slots|
    requires AddedBody(cb, cv, u.keys[i], u.kids[i + 1].kids[0].off) && GaveBody(sb, sv)
    requires v == b.(slots := b.slots[i := Slot(b.slots[i].ptr, sb.slots[0].key)])
    ensures var q := FromNext(PairAt(u, i)); Spells(v, InParent(u, i, q)) && Spells(cv, q.l) && Spells(sv, q.r)
  {
    var q := FromNext(PairAt(u, i));
    var w := InParent(u, i, q);
    forall j | 0 <= j <= v.numKey ensures v.slots[j].ptr == w.kids[j].off {
      if j != i && j != i + 1 { assert w.kids[j] == u.kids[j]; }
    }
    assert forall j :: 0 <= j <= sv.numKey ==> q.r.kids[j] == u.kids[i + 1].kids[j + 1];
  }

  /** It leaves the largest key of the giving node behind the keys in use as well. */
  lemma LargestStays(b: Block, v: Block)
    requires GaveBody(b, v) && b.numKey > 1
    ensures v.slots[v.numKey].key == v.slots[v.numKey - 1].key
  {
  }

  /**
   When that key is removed as a separator, a lookup of it still ends at the slot behind the keys in
   use and finds it there.
   */
  lemma RemovedButFound(b: Block, k: Key, key: Key)
    requires KeysInOrder(b) && b.numKey > 0 && b.slots[b.numKey - 1].key == key == b.slots[b.numKey].key
    requires k < key && (b.numKey > 1 ==> b.slots[b.numKey - 2].key <= k)
    ensures var v := b.(slots := b.slots[b.numKey - 1 := Slot(b.slots[b.numKey - 1].ptr, k)]);
            KeysInOrder(v) && Place(BlockKeys(v), key) == v.numKey && v.slots[Place(BlockKeys(v), key)].key == key
  {
    var v := b.(slots := b.slots[b.numKey - 1 := Slot(b.slots[b.numKey - 1].ptr, k)]);
    forall i | 0 <= i < v.numKey ensures v.slots[i].key <= k {
      if i < v.numKey - 2 { assert b.slots[i].key <= b.slots[b.numKey - 2].key; }
    }
    PlaceFinds(v, key);
  }

  // ------------------------------------------------------- merging leaves

  /** `merge` of two leaves: the bare separator goes between their elements. */
  ghost function MergedLeaf(p: Pair): Tree
    requires p.l.Leaf? && p.r.Leaf?
  {
    Leaf(p.l.off, p.l.elems + [Bare(p.key)] + p.r.elems)
  }

  /** It adds an element that points to no row. */
  lemma MergeAdds(p: Pair)
    requires p.l.Leaf? && p.r.Leaf?
    ensures multiset(Elems(MergedLeaf(p))) == multiset(PairElems(p)) + multiset{Bare(p.key)}
  {
  }

  /** Removing one element with the separator's key from the merged leaf leaves another one. */
  lemma MergeKeepsKey(p: Pair, m: nat)
    requires p.l.Leaf? && p.r.Leaf? && p.l.elems != [] && p.key == LastKey(p.l.elems)
    requires m < |MergedLeaf(p).elems| && MergedLeaf(p).elems[m].key == p.key
    ensures HasKey(Without(MergedLeaf(p).elems, m), p.key)
  {
    var es, n := MergedLeaf(p).elems, |p.l.elems|;
    assert es[n - 1].key == p.key && es[n].key == p.key;
    var w := Without(es, m);
    if m <= n - 1 { assert w[n - 1] == es[n]; } else { assert w[n - 1] == es[n - 1]; }
  }

  /** What the parent's child offsets are after `merge` has moved those behind child `n + 1` to the left. */
  function MovedChild(b: Block, n: nat, m: nat, i: nat): int
    requires i < |b.slots| && m <= |b.slots|
  {
    if n + 1 <= i < m - 1 then b.slots[i + 1].ptr else b.slots[i].ptr
  }

  /** The loop in `merge` over child offsets. */
  method MoveChildren(ix: Index, u: int, n: nat)
    requires u in ix.store && n < ix.store[u].numKey < |ix.store[u].slots|
    modifies ix`store
    ensures OnlyBody(old(ix.store), ix.store, u) && |ix.store[u].slots| == |old(ix.store)[u].slots|
    ensures ix.store[u].numKey == old(ix.store)[u].numKey
    ensures forall i :: 0 <= i < |ix.store[u].slots| ==>
              ix.store[u].slots[i] == Slot(MovedChild(old(ix.store)[u], n, ix.store[u].numKey, i), old(ix.store)[u].slots[i].key)
  {
    var i := n + 2;
    while i < ix.store[u].numKey
      invariant n + 2 <= i && (i <= old(ix.store)[u].numKey || i == n + 2)
      invariant OnlyBody(old(ix.store), ix.store, u) && ix.HeaderKept(old(ix.store)[u], ix.store[u])
      invariant forall j :: 0 <= j < |ix.store[u].slots| ==>
                  ix.store[u].slots[j] == Slot(MovedChild(old(ix.store)[u], n, i, j), old(ix.store)[u].slots[j].key)
      decreases ix.store[u].numKey - i
    {
      ix.PutChild(u, i - 1, ix.store[u].slots[i].ptr);
      i := i + 1;
    }
  }

  /** The children are all but child `n + 1` exactly if that was the last one. */
  lemma MergeKeepsChildrenIff(b: Block, n: nat)
    requires n < b.numKey < |b.slots| && forall i, j :: 0 <= i < j <= b.numKey ==> b.slots[i].ptr != b.slots[j].ptr
    ensures (forall i :: 0 <= i < b.numKey ==>
               MovedChild(b, n, b.numKey, i) == b.slots[if i <= n then i else i + 1].ptr)
       <==> n + 1 == b.numKey
  {
    var m := b.numKey;
    if n + 1 < m {
      assert MovedChild(b, n, m, m - 1) == b.slots[m - 1].ptr != b.slots[m].ptr;
    }
  }

  /** Merging the first two of four children: the second and third are the same then, and the fourth is gone. */
  lemma MergeLosesChild()
    ensures var b := Block(false, 3, [Slot(0, 1), Slot(32768, 2), Slot(65536, 3), Slot(98304, 0)], INVALID_REF, INVALID_REF);
            MovedChild(b, 0, 3, 0) == 0 && MovedChild(b, 0, 3, 1) == 65536 && MovedChild(b, 0, 3, 2) == 65536
  {
  }

  // ------------------------------------------------- separators higher up

  /** The child reached in `get_prev_element` after some rounds; None behind the children in use. */
  ghost function Reached(u: Tree, n: nat, rounds: nat): Option<nat>
    requires u.Inner?
  {
    if rounds == 0 then Some(n)
    else
      var i := Reached(u, n, rounds - 1);
      if i.None? || i.value >= |u.kids| then None else Some(Count(u.kids[i.value]))
  }

  /** Its loop never comes to a leaf: the children of this node are looked at, not those of the child. */
  lemma {:induction false} PrevNeverEnds(u: Tree, n: nat, rounds: nat, h: nat)
    requires Balanced(u, h) && h >= 2
    ensures Reached(u, n, rounds).Some? && Reached(u, n, rounds).value < |u.kids| ==> u.kids[Reached(u, n, rounds).value].Inner?
  {
    var i := Reached(u, n, rounds);
    if i.Some? && i.value < |u.kids| {
      assert Balanced(u.kids[i.value], h - 1);
    }
  }

  // ------------------------------------------------------------ witnesses

  /** Insert the `n`-th element of an index. */
  method PutNth(ix: Index, n: nat)
    requires ix.Valid() && |multiset(ix.Contents())| == n
    modifies ix
    ensures ix.Valid() && |multiset(ix.Contents())| == n + 1
  {
    ix.Insert(Elem(n, 0, 24 + 16 * (n % 4)));
  }

  /** An index over four keys of order 4, so with more than one leaf. */
  method FourKeys() returns (ix: Index)
    ensures fresh(ix) && ix.Valid() && ix.root >= 0 && ix.order == 4 && ix.shape.Inner?
  {
    ix := new Index(4);
    PutNth(ix, 0);
    PutNth(ix, 1);
    PutNth(ix, 2);
    PutNth(ix, 3);
    ManyLeaves(ix, multiset(ix.Contents()));
  }

  /** More elements than a leaf holds. */
  lemma ManyLeaves(ix: Index, m: multiset<Elem>)
    requires ix.Valid() && multiset(ix.Contents()) == m && |m| >= ix.order
    ensures ix.root >= 0 && ix.shape.Inner?
  {
    SizeOf(ix.Contents(), m);
  }

  lemma SizeOf(es: seq<Elem>, m: multiset<Elem>)
    requires multiset(es) == m
    ensures |es| == |m|
  {
  }

  /** The first separator of the root, which is a key of the index. */
  method FirstSeparator(ix: Index) returns (key: Key)
    requires ix.Valid() && ix.root >= 0 && ix.shape.Inner?
    ensures HasKey(ix.Contents(), key) && key in SepKeys(ix.shape) && key in ix.shape.keys
  {
    ix.NodeBlock([]);
    key := ix.store[ix.root].slots[0].key;
    assert ix.shape.keys[0] == key;
    SeparatorPresent(ix.shape, 0);
  }

  /** A lookup of a separator ends in an inner node, whose slots have no row. */
  method SeparatorFound() returns (ix: Index, key: Key, it: Iter, end: Iter)
    ensures ix.Valid() && HasKey(ix.Contents(), key)
    ensures it != end && it.off in ix.store && !ix.store[it.off].leaf
  {
    ix := FourKeys();
    key := FirstSeparator(ix);
    it, end := Find(ix, key);
  }

  /** The key is there, and its removal is one at which the model stops. */
  ghost predicate Stuck(ix: Index, key: Key)
    reads ix
  {
    HasKey(ix.Contents(), key) && Balanced(ix.shape, ix.height) && Seps(ix.shape)
    && NeedsRebalance(ix.shape, key, ix.Degree(), ix.height)
  }

  /** Try to remove the first separator of the root. */
  method RemoveFirst(ix: Index) returns (key: Key, r: Removal)
    requires ix.Valid() && ix.root >= 0 && ix.shape.Inner?
    modifies ix
    ensures ix.Valid() && ix.root >= 0 && ix.shape.Inner? && !r.Absent?
    ensures r.Rebalance? ==> Stuck(ix, key)
    ensures r.Removed? ==> |ix.Contents()| < |old(ix.Contents())|
  {
    key := FirstSeparator(ix);
    ghost var store, shape := ix.store, ix.shape;
    r := Remove(ix, key);
    if r.Removed? { OneLess(Elems(shape), ix.Contents(), r.elem); }
  }

  lemma OneLess(es: seq<Elem>, es': seq<Elem>, e: Elem)
    requires e in es && multiset(es') == multiset(es) - multiset{e}
    ensures |es'| < |es|
  {
    assert |multiset(es')| == |multiset(es)| - 1;
  }

  /** Removing the first separator of the root again and again comes to a removal at which the model stops. */
  method RemoveSeparators(ix: Index) returns (key: Key)
    requires ix.Valid() && ix.root >= 0 && ix.shape.Inner?
    modifies ix
    ensures ix.Valid() && ix.root >= 0 && ix.shape.Inner? && Stuck(ix, key)
    decreases |ix.Contents()|
  {
    var r: Removal;
    key, r := RemoveFirst(ix);
    if !r.Rebalance? { key := RemoveSeparators(ix); }
  }

  /** So some removal from an index built of four keys does. */
  method StoppedRemoval() returns (ix: Index, key: Key, r: Removal)
    ensures ix.Valid() && HasKey(ix.Contents(), key) && r.Rebalance?
  {
    ix := FourKeys();
    key := RemoveSeparators(ix);
    r := Remove(ix, key);
  }
}

/**
 `tree::remove` on an index file, up to the point where it would rebalance, and what
 becomes of the removals that do not keep the index.
 */
module IndexDelete {
  import opened Prelude
  import opened IndexShape
  import opened IndexPath
  import opened IndexSplit
  import opened IndexStore
  import opened IndexLeafStore
  import opened IndexScan
  import opened IndexRemove
  import opened IndexSeparator
  import opened IndexBorrow
  import opened IndexBorrowStore
  import opened IndexFile
  import opened IndexLookup

  /** `node::remove_from_leaf`: shift the elements behind `n` one to the left. */
  method RemoveFromLeaf(ix: Index, off: int, n: nat) returns (ret: Elem)
    requires off in ix.store && ix.store[off].leaf && n < ix.store[off].numKey <= |ix.store[off].slots|
    modifies ix`store
    ensures ret == Decode(old(ix.store)[off].slots[n])
    ensures OnlyBody(old(ix.store), ix.store, off) && RemoveBody(old(ix.store)[off], ix.store[off], n)
  {
    ret := ix.GetElement(off, n);
    var m := ix.store[off].numKey;
    var i := n + 1;
    while i < m
      invariant n + 1 <= i <= m
      invariant OnlyBody(old(ix.store), ix.store, off) && ix.HeaderKept(old(ix.store)[off], ix.store[off])
      invariant forall j :: 0 <= j < |ix.store[off].slots| ==>
                  ix.store[off].slots[j] == PulledSlot(old(ix.store)[off], n, i - 1, j)
    {
      ix.CopyElement(off, i, off, i - 1);
      i := i + 1;
    }
    ix.SetNumKey(off, m - 1);
  }

  /** `node::remove` in a leaf. */
  method RemoveAtLeaf(ix: Index, off: int, key: Key) returns (r: Removal, ghost m: nat)
    requires off in ix.store && ix.store[off].leaf && KeysInOrder(ix.store[off])
    modifies ix`store
    ensures !r.Rebalance?
    ensures r.Absent? ==> ix.store == old(ix.store) && forall i :: 0 <= i < ix.store[off].numKey ==> ix.store[off].slots[i].key != key
    ensures r.Removed? ==>
              (var b := old(ix.store)[off];
               m < b.numKey && b.slots[m].key == key && r.elem == Decode(b.slots[m])
               && OnlyBody(old(ix.store), ix.store, off) && RemoveBody(b, ix.store[off], m))
  {
    var n := FindKey(ix.store[off], key);
    m := n;
    if n < ix.store[off].numKey && ix.store[off].slots[n].key == key {
      var e := RemoveFromLeaf(ix, off, n);
      r := Removed(e);
    } else {
      r := Absent;
    }
  }

  /** What the search finds in a node. */
  lemma NodeKeys(b: Block, s: Tree, hi: Option<Key>, order: nat, key: Key, n: nat)
    requires Holds(b, s, hi, order) && s.Inner? && n == Place(BlockKeys(b), key)
    requires (n < b.numKey && b.slots[n].key == key) ||
             ((forall i :: 0 <= i < n ==> b.slots[i].key < key) && (forall i :: n <= i < b.numKey ==> b.slots[i].key > key))
    ensures n == Place(s.keys, key)
    ensures (n < b.numKey && b.slots[n].key == key) <==> key in s.keys
    ensures n < b.numKey ==> b.slots[n].key == s.keys[n]
  {
    assert BlockKeys(b) == s.keys;
    if n < b.numKey && b.slots[n].key == key {
      assert s.keys[n] == key;
    } else {
      forall x | x in s.keys ensures x != key {
        var i :| 0 <= i < |s.keys| && s.keys[i] == x;
        assert b.slots[i].key == s.keys[i];
      }
    }
  }

  /** A separator of leaves whose left leaf can spare an element. */
  ghost predicate Spares(t: Tree, n: nat, d: nat) {
    t.Inner? && n < |t.kids| && t.kids[n].Leaf? && Count(t.kids[n]) >= d
  }

  /** Child `n` is an inner node whose left neighbour can spare a key. */
  ghost predicate Lends(t: Tree, n: nat, d: nat) {
    0 < n && CanRotate(t, n - 1) && Count(t.kids[n - 1]) >= d
  }

  /** Child `n` has enough keys to be entered, or can borrow one. */
  ghost predicate Enters(t: Tree, n: nat, d: nat) {
    t.Inner? && n < |t.kids| && (Count(t.kids[n]) >= d || Lends(t, n, d))
  }

  /** Child `n` when it is entered: a node with few keys borrows one first. */
  ghost function Entered(t: Tree, n: nat, d: nat): Tree
    requires Enters(t, n, d)
  {
    if Count(t.kids[n]) >= d then t.kids[n] else FromPrev(PairAt(t, n - 1)).r
  }

  lemma EnteredKeeps(t: Tree, n: nat, d: nat, h: nat)
    requires Balanced(t, h) && Seps(t) && Enters(t, n, d)
    ensures h > 0 && Balanced(Entered(t, n, d), h - 1) && Seps(Entered(t, n, d))
  {
    if Count(t.kids[n]) < d { FromPrevOrdered(PairAt(t, n - 1), h - 1); }
  }

  /**
   The search meets the key as a separator whose left child is no leaf with `d` elements, or a child
   on the way has fewer than `d` keys and is no inner node that borrows from the left.
   */
  ghost predicate NeedsRebalance(t: Tree, k: Key, d: nat, h: nat)
    requires Balanced(t, h) && Seps(t)
    decreases h
  {
    t.Inner? &&
    var n := Place(t.keys, k);
    if k in t.keys then !Spares(t, n, d)
    else if Enters(t, n, d) then
      EnteredKeeps(t, n, d, h);
      NeedsRebalance(Entered(t, n, d), k, d, h - 1)
    else true
  }

  /** The leaf case of `node::remove`. */
  method RemoveHere(ix: Index, off: int, key: Key, ghost p: Path) returns (r: Removal)
    requires ix.Stored() && IsPath(ix.shape, p) && Sub(ix.shape, p).off == off && Narrowed(ix.shape, p, key)
    requires Sub(ix.shape, p).Leaf? && |Sub(ix.shape, p).elems| >= if p == [] then 2 else ix.Degree()
    modifies ix`store, ix`shape
    ensures ix.Stored() && ix.shape.off == old(ix.shape).off && !r.Rebalance?
    ensures Outcome(r, key, old(ix.Contents()), ix.Contents())
  {
    ix.NodeBlock(p);
    BlockInOrder(ix, p);
    NarrowedHasKey(ix.shape, p, key);
    ghost var s0, t, es := ix.store, ix.shape, Sub(ix.shape, p).elems;
    assert forall i :: 0 <= i < |es| ==> ix.store[off].slots[i].key == es[i].key;
    ghost var m: nat;
    r, m := RemoveAtLeaf(ix, off, key);
    if r.Removed? {
      HereValid(s0, ix.store, t, p, key, m, ix.height, ix.Degree(), ix.nextOffset);
      ix.shape := Replace(t, p, Leaf(off, Without(es, m)));
    }
  }

  lemma HereValid(s0: Store, s1: Store, t: Tree, p: Path, k: Key, m: nat, h: nat, d: nat, limit: int)
    requires ValidIndex(s0, t, h, d, limit) && IsPath(t, p) && Sub(t, p).Leaf? && Narrowed(t, p, k)
    requires m < |Sub(t, p).elems| && |Sub(t, p).elems| >= if p == [] then 2 else d
    requires var off := Sub(t, p).off;
             off in s0 && m < |s0[off].slots| && s0[off].slots[m].key == k && OnlyBody(s0, s1, off) && RemoveBody(s0[off], s1[off], m)
    ensures var t' := Replace(t, p, Leaf(Sub(t, p).off, Without(Sub(t, p).elems, m)));
            ValidIndex(s1, t', h, d, limit) && t'.off == t.off
            && multiset(Elems(t')) == multiset(Elems(t)) - multiset{Sub(t, p).elems[m]}
    ensures var e := Decode(s0[Sub(t, p).off].slots[m]); e == Sub(t, p).elems[m] && e in Elems(t)
  {
    LeafElement(s0, t, p, m, h, d, limit);
    NotLast(t, p, k, m, h, d);
    WithoutContents(Sub(t, p).elems, m);
    RemoveValid(s0, s1, t, p, m, h, d, limit);
  }

  lemma LeafElement(s0: Store, t: Tree, p: Path, m: nat, h: nat, d: nat, limit: int)
    requires ValidIndex(s0, t, h, d, limit) && IsPath(t, p) && Sub(t, p).Leaf? && m < |Sub(t, p).elems|
    ensures var s := Sub(t, p);
            s.off in s0 && m < |s0[s.off].slots| && Decode(s0[s.off].slots[m]) == s.elems[m] && s.elems[m] in Elems(t)
  {
    var s := Sub(t, p);
    RepSub(s0, t, p, None, 2 * d);
    SubElems(t, p);
    assert s.elems[m] in Elems(t);
    CombinedOffset(s.elems[m], Slot(0, 0));
  }

  /** `remove_from_non_leaf` directly above leaves, the left one with an element to spare. */
  method RemoveSeparator(ix: Index, off: int, n: nat, key: Key, ghost p: Path) returns (r: Removal)
    requires ix.Stored() && IsPath(ix.shape, p) && Sub(ix.shape, p).off == off
    requires Spares(Sub(ix.shape, p), n, ix.Degree()) && n < |Sub(ix.shape, p).keys| && Sub(ix.shape, p).keys[n] == key
    modifies ix`store, ix`shape
    ensures ix.Stored() && ix.shape.off == old(ix.shape).off
    ensures r.Removed? && Outcome(r, key, old(ix.Contents()), ix.Contents())
  {
    ghost var s0, t, u, d := ix.store, ix.shape, Sub(ix.shape, p), ix.Degree();
    KidLeaf(ix, p, n);
    LeafInOrder(ix, p, n);
    var child := ix.store[off].slots[n].ptr;
    assert s0[child].slots[|u.kids[n].elems| - 1].key == key;
    ghost var m: nat;
    r, m := DropInBlocks(ix, off, n, child, key);
    assert CanDrop(u, n, m, d) && DropBlocks(s0, ix.store, off, n, NextBest(u, n), child, m);
    SeparatorValid(s0, ix.store, t, p, n, m, ix.height, d, ix.nextOffset);
    ix.shape := Replace(t, p, Dropped(u, n, m, d));
  }

  /** Its steps on the two blocks. */
  method DropInBlocks(ix: Index, off: int, n: nat, child: int, key: Key) returns (r: Removal, ghost m: nat)
    requires off in ix.store && child in ix.store && off != child && !ix.store[off].leaf && n < |ix.store[off].slots|
    requires ix.store[child].leaf && ix.store[child].numKey >= 2 && KeysInOrder(ix.store[child])
    requires ix.store[child].slots[ix.store[child].numKey - 1].key == key
    modifies ix`store
    ensures var b := old(ix.store)[child];
            && r.Removed? && m < b.numKey && b.slots[m].key == key && r.elem == Decode(b.slots[m])
            && DropBlocks(old(ix.store), ix.store, off, n, b.slots[b.numKey - 2].key, child, m)
  {
    var prev := ix.GetElement(child, ix.store[child].numKey - 2);
    ix.PutElement(off, n, prev);
    r, m := RemoveAtLeaf(ix, child, key);
  }

  lemma LeafInOrder(ix: Index, p: Path, c: nat)
    requires ix.Stored() && IsPath(ix.shape, p) && Sub(ix.shape, p).Inner? && c < |Sub(ix.shape, p).kids|
    ensures var o := Sub(ix.shape, p).kids[c].off; o in ix.store && KeysInOrder(ix.store[o])
  {
    PathStep(ix.shape, p, c);
    BlockInOrder(ix, p + [c]);
  }

  lemma SeparatorValid(s0: Store, s1: Store, t: Tree, p: Path, n: nat, m: nat, h: nat, d: nat, limit: int)
    requires ValidIndex(s0, t, h, d, limit) && IsPath(t, p) && CanDrop(Sub(t, p), n, m, d)
    requires DropBlocks(s0, s1, Sub(t, p).off, n, NextBest(Sub(t, p), n), Sub(t, p).kids[n].off, m)
    ensures var t' := Replace(t, p, Dropped(Sub(t, p), n, m, d));
            ValidIndex(s1, t', h, d, limit) && t'.off == t.off
            && multiset(Elems(t')) == multiset(Elems(t)) - multiset{Sub(t, p).kids[n].elems[m]}
    ensures m < |s0[Sub(t, p).kids[n].off].slots|
    ensures var e := Decode(s0[Sub(t, p).kids[n].off].slots[m]); e == Sub(t, p).kids[n].elems[m] && e in Elems(t)
  {
    PathStep(t, p, n);
    LeafElement(s0, t, p + [n], m, h, d, limit);
    DropValid(s0, s1, t, p, n, m, h, d, limit);
  }

  /** The block of a leaf below an inner node. */
  lemma KidLeaf(ix: Index, p: Path, n: nat)
    requires ix.Stored() && IsPath(ix.shape, p) && Sub(ix.shape, p).Inner? && n < |Sub(ix.shape, p).kids|
    requires Sub(ix.shape, p).kids[n].Leaf?
    ensures var u := Sub(ix.shape, p);
            var c, es := u.kids[n].off, u.kids[n].elems;
            && u.off in ix.store && !ix.store[u.off].leaf && |u.keys| < |ix.store[u.off].slots|
            && |u.kids| == |u.keys| + 1 && ix.store[u.off].slots[n].ptr == c && c != u.off
            && c in ix.store && ix.store[c].leaf && ix.store[c].numKey == |es| < |ix.store[c].slots|
            && (forall i :: 0 <= i < |es| ==> ix.store[c].slots[i] == Encode(es[i]))
            && es != [] && (n < |u.keys| ==> u.keys[n] == LastKey(es))
  {
    ix.NodeBlock(p);
    PathStep(ix.shape, p, n);
    ix.NodeBlock(p + [n]);
  }

  /** The receiving block in `borrow_from_prev`: elements and children move to the right, the new ones come in front. */
  method GetFirst(ix: Index, off: int, i: nat, sibling: int, child: int)
    requires off in ix.store && sibling in ix.store && child in ix.store && off != child && sibling != child
    requires i < |ix.store[off].slots| && ix.store[sibling].numKey < |ix.store[sibling].slots|
    requires !ix.store[child].leaf && ix.store[child].numKey + 2 < |ix.store[child].slots|
    modifies ix`store
    ensures ix.store.Keys == old(ix.store).Keys && forall o :: o in ix.store && o != child ==> ix.store[o] == old(ix.store)[o]
    ensures GotBody(old(ix.store)[child], ix.store[child], old(ix.store)[off].slots[i].key,
                    old(ix.store)[sibling].slots[old(ix.store)[sibling].numKey].ptr)
    ensures SameRefs(old(ix.store)[child], ix.store[child])
  {
    ix.ShiftElements(child, 0);
    ix.CopyElement(off, i, child, 0);
    ix.SetNumKey(child, ix.store[child].numKey + 1);
    ghost var b := ix.store[child];
    ix.ShiftChildren(child, 0);
    ix.PutChild(child, 0, ix.store[sibling].slots[ix.store[sibling].numKey].ptr);
  }

  /** The steps of `borrow_from_prev` on the three blocks. */
  method MoveFromPrev(ix: Index, off: int, i: nat, sibling: int, child: int)
    requires off in ix.store && sibling in ix.store && child in ix.store && off != child && sibling != child && off != sibling
    requires !ix.store[off].leaf && i < |ix.store[off].slots| && 0 < ix.store[sibling].numKey < |ix.store[sibling].slots|
    requires !ix.store[child].leaf && ix.store[child].numKey + 2 < |ix.store[child].slots|
    modifies ix`store
    ensures RotateBlocks(old(ix.store), ix.store, off, i, sibling, child)
  {
    GetFirst(ix, off, i, sibling, child);
    ix.CopyElement(sibling, ix.store[sibling].numKey - 1, off, i);
    ix.SetNumKey(sibling, ix.store[sibling].numKey - 1);
  }

  /** `borrow_from_prev` between inner nodes. */
  method BorrowFromPrev(ix: Index, off: int, n: nat, ghost p: Path)
    requires ix.Stored() && IsPath(ix.shape, p) && Sub(ix.shape, p).off == off && n > 0 && CanRotate(Sub(ix.shape, p), n - 1)
    requires Count(Sub(ix.shape, p).kids[n - 1]) >= ix.Degree() > Count(Sub(ix.shape, p).kids[n])
    modifies ix`store, ix`shape
    ensures ix.Stored() && ix.shape == Replace(old(ix.shape), p, Rotated(Sub(old(ix.shape), p), n - 1))
    ensures ix.shape.off == old(ix.shape).off && ix.Contents() == old(ix.Contents())
  {
    ghost var s0, t, u := ix.store, ix.shape, Sub(ix.shape, p);
    KidBlock(ix, p, n - 1);
    KidBlock(ix, p, n);
    KidsApart(t, p, n - 1, ix.height, ix.Degree());
    var child, sibling := ix.store[off].slots[n].ptr, ix.store[off].slots[n - 1].ptr;
    MoveFromPrev(ix, off, n - 1, sibling, child);
    RotateValid(s0, ix.store, t, p, n - 1, ix.height, ix.Degree(), ix.nextOffset);
    ix.shape := Replace(t, p, Rotated(u, n - 1));
  }

  /** The block of a child. */
  lemma KidBlock(ix: Index, p: Path, n: nat)
    requires ix.Stored() && IsPath(ix.shape, p) && Sub(ix.shape, p).Inner? && n < |Sub(ix.shape, p).kids|
    ensures var u := Sub(ix.shape, p);
            var c := u.kids[n];
            && u.off in ix.store && !ix.store[u.off].leaf && ix.store[u.off].numKey == |u.keys| < |ix.store[u.off].slots|
            && |u.kids| == |u.keys| + 1 && ix.store[u.off].slots[n].ptr == c.off && c.off != u.off
            && c.off in ix.store && ix.store[c.off].leaf == c.Leaf? && ix.store[c.off].numKey == Count(c)
            && |ix.store[c.off].slots| == ix.order && Count(c) < ix.order
            && (n < |u.keys| ==> ix.store[u.off].slots[n].key == u.keys[n])
  {
    ix.NodeBlock(p);
    PathStep(ix.shape, p, n);
    ix.NodeBlock(p + [n]);
  }

  lemma KidsApart(t: Tree, p: Path, i: nat, h: nat, d: nat)
    requires WellFormed(t, h, d) && IsPath(t, p) && Sub(t, p).Inner? && i + 1 < |Sub(t, p).kids|
    ensures Sub(t, p).kids[i].off != Sub(t, p).kids[i + 1].off
  {
    NodeOrdered(t, p, h, d);
    CutTwo(Sub(t, p).kids, i);
    assert Sub(t, p).kids[i].off in Offs(Sub(t, p).kids[i]) && Sub(t, p).kids[i + 1].off in Offs(Sub(t, p).kids[i + 1]);
  }

  /** A search in the inner node at `p` ends at slot `n`, whose child lies at `child`. */
  ghost predicate Led(ix: Index, off: int, key: Key, p: Path, n: nat, child: int)
    reads ix
  {
    && IsPath(ix.shape, p) && Sub(ix.shape, p).off == off && Sub(ix.shape, p).Inner? && off in ix.store
    && var s := Sub(ix.shape, p);
       && n == Place(s.keys, key) && |s.kids| == |s.keys| + 1 && s.kids[n].off == child
       && ix.store[off].numKey == |s.keys| < |ix.store[off].slots|
       && ((n < |s.keys| && ix.store[off].slots[n].key == key) <==> key in s.keys)
       && (if key in s.keys then n < |s.keys| && s.keys[n] == key
           else (n > 0 ==> s.keys[n - 1] < key) && (n < |s.keys| ==> key < s.keys[n]))
  }

  /** The search in an inner node, and the child it leads to. */
  method FindHere(ix: Index, off: int, key: Key, ghost p: Path) returns (n: nat, child: int)
    requires ix.Stored() && IsPath(ix.shape, p) && Sub(ix.shape, p).off == off && Sub(ix.shape, p).Inner?
    ensures Led(ix, off, key, p, n, child)
  {
    ix.NodeBlock(p);
    BlockInOrder(ix, p);
    ghost var s := Sub(ix.shape, p);
    n := FindKey(ix.store[off], key);
    NodeKeys(ix.store[off], s, Bound(ix.shape, p, None), ix.order, key, n);
    child := ix.store[off].slots[n].ptr;
    if n > 0 { assert ix.store[off].slots[n - 1].key == s.keys[n - 1]; }
  }

  /** The node at `p` is `v`, and the key can only be below it. */
  ghost predicate StandsAtNode(ix: Index, off: int, key: Key, p: Path, v: Tree)
    reads ix
  {
    && ix.Stored() && IsPath(ix.shape, p) && Sub(ix.shape, p) == v && v.off == off && Narrowed(ix.shape, p, key)
    && (v.Leaf? ==> |v.elems| >= if p == [] then 2 else ix.Degree())
  }

  lemma NodeStands(ix: Index, key: Key, p: Path)
    requires ix.Stored() && IsPath(ix.shape, p) && Narrowed(ix.shape, p, key) && Count(Sub(ix.shape, p)) >= ix.Degree()
    ensures StandsAtNode(ix, Sub(ix.shape, p).off, key, p, Sub(ix.shape, p))
  {
    SubInvariants(ix.shape, p, ix.height, ix.Degree());
  }

  /** A child with few keys borrows one. */
  method BorrowBefore(ix: Index, off: int, n: nat, key: Key, ghost p: Path)
    requires ix.Stored() && IsPath(ix.shape, p) && Sub(ix.shape, p).off == off && Narrowed(ix.shape, p, key)
    requires var v := Sub(ix.shape, p);
             && Lends(v, n, ix.Degree()) && Count(v.kids[n]) < ix.Degree() <= Count(v.kids[n]) + 1
             && v.keys[n - 1] < key && (n < |v.keys| ==> key < v.keys[n])
    modifies ix`store, ix`shape
    ensures ix.Stored() && ix.shape.off == old(ix.shape).off && ix.Contents() == old(ix.Contents())
    ensures var v := Sub(old(ix.shape), p);
            StandsAtNode(ix, v.kids[n].off, key, p + [n], FromPrev(PairAt(v, n - 1)).r)
  {
    ghost var t := ix.shape;
    BorrowFromPrev(ix, off, n, p);
    BorrowNarrows(t, ix.shape, p, n, key, ix.height, ix.Degree());
    NodeStands(ix, key, p + [n]);
  }

  /** `fill` before the child is entered, as far as an inner child can borrow from the left. */
  method FillBefore(ix: Index, off: int, n: nat, child: int, key: Key, ghost p: Path, ghost v: Tree) returns (ok: bool)
    requires StandsAtNode(ix, off, key, p, v) && Led(ix, off, key, p, n, child) && key !in v.keys
    modifies ix`store, ix`shape
    ensures ix.Stored() && ix.shape.off == old(ix.shape).off && ix.Contents() == old(ix.Contents())
    ensures ok <==> Enters(v, n, ix.Degree())
    ensures ok ==> StandsAtNode(ix, child, key, p + [n], Entered(v, n, ix.Degree()))
  {
    KidBlock(ix, p, n);
    if n > 0 { KidBlock(ix, p, n - 1); }
    ghost var t := ix.shape;
    KidSeps(t, p, n, ix.height, ix.Degree());
    if ix.store[child].numKey >= ix.order / 2 {
      NarrowStep(t, p, n, key, ix.height, ix.Degree());
      NodeStands(ix, key, p + [n]);
      ok := true;
    } else if n > 0 && !ix.store[child].leaf && ix.store[ix.store[off].slots[n - 1].ptr].numKey >= ix.order / 2 {
      BorrowBefore(ix, off, n, key, p);
      ok := true;
    } else {
      ok := false;
    }
  }

  /** Neighbouring children are of one kind and have one child more than keys. */
  lemma KidSeps(t: Tree, p: Path, n: nat, h: nat, d: nat)
    requires WellFormed(t, h, d) && IsPath(t, p) && Sub(t, p).Inner? && n < |Sub(t, p).kids|
    ensures var s := Sub(t, p);
            && |s.kids| == |s.keys| + 1 && d <= Count(s.kids[n]) + 1
            && (s.kids[n].Inner? ==> |s.kids[n].kids| == |s.kids[n].keys| + 1)
            && (n > 0 && s.kids[n].Inner? ==> s.kids[n - 1].Inner? && |s.kids[n - 1].kids| == |s.kids[n - 1].keys| + 1)
  {
    SubInvariants(t, p, h, d);
    var s := Sub(t, p);
    assert Seps(s.kids[n]) && Balanced(s.kids[n], h - |p| - 1) && Occupied(s.kids[n], d);
    if n > 0 { assert Seps(s.kids[n - 1]) && Balanced(s.kids[n - 1], h - |p| - 1); }
  }

  /** After borrowing the key is still to be looked for in that child. */
  lemma BorrowNarrows(t: Tree, t': Tree, p: Path, n: nat, key: Key, h: nat, d: nat)
    requires WellFormed(t, h, d) && IsPath(t, p) && Narrowed(t, p, key) && Lends(Sub(t, p), n, d)
    requires Sub(t, p).keys[n - 1] < key && (n < |Sub(t, p).keys| ==> key < Sub(t, p).keys[n])
    requires t' == Replace(t, p, Rotated(Sub(t, p), n - 1)) && WellFormed(t', h, d) && Count(Sub(t, p).kids[n]) + 1 >= d
    ensures IsPath(t', p + [n]) && Sub(t', p + [n]) == FromPrev(PairAt(Sub(t, p), n - 1)).r && Narrowed(t', p + [n], key)
    ensures Sub(t', p + [n]).off == Sub(t, p).kids[n].off && Count(Sub(t', p + [n])) >= d
  {
    var u := Sub(t, p);
    var v := Rotated(u, n - 1);
    RotatedBounds(t, p, n, key, h, d);
    ReplaceNarrowed(t, p, v, key);
    NarrowStep(t', p, n, key, h, d);
  }

  lemma RotatedBounds(t: Tree, p: Path, n: nat, key: Key, h: nat, d: nat)
    requires WellFormed(t, h, d) && IsPath(t, p) && Lends(Sub(t, p), n, d) && Sub(t, p).keys[n - 1] < key
    ensures var u, v := Sub(t, p), Rotated(Sub(t, p), n - 1);
            && v.Inner? && |v.keys| == |u.keys| && |v.kids| == |u.kids| && v.keys[n - 1] < key
            && (n < |u.keys| ==> v.keys[n] == u.keys[n])
            && v.kids[n] == FromPrev(PairAt(u, n - 1)).r && v.kids[n].off == u.kids[n].off && Count(v.kids[n]) == Count(u.kids[n]) + 1
  {
    NodeOrdered(t, p, h, d);
    LastBelow(Sub(t, p), n - 1);
  }

  lemma ReplaceNarrowed(t: Tree, p: Path, v: Tree, key: Key)
    requires IsPath(t, p) && Narrowed(t, p, key)
    ensures IsPath(Replace(t, p, v), p) && Sub(Replace(t, p, v), p) == v && Narrowed(Replace(t, p, v), p, key)
  {
    ReplaceSurroundings(t, p, v);
  }

  /** `remove_from_non_leaf`, as far as its left child is a leaf that can spare the element. */
  method RemoveMatch(ix: Index, off: int, n: nat, child: int, key: Key, ghost p: Path, ghost v: Tree) returns (r: Removal)
    requires StandsAtNode(ix, off, key, p, v) && Led(ix, off, key, p, n, child) && key in v.keys
    modifies ix`store, ix`shape
    ensures ix.Stored() && ix.shape.off == old(ix.shape).off
    ensures r.Rebalance? <==> !Spares(v, n, ix.Degree())
    ensures r.Rebalance? ==> ix.shape == old(ix.shape)
    ensures !r.Absent? && Outcome(r, key, old(ix.Contents()), ix.Contents())
  {
    KidBlock(ix, p, n);
    if ix.store[child].leaf && ix.store[child].numKey >= ix.order / 2 {
      r := RemoveSeparator(ix, off, n, key, p);
    } else {
      r := Rebalance;
    }
  }

  // ------------------------------------------------- one step after another

  /** Mentioned where one of the sealed predicates below is to be looked into. */
  predicate Peek(z: int) { true }

  ghost predicate Intact(ix: Index)
    reads ix
  {
    forall z: int {:trigger Peek(z)} :: Peek(z) ==> ix.Stored()
  }

  /** The search has come to node `v`; `stuck` says whether the removal stops there or below. */
  ghost predicate AtNode(ix: Index, off: int, key: Key, p: Path, v: Tree, stuck: bool)
    reads ix
  {
    forall z: int {:trigger Peek(z)} :: Peek(z) ==>
      StandsAtNode(ix, off, key, p, v) && |p| <= ix.height && Answers(v, key, ix.Degree(), ix.height - |p|, stuck)
  }

  ghost predicate Answers(v: Tree, key: Key, d: nat, h: nat, stuck: bool) {
    Balanced(v, h) && Seps(v) && stuck == NeedsRebalance(v, key, d, h)
  }

  ghost predicate LedTo(ix: Index, off: int, key: Key, p: Path, n: nat, child: int)
    reads ix
  {
    forall z: int {:trigger Peek(z)} :: Peek(z) ==> Led(ix, off, key, p, n, child)
  }

  lemma LeafFlag(ix: Index, off: int, key: Key, p: Path, v: Tree, stuck: bool)
    requires AtNode(ix, off, key, p, v, stuck)
    ensures off in ix.store && ix.store[off].leaf == v.Leaf? && (v.Leaf? ==> !stuck)
  {
    assert Peek(0);
    ix.NodeBlock(p);
  }

  method LeafCase(ix: Index, off: int, key: Key, ghost p: Path, ghost v: Tree, ghost stuck: bool) returns (r: Removal)
    requires AtNode(ix, off, key, p, v, stuck) && v.Leaf?
    modifies ix`store, ix`shape
    ensures Intact(ix) && ix.shape.off == old(ix.shape).off && !r.Rebalance?
    ensures Outcome(r, key, old(ix.Contents()), ix.Contents())
  {
    assert Peek(0);
    r := RemoveHere(ix, off, key, p);
  }

  method SearchStep(ix: Index, off: int, key: Key, ghost p: Path, ghost v: Tree, ghost stuck: bool)
      returns (n: nat, child: int, hit: bool)
    requires AtNode(ix, off, key, p, v, stuck) && v.Inner?
    ensures LedTo(ix, off, key, p, n, child) && hit == (key in v.keys)
  {
    assert Peek(0);
    n, child := FindHere(ix, off, key, p);
    hit := n < ix.store[off].numKey && ix.store[off].slots[n].key == key;
  }

  method MatchCase(ix: Index, off: int, n: nat, child: int, key: Key, ghost p: Path, ghost v: Tree, ghost stuck: bool)
      returns (r: Removal)
    requires AtNode(ix, off, key, p, v, stuck) && LedTo(ix, off, key, p, n, child) && v.Inner? && key in v.keys
    modifies ix`store, ix`shape
    ensures Intact(ix) && ix.shape.off == old(ix.shape).off && r.Rebalance? == stuck
    ensures r.Rebalance? ==> ix.shape == old(ix.shape)
    ensures Outcome(r, key, old(ix.Contents()), ix.Contents())
  {
    MatchAnswer(ix, off, n, child, key, p, v, stuck);
    assert Peek(0);
    r := RemoveMatch(ix, off, n, child, key, p, v);
  }

  lemma MatchAnswer(ix: Index, off: int, n: nat, child: int, key: Key, p: Path, v: Tree, stuck: bool)
    requires AtNode(ix, off, key, p, v, stuck) && LedTo(ix, off, key, p, n, child) && v.Inner? && key in v.keys
    ensures stuck == !Spares(v, n, ix.Degree())
  {
    assert Peek(0);
  }

  /** What is known of the next node before the blocks change. */
  ghost predicate NextNode(v: Tree, n: nat, key: Key, d: nat, h: int, w: Tree, stuck: bool) {
    forall z: int {:trigger Peek(z)} :: Peek(z) ==>
      if Enters(v, n, d) then h > 0 && w == Entered(v, n, d) && Answers(w, key, d, h - 1, stuck) else stuck
  }

  lemma Next(ix: Index, off: int, n: nat, child: int, key: Key, p: Path, v: Tree, d: nat, h: int, stuck: bool) returns (w: Tree)
    requires AtNode(ix, off, key, p, v, stuck) && LedTo(ix, off, key, p, n, child) && v.Inner? && key !in v.keys
    requires d == ix.Degree() && h == ix.height - |p|
    ensures NextNode(v, n, key, d, h, w, stuck)
  {
    assert Peek(0);
    w := v;
    if Enters(v, n, ix.Degree()) {
      EnteredKeeps(v, n, ix.Degree(), ix.height - |p|);
      w := Entered(v, n, ix.Degree());
    }
  }

  ghost predicate Filled(ix: Index, child: int, key: Key, q: Path, v: Tree, n: nat)
    reads ix
  {
    forall z: int {:trigger Peek(z)} :: Peek(z) ==>
      Enters(v, n, ix.Degree()) && StandsAtNode(ix, child, key, q, Entered(v, n, ix.Degree()))
  }

  ghost predicate Refused(v: Tree, n: nat, d: nat) {
    forall z: int {:trigger Peek(z)} :: Peek(z) ==> !Enters(v, n, d)
  }

  method FillStep(ix: Index, off: int, n: nat, child: int, key: Key, ghost p: Path, ghost v: Tree, ghost stuck: bool)
      returns (ok: bool, ghost q: Path)
    requires AtNode(ix, off, key, p, v, stuck) && LedTo(ix, off, key, p, n, child) && v.Inner? && key !in v.keys
    modifies ix`store, ix`shape
    ensures Intact(ix) && ix.shape.off == old(ix.shape).off && ix.Contents() == old(ix.Contents()) && |q| == |p| + 1
    ensures ok ==> Filled(ix, child, key, q, v, n)
    ensures !ok ==> forall d: nat :: d == ix.Degree() ==> Refused(v, n, d)
  {
    assert Peek(0);
    q := p + [n];
    ok := FillBefore(ix, off, n, child, key, p, v);
  }

  lemma Arrived(ix: Index, child: int, key: Key, q: Path, v: Tree, n: nat, d: nat, h: int, w: Tree, stuck: bool)
    requires d == ix.Degree() && h == ix.height - |q| + 1
    requires Filled(ix, child, key, q, v, n) && NextNode(v, n, key, d, h, w, stuck)
    ensures |q| <= ix.height && AtNode(ix, child, key, q, w, stuck)
  {
    assert Peek(0);
  }

  lemma Stopped(v: Tree, n: nat, key: Key, d: nat, h: int, w: Tree, stuck: bool)
    requires Refused(v, n, d) && NextNode(v, n, key, d, h, w, stuck)
    ensures stuck
  {
    assert Peek(0);
  }

  /** Go to the child the search has led to, which may have to be filled. */
  method EnterStep(ix: Index, off: int, n: nat, child: int, key: Key, ghost p: Path, ghost v: Tree, ghost stuck: bool)
      returns (ok: bool, ghost q: Path, ghost w: Tree)
    requires AtNode(ix, off, key, p, v, stuck) && LedTo(ix, off, key, p, n, child) && v.Inner? && key !in v.keys
    modifies ix`store, ix`shape
    ensures Intact(ix) && ix.shape.off == old(ix.shape).off && ix.Contents() == old(ix.Contents())
    ensures ok ==> |p| < |q| <= ix.height && AtNode(ix, child, key, q, w, stuck)
    ensures !ok ==> stuck
  {
    ghost var d: nat, h: int := ix.Degree(), ix.height - |p|;
    w := Next(ix, off, n, child, key, p, v, d, h, stuck);
    ok, q := FillStep(ix, off, n, child, key, p, v, stuck);
    if ok {
      Arrived(ix, child, key, q, v, n, d, h, w, stuck);
    } else {
      Stopped(v, n, key, d, h, w, stuck);
    }
  }

  /** `node::remove`, as far as no child on the way needs filling in another way. */
  method RemoveBelow(ix: Index, off: int, key: Key, ghost p: Path, ghost v: Tree, ghost stuck: bool) returns (r: Removal)
    requires AtNode(ix, off, key, p, v, stuck) && |p| <= ix.height
    modifies ix`store, ix`shape
    ensures Intact(ix) && ix.shape.off == old(ix.shape).off && r.Rebalance? == stuck
    ensures stuck && v.Inner? && key in v.keys ==> ix.shape == old(ix.shape)
    ensures Outcome(r, key, old(ix.Contents()), ix.Contents())
    decreases ix.height - |p|
  {
    LeafFlag(ix, off, key, p, v, stuck);
    if ix.store[off].leaf {
      r := LeafCase(ix, off, key, p, v, stuck);
    } else {
      var n, child, hit := SearchStep(ix, off, key, p, v, stuck);
      if hit {
        r := MatchCase(ix, off, n, child, key, p, v, stuck);
      } else {
        ghost var q: Path, w: Tree;
        var ok: bool;
        ok, q, w := EnterStep(ix, off, n, child, key, p, v, stuck);
        if !ok { return Rebalance; }
        r := RemoveBelow(ix, child, key, q, w, stuck);
      }
    }
  }

  /** `tree::remove(key)`: exactly one element goes, or the contents stay. */
  method Remove(ix: Index, key: Key) returns (r: Removal)
    requires ix.Valid()
    modifies ix
    ensures ix.Valid()
    ensures r.Rebalance? <==> (old(ix.root) >= 0 && Balanced(old(ix.shape), old(ix.height)) && Seps(old(ix.shape))
                               && NeedsRebalance(old(ix.shape), key, ix.Degree(), old(ix.height)))
    ensures r.Rebalance? && key in old(ix.shape).keys ==> ix.shape == old(ix.shape)
    ensures old(ix.shape).Inner? ==> ix.root == old(ix.root) && ix.height == old(ix.height)
    ensures Outcome(r, key, old(ix.Contents()), ix.Contents())
  {
    if ix.root < 0 {
      return Absent;
    }
    ix.NodeBlock([]);
    if ix.store[ix.root].leaf && ix.store[ix.root].numKey == 1 {
      r := RemoveOnly(ix, key);
    } else {
      ghost var stuck := NeedsRebalance(ix.shape, key, ix.Degree(), ix.height);
      r := RemoveBelow(ix, ix.root, key, [], ix.shape, stuck);
      assert Peek(0);
    }
  }

  /** The last element: the root dies and the index is empty. */
  method RemoveOnly(ix: Index, key: Key) returns (r: Removal)
    requires ix.Valid() && ix.root >= 0 && ix.shape.Leaf? && |ix.shape.elems| == 1
    modifies ix
    ensures ix.Valid() && !r.Rebalance?
    ensures !r.Removed? ==> ix.Contents() == old(ix.Contents())
    ensures r.Absent? ==> !HasKey(old(ix.Contents()), key)
    ensures r.Removed? ==> r.elem.key == key && old(ix.Contents()) == [r.elem] && ix.Contents() == []
  {
    ix.NodeBlock([]);
    LeafElem(ix, [], 0);
    assert ix.store[ix.root].slots[0].key == ix.shape.elems[0].key;
    if ix.store[ix.root].slots[0].key == key {
      var e := RemoveFromLeaf(ix, ix.root, 0);
      ix.root := -1;
      ix.shape := Leaf(-1, []);
      r := Removed(e);
    } else {
      r := Absent;
    }
  }

  ghost predicate DistinctKeys(es: seq<Elem>) {
    forall i, j :: 0 <= i < j < |es| ==> es[i].key != es[j].key
  }

  /** Elements with distinct keys occur once. */
  lemma OccursOnce(es: seq<Elem>, n: nat)
    requires DistinctKeys(es) && n < |es|
    ensures multiset(es)[es[n]] == 1
  {
    var a, b := es[..n], es[n + 1..];
    assert es == a + [es[n]] + b;
    forall i | 0 <= i < |a| ensures a[i] != es[n] { assert es[i].key != es[n].key; }
    forall i | 0 <= i < |b| ensures b[i] != es[n] { assert es[n].key != es[n + 1 + i].key; }
    assert multiset(es) == multiset(a) + multiset{es[n]} + multiset(b);
  }

  lemma KeyAmong(es: seq<Elem>, k: Key)
    ensures HasKey(es, k) <==> exists x :: x in multiset(es) && x.key == k
  {
    if HasKey(es, k) {
      var i :| 0 <= i < |es| && es[i].key == k;
      assert es[i] in multiset(es);
    }
    if x :| x in multiset(es) && x.key == k {
      var i :| 0 <= i < |es| && es[i] == x;
    }
  }

  /** With distinct keys, a removed key is no longer found (and the others still are). */
  lemma RemovedIsGone(es: seq<Elem>, es': seq<Elem>, e: Elem, k: Key)
    requires DistinctKeys(es) && e in es && multiset(es') == multiset(es) - multiset{e}
    ensures HasKey(es', k) <==> HasKey(es, k) && k != e.key
  {
    var n :| 0 <= n < |es| && es[n] == e;
    OccursOnce(es, n);
    KeyAmong(es, k);
    KeyAmong(es', k);
    assert forall x :: x in multiset(es') <==> x in multiset(es) && x != e;
    forall x | x in multiset(es) && x != e ensures x.key != e.key {
      var i :| 0 <= i < |es| && es[i] == x;
      if i < n { assert es[i].key != es[n].key; } else { assert es[n].key != es[i].key; }
    }
  }

  /** Removing a key of an index with distinct keys makes a later lookup end at the end. */
  method RemoveThenFind(ix: Index, key: Key) returns (r: Removal, it: Iter, end: Iter)
    requires ix.Valid() && DistinctKeys(ix.Contents())
    modifies ix
    ensures ix.Valid()
    ensures r.Removed? || r.Absent? ==> it == end
    ensures r.Removed? ==> forall k :: HasKey(ix.Contents(), k) <==> HasKey(old(ix.Contents()), k) && k != key
  {
    r := Remove(ix, key);
    if r.Removed? {
      forall k ensures HasKey(ix.Contents(), k) <==> HasKey(old(ix.Contents()), k) && k != key {
        RemovedIsGone(old(ix.Contents()), ix.Contents(), r.elem, k);
      }
    }
    it, end := Find(ix, key);
  }
}

/** One index of a table file: the operations that change its blocks in place. */
module IndexFile {
  import opened Prelude
  import opened IndexShape
  import opened IndexPath
  import opened IndexSplit
  import opened IndexStore
  import opened IndexSplitStore
  import opened IndexLeafStore

  class Index {
    const order: nat
    var store: Store      // blocks by offset
    var root: int         // offset of the root block, negative when empty
    var nextOffset: int   // end of the file
    ghost var shape: Tree // what the blocks spell
    ghost var height: nat

    ghost function Degree(): nat { order / 2 }

    /** Every block has room for `order` slots and lies below the end of the file. */
    ghost predicate Sized()
      reads this
    {
      && order >= 4 && order % 2 == 0 && nextOffset >= 0
      && (forall o :: o in store ==> |store[o].slots| == order && 0 <= o < nextOffset)
    }

    ghost predicate Stored()
      reads this
    {
      Sized() && ValidIndex(store, shape, height, Degree(), nextOffset)
    }

    ghost predicate Valid()
      reads this
    {
      && Sized()
      && (root < 0 ==> shape == Leaf(-1, []))
      && (root >= 0 ==> root == shape.off && ValidIndex(store, shape, height, Degree(), nextOffset))
    }

    ghost function Contents(): seq<Elem>
      reads this
    {
      Elems(shape)
    }

    constructor (order: nat)
      requires order >= 4 && order % 2 == 0
      ensures Valid() && Contents() == [] && this.order == order
    {
      this.order := order;
      store, root, nextOffset := map[], -1, 0;
      shape, height := Leaf(-1, []), 0;
    }

    // ------------------------------------------------------------- codecs

    function GetElement(off: int, n: nat): Elem
      requires off in store && n < |store[off].slots|
      reads this
    {
      var b := store[off];
      if b.leaf then Decode(b.slots[n]) else Elem(b.slots[n].key, 0, 0)
    }

    method PutElement(off: int, n: nat, e: Elem)
      requires off in store && n < |store[off].slots|
      modifies this`store
      ensures var b := old(store)[off];
              store == old(store)[off := b.(slots := b.slots[n :=
                if b.leaf then Encode(e) else Slot(b.slots[n].ptr, e.key)])]
    {
      var b := store[off];
      if b.leaf {
        store := store[off := b.(slots := b.slots[n := Encode(e)])];
      } else {
        store := store[off := b.(slots := b.slots[n := Slot(b.slots[n].ptr, e.key)])];
      }
    }

    /** `dst.put_element(j, src.get_element(i))`: a leaf slot moves whole, otherwise the key does. */
    method CopyElement(src: int, i: nat, dst: int, j: nat)
      requires src in store && dst in store && i < |store[src].slots| && j < |store[dst].slots|
      requires store[dst].leaf ==> store[src].leaf
      modifies this`store
      ensures var b, s := old(store)[dst], old(store)[src].slots[i];
              store == old(store)[dst := b.(slots := b.slots[j := if b.leaf then s else Slot(b.slots[j].ptr, s.key)])]
    {
      var e := GetElement(src, i);
      CombinedOffset(e, store[src].slots[i]);
      PutElement(dst, j, e);
    }

    method PutChild(off: int, n: nat, child: int)
      requires off in store && n < |store[off].slots|
      modifies this`store
      ensures var b := old(store)[off];
              store == old(store)[off := b.(slots := b.slots[n := Slot(child, b.slots[n].key)])]
    {
      var b := store[off];
      store := store[off := b.(slots := b.slots[n := Slot(child, b.slots[n].key)])];
    }

    method SetNumKey(off: int, n: nat)
      requires off in store
      modifies this`store
      ensures store == old(store)[off := old(store)[off].(numKey := n)]
    {
      store := store[off := store[off].(numKey := n)];
    }

    // --------------------------------------------------------- allocation

    method NewNode(leaf: bool) returns (q: int)
      requires Sized()
      modifies this`store, this`nextOffset
      ensures q == old(nextOffset) && nextOffset == q + BLOCK_SZ && Sized()
      ensures store == old(store)[q := Block(leaf, 0, seq(order, _ => Slot(0, 0)), INVALID_REF, INVALID_REF)]
    {
      q := nextOffset;
      nextOffset := q + BLOCK_SZ;
      store := store[q := Block(leaf, 0, seq(order, _ => Slot(0, 0)), INVALID_REF, INVALID_REF)];
    }

    // -------------------------------------------------------------- split

    ghost predicate HeaderKept(b: Block, v: Block) {
      v.leaf == b.leaf && v.numKey == b.numKey && v.prev == b.prev && v.next == b.next && |v.slots| == |b.slots|
    }

    /** Copy elements d .. 2d-2 of one block to the front of another. */
    method CopyElements(src: int, dst: int, d: nat)
      requires src in store && dst in store && src != dst && store[src].leaf == store[dst].leaf
      requires |store[src].slots| >= 2 * d && |store[dst].slots| >= 2 * d && d >= 1
      modifies this`store
      ensures store.Keys == old(store).Keys && forall o :: o in store && o != dst ==> store[o] == old(store)[o]
      ensures HeaderKept(old(store)[dst], store[dst])
      ensures forall i :: 0 <= i < d - 1 ==> store[dst].slots[i].key == store[src].slots[d + i].key
      ensures store[src].leaf ==> forall i :: 0 <= i < d - 1 ==> store[dst].slots[i].ptr == store[src].slots[d + i].ptr
      ensures forall i :: d - 1 <= i < |store[dst].slots| ==> store[dst].slots[i] == old(store)[dst].slots[i]
    {
      for k := 0 to d - 1
        invariant store.Keys == old(store).Keys && forall o :: o in store && o != dst ==> store[o] == old(store)[o]
        invariant HeaderKept(old(store)[dst], store[dst])
        invariant forall i :: 0 <= i < k ==> store[dst].slots[i].key == store[src].slots[d + i].key
        invariant store[src].leaf ==> forall i :: 0 <= i < k ==> store[dst].slots[i].ptr == store[src].slots[d + i].ptr
        invariant forall i :: k <= i < |store[dst].slots| ==> store[dst].slots[i] == old(store)[dst].slots[i]
      {
        CopyElement(src, d + k, dst, k);
      }
    }

    /** Copy child offsets d .. 2d-1 of one block to the front of another. */
    method CopyChildren(src: int, dst: int, d: nat)
      requires src in store && dst in store && src != dst
      requires |store[src].slots| >= 2 * d && |store[dst].slots| >= 2 * d
      modifies this`store
      ensures store.Keys == old(store).Keys && forall o :: o in store && o != dst ==> store[o] == old(store)[o]
      ensures HeaderKept(old(store)[dst], store[dst])
      ensures forall i :: 0 <= i < |store[dst].slots| ==> store[dst].slots[i].key == old(store)[dst].slots[i].key
      ensures forall i :: 0 <= i < d ==> store[dst].slots[i].ptr == store[src].slots[d + i].ptr
    {
      for k := 0 to d
        invariant store.Keys == old(store).Keys && forall o :: o in store && o != dst ==> store[o] == old(store)[o]
        invariant HeaderKept(old(store)[dst], store[dst])
        invariant forall i :: 0 <= i < |store[dst].slots| ==> store[dst].slots[i].key == old(store)[dst].slots[i].key
        invariant forall i :: 0 <= i < k ==> store[dst].slots[i].ptr == store[src].slots[d + i].ptr
      {
        PutChild(dst, k, store[src].slots[d + k].ptr);
      }
    }

    /** Make room for child `m` by moving the children from there on one to the right. */
    method ShiftChildren(u: int, m: nat)
      requires u in store && m <= store[u].numKey + 1 < |store[u].slots|
      modifies this`store
      ensures store.Keys == old(store).Keys && forall o :: o in store && o != u ==> store[o] == old(store)[o]
      ensures HeaderKept(old(store)[u], store[u])
      ensures forall i :: 0 <= i < |store[u].slots| ==>
                store[u].slots[i] == Slot(ShiftPtr(old(store)[u], m, i), old(store)[u].slots[i].key)
    {
      var i := store[u].numKey;
      while i >= m
        invariant m - 1 <= i <= old(store)[u].numKey
        invariant store.Keys == old(store).Keys && forall o :: o in store && o != u ==> store[o] == old(store)[o]
        invariant HeaderKept(old(store)[u], store[u])
        invariant forall j :: 0 <= j < |store[u].slots| ==>
                  store[u].slots[j] == Slot(ShiftPtr(old(store)[u], i + 1, j), old(store)[u].slots[j].key)
      {
        PutChild(u, i + 1, store[u].slots[i].ptr);
        i := i - 1;
      }
    }

    /** Make room for element `n` by moving the elements above one to the right. */
    method ShiftElements(u: int, n: nat)
      requires u in store && !store[u].leaf && n <= store[u].numKey < |store[u].slots|
      modifies this`store
      ensures store.Keys == old(store).Keys && forall o :: o in store && o != u ==> store[o] == old(store)[o]
      ensures HeaderKept(old(store)[u], store[u])
      ensures forall i :: 0 <= i < |store[u].slots| ==>
                store[u].slots[i] == Slot(old(store)[u].slots[i].ptr, ShiftKey(old(store)[u], n, i))
    {
      var i := store[u].numKey - 1;
      while i >= n
        invariant n - 1 <= i <= old(store)[u].numKey - 1
        invariant store.Keys == old(store).Keys && forall o :: o in store && o != u ==> store[o] == old(store)[o]
        invariant HeaderKept(old(store)[u], store[u])
        invariant forall j :: 0 <= j < |store[u].slots| ==>
                  store[u].slots[j] == Slot(old(store)[u].slots[j].ptr, ShiftKey(old(store)[u], i + 1, j))
      {
        CopyElement(u, i, u, i + 1);
        i := i - 1;
      }
    }

    /** Link `q` in behind `c`. */
    method InsertSibling(c: int, q: int)
      requires c in store && q in store && c != q && q >= 0
      requires store[c].next != q && store[c].next != c && INVALID_REF !in store
      requires store[c].next != INVALID_REF ==> store[c].next in store
      modifies this`store
      ensures store.Keys == old(store).Keys
      ensures forall o :: o in store ==> SameBody(old(store)[o], store[o])
      ensures store[q].prev == c && store[q].next == old(store)[c].next
      ensures forall o :: o in store && o != q ==>
                && store[o].next == (if o == c then q else old(store)[o].next)
                && store[o].prev == (if o == old(store)[c].next then q else old(store)[o].prev)
    {
      store := store[q := store[q].(prev := c)];
      store := store[q := store[q].(next := store[c].next)];
      var nx := store[c].next;
      if nx != INVALID_REF {
        store := store[nx := store[nx].(prev := q)];
      }
      store := store[c := store[c].(next := q)];
    }

    /** Move the upper half of `c` to a new block. */
    method SplitOff(c: int) returns (q: int)
      requires Sized() && c in store
      modifies this`store, this`nextOffset
      ensures q == old(nextOffset) && nextOffset == q + BLOCK_SZ && Sized()
      ensures q !in old(store) && store.Keys == old(store).Keys + {q}
      ensures forall o :: o in old(store) && o != c ==> store[o] == old(store)[o]
      ensures LeftBody(old(store)[c], store[c], Degree()) && RightBody(old(store)[c], store[q], Degree())
      ensures store[c].prev == old(store)[c].prev && store[c].next == old(store)[c].next
    {
      var d := order / 2;
      q := NewNode(store[c].leaf);
      SetNumKey(q, d - 1);
      CopyElements(c, q, d);
      if !store[c].leaf {
        CopyChildren(c, q, d);
      }
      SetNumKey(c, if store[c].leaf then d else d - 1);
    }

    /** Enter child `q` and its separator, element `m` of `c`, into `u` behind child `n`. */
    method EnterChild(u: int, n: nat, c: int, m: nat, q: int)
      requires u in store && c in store && u != c && m < |store[c].slots|
      requires !store[u].leaf && n <= store[u].numKey && store[u].numKey + 1 < |store[u].slots|
      modifies this`store
      ensures store.Keys == old(store).Keys && forall o :: o in store && o != u ==> store[o] == old(store)[o]
      ensures ParentBody(old(store)[u], store[u], n, old(store)[c].slots[m].key, q)
      ensures store[u].prev == old(store)[u].prev && store[u].next == old(store)[u].next
    {
      ShiftChildren(u, n + 1);
      PutChild(u, n + 1, q);
      ghost var b1 := store[u];
      ShiftElements(u, n);
      CopyElement(c, m, u, n);
      SetNumKey(u, store[u].numKey + 1);
    }

    /** Split the full child `c`, which is child `n` of `u`. */
    method SplitChild(u: int, n: nat, c: int) returns (q: int)
      requires SplitReady(u, n, c)
      modifies this`store, this`nextOffset
      ensures q == old(nextOffset) && nextOffset == q + BLOCK_SZ && Sized()
      ensures SplitBlocks(old(store), store, u, n, c, q, Degree())
      ensures Linked(old(store), store, c, q)
    {
      q := SplitOff(c);
      EnterChild(u, n, c, order / 2 - 1, q);
      ghost var s1 := store;
      assert store[c].next == old(store)[c].next;
      InsertSibling(c, q);
    }

    // ------------------------------------------------------------- insert

    /** Insert into a leaf that has room: shift larger elements right, then put. */
    method InsertInLeaf(off: int, e: Elem)
      requires off in store && store[off].leaf && store[off].numKey < |store[off].slots|
      modifies this`store
      ensures OnlyBody(old(store), store, off)
      ensures exists r: nat :: IsInsertPos(old(store)[off], r, e.key) && InsertBody(old(store)[off], store[off], r, e)
    {
      var i := store[off].numKey - 1;
      while i >= 0 && store[off].slots[i].key > e.key
        invariant -1 <= i < old(store)[off].numKey
        invariant OnlyBody(old(store), store, off) && HeaderKept(old(store)[off], store[off])
        invariant forall j :: 0 <= j < |store[off].slots| ==> store[off].slots[j] == ShiftSlot(old(store)[off], i + 1, j)
        invariant forall j :: i < j < old(store)[off].numKey ==> old(store)[off].slots[j].key > e.key
      {
        CopyElement(off, i, off, i + 1);
        i := i - 1;
      }
      PutElement(off, i + 1, e);
      SetNumKey(off, store[off].numKey + 1);
      assert IsInsertPos(old(store)[off], i + 1, e.key) && InsertBody(old(store)[off], store[off], i + 1, e);
    }

    /** What a node of the stored shape looks like in its block. */
    lemma NodeBlock(p: Path)
      requires Stored() && IsPath(shape, p)
      ensures var s := Sub(shape, p);
              && s.off in store && Holds(store[s.off], s, Bound(shape, p, None), order)
              && Seps(s) && |p| <= height && (s.Leaf? <==> |p| == height)
              && (s.Inner? ==> forall i :: 0 <= i < |s.kids| ==> s.kids[i].off in store && s.kids[i].off != s.off)
    {
      var s := Sub(shape, p);
      RepSub(store, shape, p, None, order);
      SubInvariants(shape, p, height, Degree());
      if s.Inner? {
        forall i | 0 <= i < |s.kids| ensures s.kids[i].off in store && s.kids[i].off != s.off {
          CutOffs(s.kids, i);
          assert s.kids[i].off in Offs(s.kids[i]);
          assert Rep(store, s.kids[i], KidBound(s, i, Bound(shape, p, None)), order);
        }
      }
    }

    /** The sibling references of a stored block lead to stored blocks of its level. */
    lemma NodeLinks(p: Path)
      requires Stored() && IsPath(shape, p)
      ensures INVALID_REF !in store
      ensures var o := Sub(shape, p).off;
              o in store && store[o].next != o && (store[o].next != INVALID_REF ==> store[o].next in store)
    {
      var o := Sub(shape, p).off;
      NodeBlock(p);
      SubLevel(shape, p, 0);
      var s, m := Level(shape, |p|), |LevelPre(shape, p, 0)|;
      assert s[m] == o && Chain(store, s) && ChainAt(store, s, m);
      if m + 1 < |s| { assert ChainAt(store, s, m + 1); }
      LevelOffs(shape, |p|);
    }

    ghost predicate SplitReady(u: int, n: nat, c: int)
      reads this
    {
      && Sized() && u in store && c in store && u != c && INVALID_REF !in store
      && !store[u].leaf && n <= store[u].numKey && store[u].numKey + 1 < order
      && store[c].next != c && (store[c].next != INVALID_REF ==> store[c].next in store)
    }

    lemma CanSplitReady(p: Path, n: nat)
      requires Stored() && IsPath(shape, p) && !Full(Sub(shape, p), Degree()) && CanSplit(Sub(shape, p), n, Degree())
      ensures SplitReady(Sub(shape, p).off, n, Sub(shape, p).kids[n].off)
    {
      NodeBlock(p);
      PathStep(shape, p, n);
      NodeLinks(p + [n]);
    }

    /** Split a full child somewhere in the index. */
    method SplitBelow(off: int, n: nat, child: int, ghost p: Path) returns (ghost q: int)
      requires Stored() && IsPath(shape, p) && Sub(shape, p).off == off && !Full(Sub(shape, p), Degree())
      requires CanSplit(Sub(shape, p), n, Degree()) && Sub(shape, p).kids[n].off == child
      modifies this`store, this`nextOffset, this`shape
      ensures shape == Replace(old(shape), p, SplitKid(Sub(old(shape), p), n, Degree(), q))
      ensures Stored() && shape.off == old(shape).off && Contents() == old(Contents())
    {
      ghost var s0, t := store, shape;
      CanSplitReady(p, n);
      var q0 := SplitChild(off, n, child);
      q := q0;
      SplitValid(s0, store, t, p, n, q, height, Degree(), q);
      shape := Replace(t, p, SplitKid(Sub(t, p), n, Degree(), q));
    }

    /** The position at which scanning separators from the right stops. */
    method FindChild(off: int, k: Key) returns (c: nat)
      requires off in store && store[off].numKey <= |store[off].slots|
      ensures c <= store[off].numKey
      ensures c > 0 ==> store[off].slots[c - 1].key <= k
      ensures forall j :: c <= j < store[off].numKey ==> store[off].slots[j].key > k
    {
      var i := store[off].numKey - 1;
      while i >= 0 && store[off].slots[i].key > k
        invariant -1 <= i < store[off].numKey
        invariant forall j :: i < j < store[off].numKey ==> store[off].slots[j].key > k
      {
        i := i - 1;
      }
      c := i + 1;
    }

    /** Split the full child `n` and choose the half that receives the key. */
    method SplitAndChoose(off: int, n: nat, child: int, k: Key, ghost p: Path) returns (c: nat)
      requires Stored() && IsPath(shape, p) && Sub(shape, p).off == off && !Full(Sub(shape, p), Degree())
      requires Belongs(shape, p, k) && CanSplit(Sub(shape, p), n, Degree()) && Sub(shape, p).kids[n].off == child
      requires n > 0 ==> Sub(shape, p).keys[n - 1] <= k
      requires n < |Sub(shape, p).keys| ==> k <= Sub(shape, p).keys[n]
      modifies this`store, this`nextOffset, this`shape
      ensures Stored() && shape.off == old(shape).off && Contents() == old(Contents())
      ensures IsPath(shape, p + [c]) && Belongs(shape, p + [c], k) && !Full(Sub(shape, p + [c]), Degree())
      ensures off in store && c < |store[off].slots| && Sub(shape, p + [c]).off == store[off].slots[c].ptr
    {
      ghost var u := Sub(shape, p);
      SubInvariants(shape, p, height, Degree());
      ghost var t := shape;
      ghost var q := SplitBelow(off, n, child, p);
      SplitBelongs(t, p, n, q, k, Degree());
      NodeBlock(p);
      SplitKidParts(u, n, Degree(), q);
      c := if store[off].slots[n].key < k then n + 1 else n;
      ChooseHalf(t, p, n, q, k, height, Degree(), c);
    }

    /** Choose the child to descend to, splitting it first if it is full. */
    method Descend(off: int, k: Key, ghost p: Path) returns (c: nat)
      requires Stored() && IsPath(shape, p) && Sub(shape, p).off == off && !Full(Sub(shape, p), Degree())
      requires Belongs(shape, p, k) && Sub(shape, p).Inner?
      modifies this`store, this`nextOffset, this`shape
      ensures Stored() && shape.off == old(shape).off && Contents() == old(Contents())
      ensures IsPath(shape, p + [c]) && Belongs(shape, p + [c], k) && !Full(Sub(shape, p + [c]), Degree())
      ensures off in store && c < |store[off].slots| && Sub(shape, p + [c]).off == store[off].slots[c].ptr
    {
      NodeBlock(p);
      c := FindChild(off, k);
      var child := store[off].slots[c].ptr;
      PathStep(shape, p, c);
      NodeBlock(p + [c]);
      if store[child].numKey >= order - 1 {
        c := SplitAndChoose(off, c, child, k, p);
      } else {
        DescendStep(shape, p, c, k, height, Degree());
      }
    }

    /** The leaf case: the element goes where scanning from the right stops. */
    method InsertHere(off: int, e: Elem, ghost p: Path)
      requires Stored() && IsPath(shape, p) && Sub(shape, p).off == off && !Full(Sub(shape, p), Degree())
      requires Sub(shape, p).Leaf? && Belongs(shape, p, e.key) && ValidElem(e)
      modifies this`store, this`shape
      ensures Stored() && shape.off == old(shape).off
      ensures multiset(Contents()) == multiset(old(Contents())) + multiset{e}
    {
      NodeBlock(p);
      ghost var s0, es := store, Sub(shape, p).elems;
      InsertInLeaf(off, e);
      ghost var r: nat :| IsInsertPos(s0[off], r, e.key) && InsertBody(s0[off], store[off], r, e);
      InsertPosUnique(s0[off], off, es, Bound(shape, p, None), order, r, e.key);
      InsertValid(s0, store, shape, p, e, height, Degree(), nextOffset);
      shape := Replace(shape, p, Leaf(off, InsertInto(es, e)));
    }

    method InsertNonFull(off: int, e: Elem, ghost p: Path)
      requires Stored() && IsPath(shape, p) && Sub(shape, p).off == off && !Full(Sub(shape, p), Degree())
      requires Belongs(shape, p, e.key) && ValidElem(e)
      modifies this`store, this`nextOffset, this`shape
      ensures Stored() && shape.off == old(shape).off
      ensures multiset(Contents()) == multiset(old(Contents())) + multiset{e}
      decreases height - |p|
    {
      NodeBlock(p);
      if store[off].leaf {
        InsertHere(off, e, p);
      } else {
        var c := Descend(off, e.key, p);
        SubInvariants(shape, p + [c], height, Degree());
        InsertNonFull(store[off].slots[c].ptr, e, p + [c]);
      }
    }

    /** A first element: a root that is a leaf. */
    method PlantRoot(e: Elem)
      requires Valid() && root < 0 && ValidElem(e)
      modifies this
      ensures Valid() && Contents() == [e]
    {
      root := NewNode(true);
      PutElement(root, 0, e);
      SetNumKey(root, 1);
      shape, height := Leaf(root, [e]), 0;
      assert Level(shape, 0) == [root];
    }

    /** A new root that so far only points at the old one. */
    method NewTop() returns (top: int)
      requires Sized()
      modifies this`store, this`nextOffset
      ensures top == old(nextOffset) && nextOffset == top + BLOCK_SZ && Sized()
      ensures top !in old(store) && top in store && store == old(store)[top := store[top]]
      ensures store[top].prev == store[top].next == INVALID_REF
      ensures forall t: Tree :: t.off == root ==> Holds(store[top], Inner(top, [], [t]), None, order)
    {
      top := NewNode(false);
      PutChild(top, 0, root);
    }

    /** A new root above a full one, which is split. */
    method GrowRoot() returns (top: int)
      requires Stored() && shape.off == root && Full(shape, Degree())
      modifies this`store, this`nextOffset, this`shape, this`height
      ensures Stored() && Contents() == old(Contents()) && shape.off == top >= 0
      ensures shape.Inner? && |shape.keys| == 1 && |shape.kids| == 2
      ensures !Full(shape.kids[0], Degree()) && !Full(shape.kids[1], Degree())
    {
      ghost var s0, t, limit := store, shape, nextOffset;
      NodeLinks([]);
      top := NewTop();
      ghost var s1 := store;
      assert SplitReady(top, 0, root) by { assert s1[root] == s0[root]; }
      assert Holds(s1[top], Inner(top, [], [t]), None, order);
      ghost var q := SplitChild(top, 0, root);
      GrownIndex(s0, s1, store, t, top, q, height, Degree(), limit);
      shape, height := SplitKid(Inner(top, [], [t]), 0, Degree(), q), height + 1;
    }

    /** Insert below a root that was just grown. */
    method InsertBelow(top: int, e: Elem)
      requires Stored() && ValidElem(e) && shape.off == top && shape.Inner? && |shape.keys| == 1 && |shape.kids| == 2
      requires !Full(shape.kids[0], Degree()) && !Full(shape.kids[1], Degree())
      modifies this`store, this`nextOffset, this`shape
      ensures Stored() && shape.off == top
      ensures multiset(Contents()) == multiset(old(Contents())) + multiset{e}
    {
      NodeBlock([]);
      var i := if store[top].slots[0].key < e.key then 1 else 0;
      DescendStep(shape, [], i, e.key, height, Degree());
      PathStep(shape, [], i);
      InsertNonFull(store[top].slots[i].ptr, e, [] + [i]);
    }

    /** `tree::insert(element)`: the index gains exactly this element. */
    method Insert(e: Elem)
      requires Valid() && ValidElem(e)
      modifies this
      ensures Valid()
      ensures multiset(Contents()) == multiset(old(Contents())) + multiset{e}
    {
      if root < 0 {
        PlantRoot(e);
      } else {
        NodeBlock([]);
        if store[root].numKey >= order - 1 {
          var top := GrowRoot();
          InsertBelow(top, e);
          root := top;
        } else {
          InsertNonFull(root, e, []);
        }
      }
    }
  }
}

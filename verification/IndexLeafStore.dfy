/** What inserting into, and removing from, a leaf does to its block. */
module IndexLeafStore {
  import opened Prelude
  import opened IndexShape
  import opened IndexPath
  import opened IndexSplit
  import opened IndexStore

  /** The slots of a leaf after an element moved in at position `r`. */
  ghost predicate InsertBody(b: Block, v: Block, r: nat, e: Elem) {
    && v.leaf == b.leaf && v.numKey == b.numKey + 1 && |v.slots| == |b.slots| && r <= b.numKey < |b.slots|
    && (forall i :: 0 <= i < |v.slots| ==> v.slots[i] == InsertedSlot(b, r, e, i))
  }

  function InsertedSlot(b: Block, r: nat, e: Elem, i: nat): Slot
    requires i < |b.slots|
  {
    if i == r then Encode(e) else ShiftSlot(b, r, i)
  }

  /** Slot `i` after those from `m` on moved one to the right. */
  function ShiftSlot(b: Block, m: nat, i: nat): Slot
    requires i < |b.slots|
  {
    if m < i <= b.numKey then b.slots[i - 1] else b.slots[i]
  }

  /** Where scanning from the right for a key that is not larger stops. */
  ghost predicate IsInsertPos(b: Block, r: nat, k: Key) {
    && r <= b.numKey <= |b.slots|
    && (r > 0 ==> b.slots[r - 1].key <= k)
    && (forall j :: r <= j < b.numKey ==> b.slots[j].key > k)
  }

  lemma InsertPosUnique(b: Block, off: int, es: seq<Elem>, hi: Option<Key>, order: nat, r: nat, k: Key)
    requires Holds(b, Leaf(off, es), hi, order) && IsInsertPos(b, r, k)
    ensures r == InsertPos(es, k)
  {
    assert forall i :: 0 <= i < b.numKey ==> b.slots[i].key == es[i].key;
  }

  lemma LeafHolds(b: Block, v: Block, off: int, es: seq<Elem>, e: Elem, hi: Option<Key>, d: nat)
    requires d >= 2 && Holds(b, Leaf(off, es), hi, 2 * d) && |es| < 2 * d - 1 && ValidElem(e)
    requires InsertBody(b, v, InsertPos(es, e.key), e)
    ensures Holds(v, Leaf(off, InsertInto(es, e)), hi, 2 * d)
  {
    var r, es' := InsertPos(es, e.key), InsertInto(es, e);
    forall i | 0 <= i < v.numKey ensures v.slots[i] == Encode(es'[i]) {
      assert es'[i] == if i < r then es[i] else if i == r then e else es[i - 1];
    }
  }

  ghost predicate OnlyBody(s0: Store, s1: Store, off: int) {
    && off in s0 && off in s1 && s1 == s0[off := s1[off]]
    && s1[off].prev == s0[off].prev && s1[off].next == s0[off].next
  }

  /** A change of one block's body leaves every level linked. */
  lemma SameLinks(s0: Store, s1: Store, off: int, s: seq<int>)
    requires Chain(s0, s) && OnlyBody(s0, s1, off)
    ensures Chain(s1, s)
  {
    forall i | 0 <= i < |s|
      ensures ChainAt(s1, s, i)
    {
      assert ChainAt(s0, s, i);
    }
  }

  /** Replacing the leaf at `p`, when the new leaf keeps the tree well-formed. */
  lemma LeafReplaceValid(s0: Store, s1: Store, t: Tree, p: Path, s: Tree, h: nat, d: nat, limit: int)
    requires ValidIndex(s0, t, h, d, limit) && IsPath(t, p) && Sub(t, p).Leaf?
    requires s.Leaf? && s.off == Sub(t, p).off && OnlyBody(s0, s1, s.off)
    requires Holds(s1[s.off], s, Bound(t, p, None), 2 * d)
    requires WellFormed(Replace(t, p, s), h, d) && Offs(Replace(t, p, s)) == Offs(t)
    requires forall e :: e in Elems(Replace(t, p, s)) ==> ValidElem(e)
    ensures ValidIndex(s1, Replace(t, p, s), h, d, limit)
  {
    var t' := Replace(t, p, s);
    assert SameContent(s0, s1, Offs(t) - Offs(Sub(t, p)));
    assert Rep(s1, s, Bound(t, p, None), 2 * d);
    RepReplace(s0, s1, t, p, s, None, 2 * d);
    forall k | 0 <= k <= h ensures Chain(s1, Level(t', k)) {
      LeafLevels(t, p, s, k);
      SameLinks(s0, s1, s.off, Level(t, k));
    }
  }

  lemma InsertValid(s0: Store, s1: Store, t: Tree, p: Path, e: Elem, h: nat, d: nat, limit: int)
    requires ValidIndex(s0, t, h, d, limit) && IsPath(t, p) && Sub(t, p).Leaf? && !Full(Sub(t, p), d)
    requires Belongs(t, p, e.key) && ValidElem(e)
    requires OnlyBody(s0, s1, Sub(t, p).off)
    requires InsertBody(s0[Sub(t, p).off], s1[Sub(t, p).off], InsertPos(Sub(t, p).elems, e.key), e)
    ensures var t' := Replace(t, p, Leaf(Sub(t, p).off, InsertInto(Sub(t, p).elems, e)));
            ValidIndex(s1, t', h, d, limit) && multiset(Elems(t')) == multiset(Elems(t)) + multiset{e}
  {
    var s := Sub(t, p);
    var s' := Leaf(s.off, InsertInto(s.elems, e));
    SubInvariants(t, p, h, d);
    LeafStep(t, p, e, h, d);
    RepSub(s0, t, p, None, 2 * d);
    LeafHolds(s0[s.off], s1[s.off], s.off, s.elems, e, Bound(t, p, None), d);
    forall x | x in Elems(Replace(t, p, s')) ensures ValidElem(x) {
      assert x in multiset(Elems(Replace(t, p, s')));
    }
    LeafReplaceValid(s0, s1, t, p, s', h, d, limit);
  }
}

/**
 Removing a key that is a separator directly above leaves: the separator gives
 way to the next smaller key of the leaf on its left, which then loses the
 element with the removed key.
 */
module IndexSeparator {
  import opened Prelude
  import opened IndexShape
  import opened IndexPath
  import opened IndexSplit
  import opened IndexStore
  import opened IndexLeafStore
  import opened IndexScan
  import opened IndexRemove

  /** Element `m` of leaf `n` carries separator `n`, and the leaf can spare it. */
  ghost predicate CanDrop(u: Tree, n: nat, m: nat, d: nat) {
    && u.Inner? && n < |u.keys| && |u.kids| == |u.keys| + 1 && u.kids[n].Leaf?
    && d >= 2 && |u.kids[n].elems| >= d && m < |u.kids[n].elems| && u.kids[n].elems[m].key == u.keys[n]
  }

  ghost function ShorterLeaf(u: Tree, n: nat, m: nat): Tree
    requires u.Inner? && n < |u.kids| && u.kids[n].Leaf? && m < |u.kids[n].elems|
  {
    Leaf(u.kids[n].off, Without(u.kids[n].elems, m))
  }

  /** The key that takes the place of the separator. */
  ghost function NextBest(u: Tree, n: nat): Key
    requires u.Inner? && n < |u.kids| && u.kids[n].Leaf? && |u.kids[n].elems| >= 2
  {
    u.kids[n].elems[|u.kids[n].elems| - 2].key
  }

  ghost function Dropped(u: Tree, n: nat, m: nat, d: nat): Tree
    requires CanDrop(u, n, m, d)
  {
    Inner(u.off, u.keys[n := NextBest(u, n)], u.kids[n := ShorterLeaf(u, n, m)])
  }

  /** The second largest key becomes the largest, whichever of several equal keys goes. */
  lemma SecondIsLast(es: seq<Elem>, m: nat)
    requires Sorted(es) && |es| >= 2 && m < |es| && es[m].key == LastKey(es)
    ensures LastKey(Without(es, m)) == es[|es| - 2].key <= LastKey(es)
  {
    if m < |es| - 1 { assert es[m].key <= es[|es| - 2].key <= es[|es| - 1].key; }
  }

  lemma DroppedParts(u: Tree, n: nat, m: nat, h: nat, d: nat)
    requires CanDrop(u, n, m, d) && Seps(u) && Balanced(u, h) && Sorted(Elems(u)) && Distinct(u)
    ensures Elems(u) != [] && Elems(Dropped(u, n, m, d)) != []
    ensures var v := Dropped(u, n, m, d);
            Seps(v) && Balanced(v, h) && Distinct(v) && Offs(v) == Offs(u) && LastKey(Elems(v)) == LastKey(Elems(u))
    ensures Elems(u) == ElemsAll(u.kids[..n]) + u.kids[n].elems + ElemsAll(u.kids[n + 1..])
    ensures Elems(Dropped(u, n, m, d))
         == ElemsAll(u.kids[..n]) + Without(u.kids[n].elems, m) + ElemsAll(u.kids[n + 1..])
  {
    var v, es := Dropped(u, n, m, d), u.kids[n].elems;
    CutElems(u.kids, n);
    CutElems(v.kids, n);
    assert v.kids[..n] == u.kids[..n] && v.kids[n + 1..] == u.kids[n + 1..];
    SortedPart(ElemsAll(u.kids[..n]), es, ElemsAll(u.kids[n + 1..]));
    assert es[m].key == LastKey(es) by { assert Seps(u.kids[n]) && Elems(u.kids[n]) == es; }
    SecondIsLast(es, m);
    SepsNonEmpty(u);
    SepsNonEmpty(v);
    DroppedOffs(u, n, m, d);
  }

  lemma DroppedOffs(u: Tree, n: nat, m: nat, d: nat)
    requires CanDrop(u, n, m, d) && Distinct(u)
    ensures var v := Dropped(u, n, m, d); Distinct(v) && Offs(v) == Offs(u)
  {
    var v := Dropped(u, n, m, d);
    CutDistinct(u.kids, n);
    CutDistinct(v.kids, n);
    CutOffs(u.kids, n);
    CutOffs(v.kids, n);
    assert v.kids[..n] == u.kids[..n] && v.kids[n + 1..] == u.kids[n + 1..];
  }

  lemma DroppedOccupied(u: Tree, n: nat, m: nat, d: nat)
    requires CanDrop(u, n, m, d)
    ensures Occupied(u, d) ==> Occupied(Dropped(u, n, m, d), d)
    ensures RootOccupied(u, d) ==> RootOccupied(Dropped(u, n, m, d), d)
  {
    var v := Dropped(u, n, m, d);
    assert Count(ShorterLeaf(u, n, m)) == Count(u.kids[n]) - 1;
    if (forall i :: 0 <= i < |u.kids| ==> Occupied(u.kids[i], d)) {
      forall i | 0 <= i < |v.kids| ensures Occupied(v.kids[i], d) {
        assert Occupied(u.kids[i], d);
        if i != n { assert v.kids[i] == u.kids[i]; }
      }
    }
  }

  /** Anywhere in an index this keeps it well formed and removes exactly that element. */
  lemma DropStep(t: Tree, p: Path, n: nat, m: nat, h: nat, d: nat)
    requires WellFormed(t, h, d) && IsPath(t, p) && CanDrop(Sub(t, p), n, m, d)
    ensures var t' := Replace(t, p, Dropped(Sub(t, p), n, m, d));
            && WellFormed(t', h, d) && Offs(t') == Offs(t) && t'.off == t.off
            && multiset(Elems(t')) == multiset(Elems(t)) - multiset{Sub(t, p).kids[n].elems[m]}
  {
    var u := Sub(t, p);
    var v := Dropped(u, n, m, d);
    var t' := Replace(t, p, v);
    SubInvariants(t, p, h, d);
    SubElems(t, p);
    SortedPart(Pre(t, p), Elems(u), Post(t, p));
    DroppedParts(u, n, m, h - |p|, d);
    DroppedOccupied(u, n, m, d);
    assert Balanced(t', h) by { ReplaceBalanced(t, p, v, h); }
    assert RootOccupied(t', d) by { ReplaceRootOccupied(t, p, v, d); }
    assert Seps(t') by { ReplaceSeps(t, p, v); }
    assert Distinct(t') && Offs(t') == Offs(t) by {
      SubOffs(t, p);
      ReplaceDistinct(t, p, v);
    }
    ReplaceElems(t, p, v);
    DropContents(Pre(t, p), ElemsAll(u.kids[..n]), u.kids[n].elems, ElemsAll(u.kids[n + 1..]), Post(t, p), m);
  }

  lemma DropContents(a: seq<Elem>, b: seq<Elem>, es: seq<Elem>, c: seq<Elem>, e: seq<Elem>, m: nat)
    requires Sorted(a + (b + es + c) + e) && m < |es|
    ensures Sorted(a + (b + Without(es, m) + c) + e)
    ensures multiset(a + (b + Without(es, m) + c) + e) == multiset(a + (b + es + c) + e) - multiset{es[m]}
  {
    Regrouped(a, b, es, c, e);
    Regrouped(a, b, Without(es, m), c, e);
    WithoutSorted(a + b, es, c + e, m);
    WithoutContents(es, m);
    assert es[m] in es;
    LessOne(a + b, es, Without(es, m), c + e, es[m]);
  }

  lemma Regrouped(a: seq<Elem>, b: seq<Elem>, es: seq<Elem>, c: seq<Elem>, e: seq<Elem>)
    ensures a + (b + es + c) + e == (a + b) + es + (c + e)
  {
  }

  lemma LessOne(a: seq<Elem>, es: seq<Elem>, fs: seq<Elem>, c: seq<Elem>, x: Elem)
    requires x in es && multiset(fs) == multiset(es) - multiset{x}
    ensures multiset(a + fs + c) == multiset(a + es + c) - multiset{x}
  {
    assert x in multiset(es);
  }

  // ------------------------------------------------------------ the blocks

  /** Separator `n` of block `u` was overwritten and element `m` of leaf `c` removed. */
  ghost predicate DropBlocks(s0: Store, s1: Store, u: int, n: nat, k: Key, c: int, m: nat) {
    && u != c && u in s0 && c in s0 && n < |s0[u].slots| && u in s1 && c in s1
    && s1 == s0[u := s1[u]][c := s1[c]]
    && s1[u] == s0[u].(slots := s0[u].slots[n := Slot(s0[u].slots[n].ptr, k)])
    && RemoveBody(s0[c], s1[c], m) && s1[c].prev == s0[c].prev && s1[c].next == s0[c].next
  }

  /** The leaf's slots, those left over included, mislead no lookup under the smaller separator. */
  lemma LeafDropHolds(b: Block, v: Block, off: int, es: seq<Elem>, m: nat, k: Key, order: nat)
    requires m < |es| < order && Holds(b, Leaf(off, es), Some(LastKey(es)), order) && RemoveBody(b, v, m)
    requires k <= LastKey(es)
    ensures Holds(v, Leaf(off, Without(es, m)), Some(k), order)
  {
    RemoveHolds(b, v, off, es, m, Some(LastKey(es)), order);
    var t := Leaf(off, Without(es, m));
    forall i | v.numKey <= i < order ensures Harmless(v.slots[i].key, t, Some(k)) {
      assert Harmless(v.slots[i].key, t, Some(LastKey(es)));
    }
  }

  lemma DropRep(s0: Store, s1: Store, u: Tree, n: nat, m: nat, hi: Option<Key>, d: nat)
    requires CanDrop(u, n, m, d) && Seps(u) && Sorted(Elems(u)) && Distinct(u) && Rep(s0, u, hi, 2 * d)
    requires DropBlocks(s0, s1, u.off, n, NextBest(u, n), u.kids[n].off, m)
    ensures Rep(s1, Dropped(u, n, m, d), hi, 2 * d)
  {
    var v, c, order := Dropped(u, n, m, d), u.kids[n], 2 * d;
    CutElems(u.kids, n);
    SortedPart(ElemsAll(u.kids[..n]), c.elems, ElemsAll(u.kids[n + 1..]));
    assert Rep(s0, c, KidBound(u, n, hi), order) && Elems(c) == c.elems;
    SecondIsLast(c.elems, m);
    LeafDropHolds(s0[c.off], s1[c.off], c.off, c.elems, m, v.keys[n], order);
    ParentDropHolds(s0[u.off], s1[u.off], u, n, m, hi, d);
    forall i | 0 <= i < |v.kids| ensures Rep(s1, v.kids[i], KidBound(v, i, hi), order) {
      if i != n {
        assert v.kids[i] == u.kids[i] && KidBound(v, i, hi) == KidBound(u, i, hi);
        OtherKids(u.kids, n, i);
        RepFrame(s0, s1, u.kids[i], KidBound(u, i, hi), order);
      }
    }
  }

  lemma ParentDropHolds(b: Block, w: Block, u: Tree, n: nat, m: nat, hi: Option<Key>, d: nat)
    requires CanDrop(u, n, m, d) && Holds(b, u, hi, 2 * d)
    requires w == b.(slots := b.slots[n := Slot(b.slots[n].ptr, NextBest(u, n))])
    ensures Holds(w, Dropped(u, n, m, d), hi, 2 * d)
  {
    var v := Dropped(u, n, m, d);
    forall i | w.numKey <= i < 2 * d ensures Harmless(w.slots[i].key, v, hi) {
      assert Harmless(b.slots[i].key, u, hi);
    }
  }

  lemma DropLevels(t: Tree, p: Path, n: nat, m: nat, d: nat, k: nat)
    requires IsPath(t, p) && CanDrop(Sub(t, p), n, m, d)
    ensures Level(Replace(t, p, Dropped(Sub(t, p), n, m, d)), k) == Level(t, k)
  {
    var u := Sub(t, p);
    var v := Dropped(u, n, m, d);
    if k <= |p| {
      ReplaceLevelAbove(t, p, v, k);
    } else {
      var j := k - |p|;
      ReplaceLevel(t, p, v, j);
      SubLevel(t, p, j);
      CutLevel(u.kids, n, j - 1);
      CutLevel(v.kids, n, j - 1);
      assert v.kids[..n] == u.kids[..n] && v.kids[n + 1..] == u.kids[n + 1..];
    }
  }

  lemma DropLinks(s0: Store, s1: Store, u: int, n: nat, k: Key, c: int, m: nat, s: seq<int>)
    requires Chain(s0, s) && DropBlocks(s0, s1, u, n, k, c, m)
    ensures Chain(s1, s)
  {
    forall i | 0 <= i < |s| ensures ChainAt(s1, s, i) { assert ChainAt(s0, s, i); }
  }

  lemma DropChains(s0: Store, s1: Store, t: Tree, p: Path, n: nat, m: nat, h: nat, d: nat, x: Key)
    requires IsPath(t, p) && CanDrop(Sub(t, p), n, m, d)
    requires forall k :: 0 <= k <= h ==> Chain(s0, Level(t, k))
    requires DropBlocks(s0, s1, Sub(t, p).off, n, x, Sub(t, p).kids[n].off, m)
    ensures forall k :: 0 <= k <= h ==> Chain(s1, Level(Replace(t, p, Dropped(Sub(t, p), n, m, d)), k))
  {
    forall k | 0 <= k <= h ensures Chain(s1, Level(Replace(t, p, Dropped(Sub(t, p), n, m, d)), k)) {
      DropLevels(t, p, n, m, d, k);
      DropLinks(s0, s1, Sub(t, p).off, n, x, Sub(t, p).kids[n].off, m, Level(t, k));
    }
  }

  /** The written blocks store the index without that element. */
  lemma DropValid(s0: Store, s1: Store, t: Tree, p: Path, n: nat, m: nat, h: nat, d: nat, limit: int)
    requires ValidIndex(s0, t, h, d, limit) && IsPath(t, p) && CanDrop(Sub(t, p), n, m, d)
    requires DropBlocks(s0, s1, Sub(t, p).off, n, NextBest(Sub(t, p), n), Sub(t, p).kids[n].off, m)
    ensures var t' := Replace(t, p, Dropped(Sub(t, p), n, m, d));
            && ValidIndex(s1, t', h, d, limit) && t'.off == t.off
            && multiset(Elems(t')) == multiset(Elems(t)) - multiset{Sub(t, p).kids[n].elems[m]}
  {
    var t' := Replace(t, p, Dropped(Sub(t, p), n, m, d));
    DropStep(t, p, n, m, h, d);
    assert Rep(s1, t', None, 2 * d) by { DropRepInside(s0, s1, t, p, n, m, h, d); }
    DropChains(s0, s1, t, p, n, m, h, d, NextBest(Sub(t, p), n));
    assert forall x :: x in Elems(t') ==> x in multiset(Elems(t'));
    forall x | x in Elems(t') ensures ValidElem(x) {
      assert x in multiset(Elems(t));
    }
  }

  lemma DropRepInside(s0: Store, s1: Store, t: Tree, p: Path, n: nat, m: nat, h: nat, d: nat)
    requires WellFormed(t, h, d) && Rep(s0, t, None, 2 * d) && IsPath(t, p) && CanDrop(Sub(t, p), n, m, d)
    requires DropBlocks(s0, s1, Sub(t, p).off, n, NextBest(Sub(t, p), n), Sub(t, p).kids[n].off, m)
    ensures Rep(s1, Replace(t, p, Dropped(Sub(t, p), n, m, d)), None, 2 * d)
  {
    var u := Sub(t, p);
    SubInvariants(t, p, h, d);
    SubElems(t, p);
    SortedPart(Pre(t, p), Elems(u), Post(t, p));
    RepSub(s0, t, p, None, 2 * d);
    DropRep(s0, s1, u, n, m, Bound(t, p, None), d);
    assert SameContent(s0, s1, Offs(t) - Offs(u)) by {
      CutOffs(u.kids, n);
      assert u.off in Offs(u) && u.kids[n].off in Offs(u.kids[n]);
    }
    RepReplace(s0, s1, t, p, Dropped(u, n, m, d), None, 2 * d);
  }
}

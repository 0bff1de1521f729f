/**
 Removing a key from a leaf.  A removal that needs no rebalancing deletes one
 element and keeps the index well-formed.
 */
module IndexRemove {
  import opened Prelude
  import opened IndexShape
  import opened IndexPath
  import opened IndexSplit
  import opened IndexStore
  import opened IndexLeafStore
  import opened IndexScan

  /** Outcome of `node::remove`. */
  datatype Removal =
    | Removed(elem: Elem)
    | Absent
    | Rebalance // the path needs `fill`, or `remove_from_non_leaf` in a form that does not keep the index

  /** Exactly the returned element went, or nothing changed; an absent key was not there. */
  ghost predicate Outcome(r: Removal, key: Key, es: seq<Elem>, es': seq<Elem>) {
    && (!r.Removed? ==> es' == es)
    && (r.Absent? ==> !HasKey(es, key))
    && (r.Removed? ==> r.elem.key == key && r.elem in es && multiset(es') == multiset(es) - multiset{r.elem})
  }

  ghost function Without(es: seq<Elem>, n: nat): seq<Elem>
    requires n < |es|
  {
    es[..n] + es[n + 1..]
  }

  // ------------------------------------------------------------------ bounds

  lemma {:induction false} BoundIsLast(t: Tree, p: Path, hi: Option<Key>)
    requires IsPath(t, p) && Seps(t) && Elems(t) != []
    requires hi.Some? ==> hi.value == LastKey(Elems(t))
    ensures Elems(Sub(t, p)) != []
    ensures Bound(t, p, hi).Some? ==> Bound(t, p, hi).value == LastKey(Elems(Sub(t, p)))
  {
    if p != [] {
      var c := p[0];
      SepsNonEmpty(t);
      BoundIsLast(t.kids[c], p[1..], KidBound(t, c, hi));
    }
  }

  lemma {:induction false} UnboundedIsRightmost(t: Tree, p: Path)
    requires IsPath(t, p) && Seps(t) && Bound(t, p, None).None?
    ensures Post(t, p) == []
  {
    if p != [] {
      var c := p[0];
      if c < |t.keys| { BoundStays(t.kids[c], p[1..], t.keys[c]); }
      UnboundedIsRightmost(t.kids[c], p[1..]);
      assert t.kids[c + 1..] == [];
    }
  }

  // ---------------------------------------------------------- the leaf step

  lemma WithoutContents(es: seq<Elem>, n: nat)
    requires n < |es|
    ensures multiset(Without(es, n)) == multiset(es) - multiset{es[n]}
    ensures n < |es| - 1 ==> LastKey(Without(es, n)) == LastKey(es)
  {
    assert es == es[..n] + [es[n]] + es[n + 1..];
  }

  lemma WithoutSorted(a: seq<Elem>, es: seq<Elem>, b: seq<Elem>, n: nat)
    requires Sorted(a + es + b) && n < |es|
    ensures Sorted(a + Without(es, n) + b)
  {
    var w, s := a + es + b, a + Without(es, n) + b;
    var m := |a| + n;
    forall i, j | 0 <= i < j < |s| ensures s[i].key <= s[j].key {
      assert s[i] == w[if i < m then i else i + 1] && s[j] == w[if j < m then j else j + 1];
    }
  }

  /** The key found in a leaf is not its last one unless the leaf is rightmost. */
  lemma NotLast(t: Tree, p: Path, k: Key, n: nat, h: nat, d: nat)
    requires WellFormed(t, h, d) && IsPath(t, p) && Sub(t, p).Leaf? && Narrowed(t, p, k)
    requires n < |Sub(t, p).elems| && Sub(t, p).elems[n].key == k
    ensures Bound(t, p, None).Some? || Post(t, p) != [] ==> n < |Sub(t, p).elems| - 1
    ensures Bound(t, p, None).Some? ==> Bound(t, p, None).value == LastKey(Sub(t, p).elems)
  {
    SepsNonEmpty(t);
    BoundIsLast(t, p, None);
    if Bound(t, p, None).None? { UnboundedIsRightmost(t, p); }
  }

  /** Removing element `n` of the leaf at `p`, which can spare it and keeps its largest key unless it is the last leaf. */
  lemma RemoveKeeps(t: Tree, p: Path, n: nat, h: nat, d: nat)
    requires WellFormed(t, h, d) && IsPath(t, p) && Sub(t, p).Leaf?
    requires n < |Sub(t, p).elems| && |Sub(t, p).elems| >= if p == [] then 2 else d
    requires Post(t, p) != [] ==> LastKey(Without(Sub(t, p).elems, n)) == LastKey(Sub(t, p).elems)
    ensures var t' := Replace(t, p, Leaf(Sub(t, p).off, Without(Sub(t, p).elems, n)));
            && WellFormed(t', h, d) && Offs(t') == Offs(t)
            && multiset(Elems(t')) == multiset(Elems(t)) - multiset{Sub(t, p).elems[n]}
  {
    SubInvariants(t, p, h, d);
    WithoutContents(Sub(t, p).elems, n);
    ShorterShape(t, p, Leaf(Sub(t, p).off, Without(Sub(t, p).elems, n)), h, d);
    ShorterContents(t, p, n);
  }

  /** Another leaf in the place of the one at `p`. */
  lemma ShorterShape(t: Tree, p: Path, s: Tree, h: nat, d: nat)
    requires WellFormed(t, h, d) && IsPath(t, p) && Sub(t, p).Leaf? && s.Leaf? && s.off == Sub(t, p).off && s.elems != []
    requires if p == [] then RootOccupied(s, d) else Occupied(s, d)
    requires Sub(t, p).elems != [] && (Post(t, p) != [] ==> LastKey(s.elems) == LastKey(Sub(t, p).elems))
    ensures var t' := Replace(t, p, s);
            Balanced(t', h) && RootOccupied(t', d) && Seps(t') && Distinct(t') && Offs(t') == Offs(t)
  {
    SubBalanced(t, p, h);
    ReplaceBalanced(t, p, s, h);
    ReplaceRootOccupied(t, p, s, d);
    ReplaceSeps(t, p, s);
    SubOffs(t, p);
    ReplaceDistinct(t, p, s);
  }

  lemma ShorterContents(t: Tree, p: Path, n: nat)
    requires IsPath(t, p) && Sub(t, p).Leaf? && n < |Sub(t, p).elems| && Sorted(Elems(t))
    ensures var t' := Replace(t, p, Leaf(Sub(t, p).off, Without(Sub(t, p).elems, n)));
            Sorted(Elems(t')) && multiset(Elems(t')) == multiset(Elems(t)) - multiset{Sub(t, p).elems[n]}
  {
    var s := Sub(t, p);
    SubElems(t, p);
    ReplaceElems(t, p, Leaf(s.off, Without(s.elems, n)));
    WithoutSorted(Pre(t, p), s.elems, Post(t, p), n);
    WithoutContents(s.elems, n);
    assert s.elems[n] in s.elems;
  }

  /** That is so for a key that no separator on the way equals. */
  lemma RemoveStep(t: Tree, p: Path, k: Key, n: nat, h: nat, d: nat)
    requires WellFormed(t, h, d) && IsPath(t, p) && Sub(t, p).Leaf? && Narrowed(t, p, k)
    requires n < |Sub(t, p).elems| && Sub(t, p).elems[n].key == k
    requires |Sub(t, p).elems| >= if p == [] then 2 else d
    ensures var t' := Replace(t, p, Leaf(Sub(t, p).off, Without(Sub(t, p).elems, n)));
            && WellFormed(t', h, d) && Offs(t') == Offs(t)
            && multiset(Elems(t')) == multiset(Elems(t)) - multiset{Sub(t, p).elems[n]}
  {
    NotLast(t, p, k, n, h, d);
    WithoutContents(Sub(t, p).elems, n);
    RemoveKeeps(t, p, n, h, d);
  }

  // ------------------------------------------------------------ its block

  ghost predicate RemoveBody(b: Block, v: Block, n: nat) {
    && n < b.numKey <= |b.slots|
    && v.leaf == b.leaf && v.numKey == b.numKey - 1 && |v.slots| == |b.slots|
    && (forall i :: 0 <= i < |v.slots| ==> v.slots[i] == PulledSlot(b, n, b.numKey - 1, i))
  }

  /** Slot `i` after those above `n`, up to `m`, moved one to the left. */
  function PulledSlot(b: Block, n: nat, m: nat, i: nat): Slot
    requires i < |b.slots| && m < |b.slots|
  {
    if n <= i < m then b.slots[i + 1] else b.slots[i]
  }

  /** The slot left behind holds the leaf's largest key, which is no trap for a lookup. */
  lemma RemoveHolds(b: Block, v: Block, off: int, es: seq<Elem>, n: nat, hi: Option<Key>, order: nat)
    requires Holds(b, Leaf(off, es), hi, order) && n < |es| < order && RemoveBody(b, v, n)
    requires hi.Some? ==> LastKey(es) == hi.value
    ensures Holds(v, Leaf(off, Without(es, n)), hi, order)
  {
    var es' := Without(es, n);
    forall i | 0 <= i < v.numKey ensures v.slots[i] == Encode(es'[i]) {
      assert es'[i] == es[if i < n then i else i + 1];
    }
    assert v.slots[order - 1].key == 0 by { assert v.slots[order - 1] == b.slots[order - 1]; }
    forall i | v.numKey <= i < order ensures Harmless(v.slots[i].key, Leaf(off, es'), hi) {
      assert v.slots[i] == b.slots[i];
      if i >= b.numKey { assert Harmless(b.slots[i].key, Leaf(off, es), hi); }
    }
  }

  lemma RemoveValid(s0: Store, s1: Store, t: Tree, p: Path, n: nat, h: nat, d: nat, limit: int)
    requires ValidIndex(s0, t, h, d, limit) && IsPath(t, p) && Sub(t, p).Leaf?
    requires n < |Sub(t, p).elems| && |Sub(t, p).elems| >= if p == [] then 2 else d
    requires Post(t, p) != [] ==> LastKey(Without(Sub(t, p).elems, n)) == LastKey(Sub(t, p).elems)
    requires OnlyBody(s0, s1, Sub(t, p).off) && RemoveBody(s0[Sub(t, p).off], s1[Sub(t, p).off], n)
    ensures var t' := Replace(t, p, Leaf(Sub(t, p).off, Without(Sub(t, p).elems, n)));
            && ValidIndex(s1, t', h, d, limit)
            && multiset(Elems(t')) == multiset(Elems(t)) - multiset{Sub(t, p).elems[n]}
  {
    var s := Sub(t, p);
    var s' := Leaf(s.off, Without(s.elems, n));
    RemoveKeeps(t, p, n, h, d);
    SepsNonEmpty(t);
    BoundIsLast(t, p, None);
    RepSub(s0, t, p, None, 2 * d);
    RemoveHolds(s0[s.off], s1[s.off], s.off, s.elems, n, Bound(t, p, None), 2 * d);
    forall x | x in Elems(Replace(t, p, s')) ensures ValidElem(x) {
      assert x in multiset(Elems(Replace(t, p, s')));
      assert x in multiset(Elems(t));
    }
    LeafReplaceValid(s0, s1, t, p, s', h, d, limit);
  }
}

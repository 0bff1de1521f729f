/**
 What splitting a child does to the blocks, and why the result stores the
 split shape with its levels linked again.
 */
module IndexSplitStore {
  import opened Prelude
  import opened IndexShape
  import opened IndexPath
  import opened IndexSplit
  import opened IndexStore

  // ------------------------------------------------------ effect on blocks

  /** The split block only forgets its upper keys. */
  ghost predicate LeftBody(b: Block, l: Block, d: nat) {
    l.leaf == b.leaf && l.slots == b.slots && l.numKey == if b.leaf then d else d - 1
  }

  /** The new block receives the upper keys, and as many pointers as it needs. */
  ghost predicate RightBody(b: Block, r: Block, d: nat) {
    && r.leaf == b.leaf && r.numKey == d - 1 && |r.slots| == |b.slots| == 2 * d
    && (forall i :: 0 <= i < d - 1 ==> r.slots[i].key == b.slots[d + i].key)
    && (b.leaf ==> forall i :: 0 <= i < d - 1 ==> r.slots[i].ptr == b.slots[d + i].ptr)
    && (!b.leaf ==> forall i :: 0 <= i < d ==> r.slots[i].ptr == b.slots[d + i].ptr)
    && (forall i :: d - 1 <= i < 2 * d ==> r.slots[i].key == 0)
  }

  /** Key (pointer) field `i` after those above `m` moved one to the right. */
  function ShiftKey(b: Block, m: nat, i: nat): Key
    requires i < |b.slots|
  {
    if m < i <= b.numKey then b.slots[i - 1].key else b.slots[i].key
  }

  function ShiftPtr(b: Block, m: nat, i: nat): int
    requires i < |b.slots|
  {
    if m < i <= b.numKey + 1 then b.slots[i - 1].ptr else b.slots[i].ptr
  }

  /** The parent gains a key at `n` and a pointer to `q` at `n + 1`. */
  ghost predicate ParentBody(b: Block, v: Block, n: nat, mid: Key, q: int) {
    && v.leaf == b.leaf && v.numKey == b.numKey + 1 && |v.slots| == |b.slots|
    && (forall i :: 0 <= i < |v.slots| ==>
          v.slots[i] == Slot(if i == n + 1 then q else ShiftPtr(b, n + 1, i), if i == n then mid else ShiftKey(b, n, i)))
  }

  ghost predicate SplitBlocks(s0: Store, s1: Store, u: int, n: nat, c: int, q: int, d: nat) {
    && d >= 2 && u != c && u in s0 && c in s0 && q !in s0 && |s0[c].slots| == 2 * d
    && s1.Keys == s0.Keys + {q}
    && (forall o :: o in s0 && o != u && o != c ==> SameBody(s0[o], s1[o]))
    && LeftBody(s0[c], s1[c], d)
    && RightBody(s0[c], s1[q], d)
    && ParentBody(s0[u], s1[u], n, s0[c].slots[d - 1].key, q)
  }

  /** `q` was linked in behind `c`. */
  ghost predicate Linked(s0: Store, s1: Store, c: int, q: int) {
    && c in s0 && q !in s0 && s1.Keys == s0.Keys + {q}
    && s1[q].prev == c && s1[q].next == s0[c].next
    && (forall o :: o in s0 ==> s1[o].next == if o == c then q else s0[o].next)
    && (forall o :: o in s0 ==> s1[o].prev == if o == s0[c].next then q else s0[o].prev)
  }

  // ------------------------------------------------------------ contents

  lemma KeysSorted(c: Tree)
    requires c.Inner? && Seps(c) && Sorted(Elems(c))
    ensures forall i, j :: 0 <= i <= j < |c.keys| ==> c.keys[i] <= c.keys[j]
  {
    forall i, j | 0 <= i < j < |c.keys| ensures c.keys[i] <= c.keys[j] {
      SeparatorsHold(c, j);
      CutElems(c.kids[..j], i);
      var es := Elems(c.kids[i]);
      assert es[|es| - 1] in ElemsAll(c.kids[..j]);
      assert es[|es| - 1].key <= c.keys[j - 1];
      SeparatorsHold(c, j);
      var fs := Elems(c.kids[j]);
      assert fs[|fs| - 1] in fs;
    }
  }

  lemma LeftHolds(b: Block, l: Block, c: Tree, hi: Option<Key>, d: nat)
    requires d >= 2 && Full(c, d) && Seps(c) && Sorted(Elems(c)) && Holds(b, c, hi, 2 * d) && LeftBody(b, l, d)
    ensures Holds(l, LeftHalf(c, d), Some(MiddleKey(c, d)), 2 * d)
  {
    if c.Inner? {
      KeysSorted(c);
    } else {
      assert forall i :: 0 <= i < b.numKey ==> b.slots[i].key == c.elems[i].key;
    }
  }

  lemma RightHolds(b: Block, r: Block, c: Tree, hi: Option<Key>, d: nat, q: int)
    requires d >= 2 && Full(c, d) && Seps(c) && Holds(b, c, hi, 2 * d) && RightBody(b, r, d)
    ensures Holds(r, RightHalf(c, d, q), hi, 2 * d)
  {
    if c.Leaf? {
      forall i | 0 <= i < r.numKey ensures r.slots[i] == Encode(RightHalf(c, d, q).elems[i]) {
        assert r.slots[i] == b.slots[d + i];
      }
    }
  }

  lemma ParentHolds(b: Block, v: Block, u: Tree, n: nat, hi: Option<Key>, d: nat, q: int)
    requires CanSplit(u, n, d) && !Full(u, d) && Holds(b, u, hi, 2 * d)
    requires ParentBody(b, v, n, MiddleKey(u.kids[n], d), q)
    ensures Holds(v, SplitKid(u, n, d, q), hi, 2 * d)
  {
    SplitKidParts(u, n, d, q);
    var u' := SplitKid(u, n, d, q);
    forall i | 0 <= i <= v.numKey ensures v.slots[i].ptr == u'.kids[i].off {
      if i < n {
        assert u'.kids[i] == u.kids[i];
      } else if i > n + 1 {
        assert u'.kids[i] == u.kids[i - 1];
      }
    }
    forall i | 0 <= i < v.numKey ensures v.slots[i].key == u'.keys[i] {
      if i < n {
        assert u'.keys[i] == u.keys[i];
      } else if i > n {
        assert u'.keys[i] == u.keys[i - 1];
      }
    }
  }

  lemma KidFrame(s0: Store, s1: Store, c: Tree, i: nat, hi: Option<Key>, order: nat)
    requires c.Inner? && i < |c.kids| && Rep(s0, c, hi, order) && Distinct(c)
    requires SameContent(s0, s1, Offs(c) - {c.off})
    ensures Rep(s1, c.kids[i], KidBound(c, i, hi), order)
  {
    CutOffs(c.kids, i);
    RepFrame(s0, s1, c.kids[i], KidBound(c, i, hi), order);
  }

  lemma LeftRep(s0: Store, s1: Store, c: Tree, hi: Option<Key>, d: nat)
    requires d >= 2 && Full(c, d) && Seps(c) && Sorted(Elems(c))
    requires Rep(s0, c, hi, 2 * d) && SameContent(s0, s1, Offs(c) - {c.off}) && Distinct(c)
    requires c.off in s1 && LeftBody(s0[c.off], s1[c.off], d)
    ensures Rep(s1, LeftHalf(c, d), Some(MiddleKey(c, d)), 2 * d)
  {
    LeftHolds(s0[c.off], s1[c.off], c, hi, d);
    if c.Inner? {
      var l, mid := LeftHalf(c, d), Some(MiddleKey(c, d));
      forall i | 0 <= i < |l.kids| ensures Rep(s1, l.kids[i], KidBound(l, i, mid), 2 * d) {
        assert KidBound(l, i, mid) == KidBound(c, i, hi) && l.kids[i] == c.kids[i];
        KidFrame(s0, s1, c, i, hi, 2 * d);
      }
    }
  }

  lemma RightRep(s0: Store, s1: Store, c: Tree, hi: Option<Key>, d: nat, q: int)
    requires d >= 2 && Full(c, d) && Seps(c)
    requires Rep(s0, c, hi, 2 * d) && SameContent(s0, s1, Offs(c) - {c.off}) && Distinct(c)
    requires q in s1 && RightBody(s0[c.off], s1[q], d)
    ensures Rep(s1, RightHalf(c, d, q), hi, 2 * d)
  {
    RightHolds(s0[c.off], s1[q], c, hi, d, q);
    if c.Inner? {
      var r := RightHalf(c, d, q);
      forall i | 0 <= i < |r.kids| ensures Rep(s1, r.kids[i], KidBound(r, i, hi), 2 * d) {
        assert KidBound(r, i, hi) == KidBound(c, d + i, hi) && r.kids[i] == c.kids[d + i];
        KidFrame(s0, s1, c, d + i, hi, 2 * d);
      }
    }
  }

  lemma KidSorted(u: Tree, n: nat)
    requires u.Inner? && Sorted(Elems(u)) && n < |u.kids|
    ensures Sorted(Elems(u.kids[n]))
  {
    CutElems(u.kids, n);
    SortedPart(ElemsAll(u.kids[..n]), Elems(u.kids[n]), ElemsAll(u.kids[n + 1..]));
  }

  /** A child the split does not touch. */
  lemma OtherKidRep(s0: Store, s1: Store, u: Tree, n: nat, j: nat, hi: Option<Key>, order: nat)
    requires u.Inner? && n < |u.kids| && j < |u.kids| && j != n && Distinct(u) && Rep(s0, u, hi, order)
    requires SameContent(s0, s1, Offs(u) - {u.off, u.kids[n].off})
    ensures Rep(s1, u.kids[j], KidBound(u, j, hi), order)
  {
    OtherKids(u.kids, n, j);
    assert u.kids[n].off in Offs(u.kids[n]);
    RepFrame(s0, s1, u.kids[j], KidBound(u, j, hi), order);
  }

  lemma SplitHalvesRep(s0: Store, s1: Store, u: Tree, n: nat, hi: Option<Key>, d: nat, q: int)
    requires CanSplit(u, n, d) && Seps(u) && Sorted(Elems(u)) && Distinct(u)
    requires Rep(s0, u, hi, 2 * d) && SplitBlocks(s0, s1, u.off, n, u.kids[n].off, q, d)
    ensures Rep(s1, LeftHalf(u.kids[n], d), Some(MiddleKey(u.kids[n], d)), 2 * d)
    ensures Rep(s1, RightHalf(u.kids[n], d, q), KidBound(u, n, hi), 2 * d)
  {
    var c := u.kids[n];
    KidSorted(u, n);
    CutOffs(u.kids, n);
    CutDistinct(u.kids, n);
    assert SameContent(s0, s1, Offs(c) - {c.off});
    LeftRep(s0, s1, c, KidBound(u, n, hi), d);
    RightRep(s0, s1, c, KidBound(u, n, hi), d, q);
  }

  lemma SplitKidRep(s0: Store, s1: Store, u: Tree, n: nat, hi: Option<Key>, d: nat, q: int, i: nat)
    requires CanSplit(u, n, d) && Seps(u) && Sorted(Elems(u)) && Distinct(u) && i <= |u.kids|
    requires Rep(s0, u, hi, 2 * d) && SplitBlocks(s0, s1, u.off, n, u.kids[n].off, q, d)
    ensures |SplitKid(u, n, d, q).kids| == |u.kids| + 1
    ensures Rep(s1, SplitKid(u, n, d, q).kids[i], KidBound(SplitKid(u, n, d, q), i, hi), 2 * d)
  {
    var u' := SplitKid(u, n, d, q);
    SplitKidParts(u, n, d, q);
    if i == n || i == n + 1 {
      SplitHalvesRep(s0, s1, u, n, hi, d, q);
      if i == n + 1 { assert KidBound(u', i, hi) == KidBound(u, n, hi); }
    } else {
      var j := if i < n then i else i - 1;
      OtherKidRep(s0, s1, u, n, j, hi, 2 * d);
      assert KidBound(u', i, hi) == KidBound(u, j, hi);
      assert u'.kids[i] == u.kids[j];
    }
  }

  /** The new blocks hold the split parent. */
  lemma SplitRep(s0: Store, s1: Store, u: Tree, n: nat, hi: Option<Key>, d: nat, q: int)
    requires CanSplit(u, n, d) && !Full(u, d) && Seps(u) && Sorted(Elems(u)) && Distinct(u)
    requires Rep(s0, u, hi, 2 * d) && SplitBlocks(s0, s1, u.off, n, u.kids[n].off, q, d)
    ensures Rep(s1, SplitKid(u, n, d, q), hi, 2 * d)
  {
    var u', c := SplitKid(u, n, d, q), u.kids[n];
    assert MiddleKey(c, d) == s0[c.off].slots[d - 1].key by {
      assert Rep(s0, c, KidBound(u, n, hi), 2 * d);
    }
    ParentHolds(s0[u.off], s1[u.off], u, n, hi, d, q);
    forall i | 0 <= i < |u'.kids| ensures Rep(s1, u'.kids[i], KidBound(u', i, hi), 2 * d) {
      SplitKidRep(s0, s1, u, n, hi, d, q, i);
    }
  }

  // ---------------------------------------------------------------- levels

  function InsertAfter(s: seq<int>, m: nat, q: int): seq<int>
    requires m < |s|
  {
    s[..m + 1] + [q] + s[m + 1..]
  }

  lemma ChainInsert(s0: Store, s1: Store, s: seq<int>, m: nat, q: int)
    requires Chain(s0, s) && NoDup(s) && INVALID_REF !in s && m < |s| && Linked(s0, s1, s[m], q)
    ensures Chain(s1, InsertAfter(s, m, q))
  {
    var s' := InsertAfter(s, m, q);
    assert ChainAt(s0, s, m);
    forall i | 0 <= i < |s'| ensures ChainAt(s1, s', i) {
      if i == m + 1 {
        assert s'[i] == q;
      } else {
        InsertedAt(s0, s1, s, m, q, if i <= m then i else i - 1);
      }
    }
  }

  /** A block that was in the list already, after `q` has been linked in behind position `m`. */
  lemma InsertedAt(s0: Store, s1: Store, s: seq<int>, m: nat, q: int, j: nat)
    requires NoDup(s) && INVALID_REF !in s && m < |s| && j < |s| && Linked(s0, s1, s[m], q)
    requires ChainAt(s0, s, m) && ChainAt(s0, s, j)
    ensures ChainAt(s1, InsertAfter(s, m, q), if j <= m then j else j + 1)
  {
    var s', i := InsertAfter(s, m, q), if j <= m then j else j + 1;
    assert s'[i] == s[j] && s[j] in s;
    assert After(s', i) == if j == m then q else After(s, j);
    assert Before(s', i) == if j == m + 1 then q else Before(s, j);
    assert j == m <==> s[j] == s[m];
    assert j == m + 1 <==> s[j] == After(s, m);
  }

  lemma ChainElsewhere(s0: Store, s1: Store, s: seq<int>, c: int, q: int)
    requires Chain(s0, s) && Linked(s0, s1, c, q) && c !in s && s0[c].next !in s
    ensures Chain(s1, s)
  {
    forall i | 0 <= i < |s| ensures ChainAt(s1, s, i) {
      assert ChainAt(s0, s, i) && s[i] in s;
      assert s[i] != c && s[i] != s0[c].next;
    }
  }

  ghost predicate Chains(store: Store, t: Tree, h: nat) {
    forall k :: 0 <= k <= h ==> Chain(store, Level(t, k))
  }

  /** Where the split shows: one level, right behind the split block. */
  lemma SplitLevel(t: Tree, p: Path, n: nat, q: int, d: nat) returns (m: nat)
    requires IsPath(t, p) && CanSplit(Sub(t, p), n, d)
    ensures m < |Level(t, |p| + 1)| && Level(t, |p| + 1)[m] == Sub(t, p).kids[n].off
    ensures Level(Replace(t, p, SplitKid(Sub(t, p), n, d, q)), |p| + 1) == InsertAfter(Level(t, |p| + 1), m, q)
  {
    var x, a, b, y := LevelParts(t, p, n, q, d);
    m := |x| + |a|;
    Regroup(x, a, Sub(t, p).kids[n].off, q, b, y);
  }

  lemma LevelParts(t: Tree, p: Path, n: nat, q: int, d: nat) returns (x: seq<int>, a: seq<int>, b: seq<int>, y: seq<int>)
    requires IsPath(t, p) && CanSplit(Sub(t, p), n, d)
    ensures Level(t, |p| + 1) == x + (a + [Sub(t, p).kids[n].off] + b) + y
    ensures Level(Replace(t, p, SplitKid(Sub(t, p), n, d, q)), |p| + 1) == x + (a + [Sub(t, p).kids[n].off, q] + b) + y
  {
    x, y := LevelPre(t, p, 1), LevelPost(t, p, 1);
    a, b := LevelAll(Sub(t, p).kids[..n], 0), LevelAll(Sub(t, p).kids[n + 1..], 0);
    SplitKidLevel(Sub(t, p), n, d, q);
    SubLevel(t, p, 1);
    ReplaceLevel(t, p, SplitKid(Sub(t, p), n, d, q), 1);
  }

  lemma Regroup(x: seq<int>, a: seq<int>, c: int, q: int, b: seq<int>, y: seq<int>)
    ensures var s := x + (a + [c] + b) + y;
            && s[|x| + |a|] == c
            && x + (a + [c, q] + b) + y == InsertAfter(s, |x| + |a|, q)
  {
  }

  lemma SplitLevelsElsewhere(t: Tree, p: Path, n: nat, q: int, d: nat, k: nat)
    requires IsPath(t, p) && CanSplit(Sub(t, p), n, d) && Seps(Sub(t, p)) && k != |p| + 1
    ensures Level(Replace(t, p, SplitKid(Sub(t, p), n, d, q)), k) == Level(t, k)
  {
    if k <= |p| {
      ReplaceLevelAbove(t, p, SplitKid(Sub(t, p), n, d, q), k);
    } else {
      SplitLevelsBelow(t, p, n, q, d, k - |p|);
    }
  }

  lemma SplitLevelsBelow(t: Tree, p: Path, n: nat, q: int, d: nat, j: nat)
    requires IsPath(t, p) && CanSplit(Sub(t, p), n, d) && Seps(Sub(t, p)) && j >= 2
    ensures Level(Replace(t, p, SplitKid(Sub(t, p), n, d, q)), |p| + j) == Level(t, |p| + j)
  {
    SplitKidLevelBelow(Sub(t, p), n, d, q, j);
    ReplaceLevel(t, p, SplitKid(Sub(t, p), n, d, q), j);
    SubLevel(t, p, j);
  }

  /** Splitting a child and linking in the new block relinks every level. */
  lemma SplitChains(s0: Store, s1: Store, t: Tree, p: Path, n: nat, q: int, h: nat, d: nat)
    requires IsPath(t, p) && Distinct(t) && Chains(s0, t, h) && INVALID_REF !in Offs(t)
    requires CanSplit(Sub(t, p), n, d) && Seps(Sub(t, p)) && |p| < h
    requires Linked(s0, s1, Sub(t, p).kids[n].off, q)
    ensures Chains(s1, Replace(t, p, SplitKid(Sub(t, p), n, d, q)), h)
  {
    var t' := Replace(t, p, SplitKid(Sub(t, p), n, d, q));
    var c, lvl := Sub(t, p).kids[n].off, |p| + 1;
    var m := SplitLevel(t, p, n, q, d);
    var s := Level(t, lvl);
    forall k | 0 <= k <= h ensures Chain(s1, Level(t', k)) {
      NotInvalid(t, k);
      if k == lvl {
        LevelOffs(t, k);
        ChainInsert(s0, s1, s, m, q);
      } else {
        SplitLevelsElsewhere(t, p, n, q, d, k);
        if k < lvl { LevelsApart(t, k, lvl); } else { LevelsApart(t, lvl, k); }
        assert s0[c].next == After(s, m) by { assert ChainAt(s0, s, m); }
        ChainElsewhere(s0, s1, Level(t, k), c, q);
      }
    }
  }

  lemma NotInvalid(t: Tree, k: nat)
    requires Distinct(t) && INVALID_REF !in Offs(t)
    ensures INVALID_REF !in Level(t, k)
  {
    LevelOffs(t, k);
  }

  // ------------------------------------------------------- the whole index

  /** A split anywhere below a node with room takes an index to an index. */
  lemma SplitValid(s0: Store, s1: Store, t: Tree, p: Path, n: nat, q: int, h: nat, d: nat, limit: int)
    requires ValidIndex(s0, t, h, d, limit) && IsPath(t, p) && q == limit >= 0
    requires CanSplit(Sub(t, p), n, d) && !Full(Sub(t, p), d)
    requires SplitBlocks(s0, s1, Sub(t, p).off, n, Sub(t, p).kids[n].off, q, d)
    requires Linked(s0, s1, Sub(t, p).kids[n].off, q)
    ensures var t' := Replace(t, p, SplitKid(Sub(t, p), n, d, q));
            ValidIndex(s1, t', h, d, limit + BLOCK_SZ) && Elems(t') == Elems(t) && t'.off == t.off
  {
    var u, t' := Sub(t, p), Replace(t, p, SplitKid(Sub(t, p), n, d, q));
    assert WellFormed(t', h, d) && Elems(t') == Elems(t) && Offs(t') == Offs(t) + {q} by {
      SplitStep(t, p, n, q, h, d);
    }
    assert Rep(s1, t', None, 2 * d) && t'.off == t.off by {
      SplitRepInside(s0, s1, t, p, n, q, h, d);
    }
    assert Chains(s1, t', h) by {
      assert Chains(s0, t, h);
      SubInvariants(t, p, h, d);
      SplitChains(s0, s1, t, p, n, q, h, d);
    }
  }

  lemma SplitRepInside(s0: Store, s1: Store, t: Tree, p: Path, n: nat, q: int, h: nat, d: nat)
    requires WellFormed(t, h, d) && Rep(s0, t, None, 2 * d) && IsPath(t, p)
    requires CanSplit(Sub(t, p), n, d) && !Full(Sub(t, p), d)
    requires SplitBlocks(s0, s1, Sub(t, p).off, n, Sub(t, p).kids[n].off, q, d)
    ensures var t' := Replace(t, p, SplitKid(Sub(t, p), n, d, q));
            Rep(s1, t', None, 2 * d) && t'.off == t.off
  {
    var u := Sub(t, p);
    assert Seps(u) && Distinct(u) && Sorted(Elems(u)) by {
      SubInvariants(t, p, h, d);
      SubElems(t, p);
      SortedPart(Pre(t, p), Elems(u), Post(t, p));
    }
    assert Rep(s1, SplitKid(u, n, d, q), Bound(t, p, None), 2 * d) by {
      RepSub(s0, t, p, None, 2 * d);
      SplitRep(s0, s1, u, n, Bound(t, p, None), d, q);
    }
    assert SameContent(s0, s1, Offs(t) - Offs(u)) by {
      CutOffs(u.kids, n);
      assert u.off in Offs(u) && u.kids[n].off in Offs(u.kids[n]);
    }
    RepReplace(s0, s1, t, p, SplitKid(u, n, d, q), None, 2 * d);
  }

  /** A new block leaves all lists of older ones alone. */
  lemma ChainFrame(s0: Store, s1: Store, s: seq<int>, top: int)
    requires Chain(s0, s) && top !in s0 && top in s1 && s1 == s0[top := s1[top]]
    ensures Chain(s1, s)
  {
    forall i | 0 <= i < |s| ensures ChainAt(s1, s, i) { assert ChainAt(s0, s, i); }
  }

  /** Before it is split, a full root hangs below a new root without keys. */
  lemma LoneRep(s0: Store, s1: Store, t: Tree, top: int, h: nat, order: nat)
    requires Rep(s0, t, None, order) && Chains(s0, t, h) && Distinct(t) && Seps(t) && Balanced(t, h)
    requires top !in s0 && top in s1 && s1 == s0[top := s1[top]] && top !in Offs(t)
    requires Holds(s1[top], Inner(top, [], [t]), None, order)
    requires s1[top].prev == s1[top].next == INVALID_REF
    ensures Rep(s1, Inner(top, [], [t]), None, order) && Chains(s1, Inner(top, [], [t]), h + 1)
  {
    var u := Inner(top, [], [t]);
    RepFrame(s0, s1, t, None, order);
    assert KidBound(u, 0, None) == None;
    Lone(t, top, h);
    forall k | 0 <= k <= h + 1 ensures Chain(s1, Level(u, k)) {
      if k > 0 {
        assert Level(u, k - 1 + 1) == Level(t, k - 1);
        ChainFrame(s0, s1, Level(t, k - 1), top);
      } else {
        assert Level(u, 0) == [top] && ChainAt(s1, [top], 0);
      }
    }
  }

  /** Putting a new root above a full one and splitting it does so too. */
  lemma GrowValid(s0: Store, s1: Store, s2: Store, t: Tree, top: int, q: int, h: nat, d: nat, limit: int)
    requires ValidIndex(s0, t, h, d, limit) && Full(t, d) && 0 <= limit <= top < q
    requires top !in s0 && top in s1 && s1 == s0[top := s1[top]]
    requires Holds(s1[top], Inner(top, [], [t]), None, 2 * d)
    requires s1[top].prev == s1[top].next == INVALID_REF
    requires SplitBlocks(s1, s2, top, 0, t.off, q, d) && Linked(s1, s2, t.off, q)
    ensures CanSplit(Inner(top, [], [t]), 0, d)
    ensures var t' := SplitKid(Inner(top, [], [t]), 0, d, q);
            ValidIndex(s2, t', h + 1, d, q + BLOCK_SZ) && Elems(t') == Elems(t)
  {
    var u := Inner(top, [], [t]);
    GrowStep(t, top, q, h, d);
    Lone(t, top, h);
    assert Chains(s0, t, h);
    LoneRep(s0, s1, t, top, h, 2 * d);
    assert Rep(s2, SplitKid(u, 0, d, q), None, 2 * d) by {
      SplitRep(s1, s2, u, 0, None, d, q);
    }
    assert Chains(s2, SplitKid(u, 0, d, q), h + 1) by {
      SplitChains(s1, s2, u, [], 0, q, h + 1, d);
    }
  }

  /** The new root has two children with room. */
  lemma GrownIndex(s0: Store, s1: Store, s2: Store, t: Tree, top: int, q: int, h: nat, d: nat, limit: int)
    requires ValidIndex(s0, t, h, d, limit) && Full(t, d) && 0 <= limit <= top < q
    requires top !in s0 && top in s1 && s1 == s0[top := s1[top]]
    requires Holds(s1[top], Inner(top, [], [t]), None, 2 * d)
    requires s1[top].prev == s1[top].next == INVALID_REF
    requires SplitBlocks(s1, s2, top, 0, t.off, q, d) && Linked(s1, s2, t.off, q)
    ensures CanSplit(Inner(top, [], [t]), 0, d)
    ensures var t' := SplitKid(Inner(top, [], [t]), 0, d, q);
            ValidIndex(s2, t', h + 1, d, q + BLOCK_SZ) && Elems(t') == Elems(t)
            && t'.off == top && |t'.keys| == 1 && |t'.kids| == 2 && !Full(t'.kids[0], d) && !Full(t'.kids[1], d)
  {
    GrowValid(s0, s1, s2, t, top, q, h, d, limit);
    GrownRoot(t, top, q, d);
  }
}

/**
 What borrowing from the left sibling does to the blocks of two inner nodes and
 their parent, and why the result stores the rotated shape with its levels linked.
 */
module IndexBorrowStore {
  import opened Prelude
  import opened IndexShape
  import opened IndexPath
  import opened IndexSplit
  import opened IndexStore
  import opened IndexSplitStore
  import opened IndexScan
  import opened IndexBorrow

  /** Children `i` and `i + 1` are inner nodes, and the left one has a key to give. */
  ghost predicate CanRotate(u: Tree, i: nat) {
    && u.Inner? && i < |u.keys| && |u.kids| == |u.keys| + 1
    && u.kids[i].Inner? && u.kids[i + 1].Inner? && |u.kids[i].keys| > 0
    && |u.kids[i].kids| == |u.kids[i].keys| + 1 && |u.kids[i + 1].kids| == |u.kids[i + 1].keys| + 1
  }

  ghost function Rotated(u: Tree, i: nat): Tree
    requires CanRotate(u, i)
  {
    InParent(u, i, FromPrev(PairAt(u, i)))
  }

  // ------------------------------------------------------ effect on blocks

  /** The block gains a key and a child in front. */
  ghost predicate GotBody(b: Block, v: Block, key: Key, child: int) {
    && v.leaf == b.leaf && v.numKey == b.numKey + 1 && |v.slots| == |b.slots|
    && (forall i :: 0 <= i < |v.slots| ==> v.slots[i] == GotSlot(b, key, child, i))
  }

  function GotSlot(b: Block, key: Key, child: int, i: nat): Slot
    requires i < |b.slots|
  {
    Slot(if i == 0 then child else if i <= b.numKey + 2 then b.slots[i - 1].ptr else b.slots[i].ptr,
         if i == 0 then key else if i <= b.numKey then b.slots[i - 1].key else b.slots[i].key)
  }

  ghost predicate SameRefs(a: Block, b: Block) { a.prev == b.prev && a.next == b.next }

  ghost predicate RotateBlocks(s0: Store, s1: Store, u: int, i: nat, l: int, r: int) {
    && u in s0 && l in s0 && r in s0 && u != l && u != r && l != r
    && i < |s0[u].slots| && 0 < s0[l].numKey < |s0[l].slots|
    && s1.Keys == s0.Keys && (forall o :: o in s0 && o != u && o != l && o != r ==> s1[o] == s0[o])
    && s1[l] == s0[l].(numKey := s0[l].numKey - 1)
    && s1[u] == s0[u].(slots := s0[u].slots[i := Slot(s0[u].slots[i].ptr, s0[l].slots[s0[l].numKey - 1].key)])
    && GotBody(s0[r], s1[r], s0[u].slots[i].key, s0[l].slots[s0[l].numKey].ptr) && SameRefs(s0[r], s1[r])
  }

  // --------------------------------------------------------------- blocks

  lemma LeftGives(b: Block, v: Block, l: Tree, key: Key, order: nat)
    requires l.Inner? && |l.keys| > 0 && Holds(b, l, Some(key), order) && v == b.(numKey := b.numKey - 1)
    requires l.keys[|l.keys| - 1] <= key
    ensures var m := |l.keys|; Holds(v, Inner(l.off, l.keys[..m - 1], l.kids[..m]), Some(l.keys[m - 1]), order)
  {
    var m := |l.keys|;
    var l' := Inner(l.off, l.keys[..m - 1], l.kids[..m]);
    forall i | v.numKey <= i < order ensures Harmless(v.slots[i].key, l', Some(l.keys[m - 1])) {
      if i >= b.numKey { assert Harmless(b.slots[i].key, l, Some(key)); }
    }
  }

  lemma RightGets(b: Block, v: Block, r: Tree, key: Key, kid: Tree, hi: Option<Key>, order: nat)
    requires r.Inner? && Holds(b, r, hi, order) && b.numKey + 2 < order && GotBody(b, v, key, kid.off)
    ensures Holds(v, Inner(r.off, [key] + r.keys, [kid] + r.kids), hi, order)
  {
    var r' := Inner(r.off, [key] + r.keys, [kid] + r.kids);
    forall i | v.numKey <= i < order ensures Harmless(v.slots[i].key, r', hi) {
      assert v.slots[i].key == b.slots[i].key;
      assert Harmless(b.slots[i].key, r, hi);
    }
    forall i | 0 <= i <= v.numKey ensures v.slots[i].ptr == r'.kids[i].off {
      if i > 0 { assert v.slots[i].ptr == b.slots[i - 1].ptr; }
    }
    forall i | 0 <= i < v.numKey ensures v.slots[i].key == r'.keys[i] {
      if i > 0 { assert v.slots[i].key == b.slots[i - 1].key; }
    }
    assert v.slots[order - 1].key == b.slots[order - 1].key;
  }

  lemma ParentTurns(b: Block, v: Block, u: Tree, i: nat, hi: Option<Key>, order: nat)
    requires CanRotate(u, i) && Holds(b, u, hi, order)
    requires v == b.(slots := b.slots[i := Slot(b.slots[i].ptr, FromPrev(PairAt(u, i)).key)])
    ensures Holds(v, Rotated(u, i), hi, order)
  {
    var u' := Rotated(u, i);
    forall j | v.numKey <= j < order ensures Harmless(v.slots[j].key, u', hi) { assert Harmless(b.slots[j].key, u, hi); }
    forall j | 0 <= j <= v.numKey ensures v.slots[j].ptr == u'.kids[j].off {
      if j != i && j != i + 1 { assert u'.kids[j] == u.kids[j]; }
    }
  }

  // -------------------------------------------------------------- subtrees

  /** The blocks of subtree `j` of child `c` are not touched. */
  lemma Untouched(s0: Store, s1: Store, u: Tree, i: nat, c: nat, j: nat)
    requires CanRotate(u, i) && Distinct(u) && (c == i || c == i + 1) && j < |u.kids[c].kids|
    requires RotateBlocks(s0, s1, u.off, i, u.kids[i].off, u.kids[i + 1].off)
    ensures SameContent(s0, s1, Offs(u.kids[c].kids[j]))
  {
    var x, o := u.kids[c], if c == i then i + 1 else i;
    CutOffs(u.kids, c);
    CutDistinct(u.kids, c);
    CutOffs(x.kids, j);
    OtherKids(u.kids, o, c);
    assert u.kids[o].off in Offs(u.kids[o]);
  }

  lemma LeftKidRep(s0: Store, s1: Store, u: Tree, i: nat, j: nat, hi: Option<Key>, order: nat)
    requires CanRotate(u, i) && Distinct(u) && j <= |u.kids[i].keys| && Rep(s0, u, hi, order)
    requires RotateBlocks(s0, s1, u.off, i, u.kids[i].off, u.kids[i + 1].off)
    ensures Rep(s1, u.kids[i].kids[j], if j < |u.kids[i].keys| then Some(u.kids[i].keys[j]) else Some(u.keys[i]), order)
  {
    var l := u.kids[i];
    assert Rep(s0, l, Some(u.keys[i]), order) by { assert KidBound(u, i, hi) == Some(u.keys[i]); }
    var b := KidBound(l, j, Some(u.keys[i]));
    assert Rep(s0, l.kids[j], b, order);
    Untouched(s0, s1, u, i, i, j);
    RepFrame(s0, s1, l.kids[j], b, order);
  }

  lemma RightKidRep(s0: Store, s1: Store, u: Tree, i: nat, j: nat, hi: Option<Key>, order: nat)
    requires CanRotate(u, i) && Distinct(u) && j <= |u.kids[i + 1].keys| && Rep(s0, u, hi, order)
    requires RotateBlocks(s0, s1, u.off, i, u.kids[i].off, u.kids[i + 1].off)
    ensures Rep(s1, u.kids[i + 1].kids[j], KidBound(u.kids[i + 1], j, KidBound(u, i + 1, hi)), order)
  {
    var r, b := u.kids[i + 1], KidBound(u, i + 1, hi);
    assert Rep(s0, r, b, order);
    assert Rep(s0, r.kids[j], KidBound(r, j, b), order);
    Untouched(s0, s1, u, i, i + 1, j);
    RepFrame(s0, s1, r.kids[j], KidBound(r, j, b), order);
  }

  lemma LeftRotated(s0: Store, s1: Store, u: Tree, i: nat, hi: Option<Key>, order: nat)
    requires CanRotate(u, i) && Distinct(u) && Rep(s0, u, hi, order) && u.kids[i].keys[|u.kids[i].keys| - 1] <= u.keys[i]
    requires RotateBlocks(s0, s1, u.off, i, u.kids[i].off, u.kids[i + 1].off)
    ensures Rep(s1, FromPrev(PairAt(u, i)).l, Some(FromPrev(PairAt(u, i)).key), order)
  {
    var l, q := u.kids[i], FromPrev(PairAt(u, i));
    assert Holds(s0[l.off], l, Some(u.keys[i]), order) by {
      assert KidBound(u, i, hi) == Some(u.keys[i]);
      assert Rep(s0, l, KidBound(u, i, hi), order);
    }
    LeftGives(s0[l.off], s1[l.off], l, u.keys[i], order);
    forall j | 0 <= j < |q.l.kids| ensures Rep(s1, q.l.kids[j], KidBound(q.l, j, Some(q.key)), order) {
      LeftKept(s0, s1, u, i, j, hi, order);
    }
  }

  lemma LeftKept(s0: Store, s1: Store, u: Tree, i: nat, j: nat, hi: Option<Key>, order: nat)
    requires CanRotate(u, i) && Distinct(u) && Rep(s0, u, hi, order) && j < |u.kids[i].keys|
    requires RotateBlocks(s0, s1, u.off, i, u.kids[i].off, u.kids[i + 1].off)
    ensures var q := FromPrev(PairAt(u, i)); Rep(s1, q.l.kids[j], KidBound(q.l, j, Some(q.key)), order)
  {
    LeftKidRep(s0, s1, u, i, j, hi, order);
    assert FromPrev(PairAt(u, i)).l.kids[j] == u.kids[i].kids[j];
  }

  lemma RightRotated(s0: Store, s1: Store, u: Tree, i: nat, hi: Option<Key>, order: nat)
    requires CanRotate(u, i) && Distinct(u) && Rep(s0, u, hi, order) && |u.kids[i + 1].keys| + 2 < order
    requires RotateBlocks(s0, s1, u.off, i, u.kids[i].off, u.kids[i + 1].off)
    ensures Rep(s1, FromPrev(PairAt(u, i)).r, KidBound(u, i + 1, hi), order)
  {
    var l, r, b := u.kids[i], u.kids[i + 1], KidBound(u, i + 1, hi);
    var q, m := FromPrev(PairAt(u, i)), |l.keys|;
    assert Holds(s0[u.off], u, hi, order);
    assert Holds(s0[l.off], l, KidBound(u, i, hi), order);
    assert Holds(s0[r.off], r, b, order);
    RightGets(s0[r.off], s1[r.off], r, u.keys[i], l.kids[m], b, order);
    forall j | 0 <= j < |q.r.kids| ensures Rep(s1, q.r.kids[j], KidBound(q.r, j, b), order) {
      if j == 0 {
        LeftKidRep(s0, s1, u, i, m, hi, order);
      } else {
        RightKidRep(s0, s1, u, i, j - 1, hi, order);
        assert q.r.kids[j] == r.kids[j - 1] && KidBound(q.r, j, b) == KidBound(r, j - 1, b);
      }
    }
  }

  /** The new blocks hold the rotated parent. */
  lemma RotateRep(s0: Store, s1: Store, u: Tree, i: nat, hi: Option<Key>, order: nat)
    requires CanRotate(u, i) && Distinct(u) && Rep(s0, u, hi, order) && |u.kids[i + 1].keys| + 2 < order
    requires u.kids[i].keys[|u.kids[i].keys| - 1] <= u.keys[i]
    requires RotateBlocks(s0, s1, u.off, i, u.kids[i].off, u.kids[i + 1].off)
    ensures Rep(s1, Rotated(u, i), hi, order)
  {
    var u', l := Rotated(u, i), u.kids[i];
    assert s0[l.off].slots[s0[l.off].numKey - 1].key == l.keys[|l.keys| - 1] by {
      assert Holds(s0[l.off], l, KidBound(u, i, hi), order);
    }
    ParentTurns(s0[u.off], s1[u.off], u, i, hi, order);
    LeftRotated(s0, s1, u, i, hi, order);
    RightRotated(s0, s1, u, i, hi, order);
    forall j | 0 <= j < |u'.kids| ensures Rep(s1, u'.kids[j], KidBound(u', j, hi), order) {
      if j != i && j != i + 1 {
        assert u'.kids[j] == u.kids[j] && KidBound(u', j, hi) == KidBound(u, j, hi);
        OtherRotated(s0, s1, u, i, j, hi, order);
      }
    }
  }

  lemma OtherRotated(s0: Store, s1: Store, u: Tree, i: nat, j: nat, hi: Option<Key>, order: nat)
    requires CanRotate(u, i) && Distinct(u) && Rep(s0, u, hi, order) && j < |u.kids| && j != i && j != i + 1
    requires RotateBlocks(s0, s1, u.off, i, u.kids[i].off, u.kids[i + 1].off)
    ensures Rep(s1, u.kids[j], KidBound(u, j, hi), order)
  {
    OtherKids(u.kids, i, j);
    OtherKids(u.kids, i + 1, j);
    assert u.kids[i].off in Offs(u.kids[i]) && u.kids[i + 1].off in Offs(u.kids[i + 1]);
    RepFrame(s0, s1, u.kids[j], KidBound(u, j, hi), order);
  }

  // ------------------------------------------------------------- the shape

  lemma PairOffs(p: Pair)
    requires p.l.Inner? && p.r.Inner? && |p.l.keys| > 0 && |p.l.kids| == |p.l.keys| + 1
    requires Distinct(p.l) && Distinct(p.r) && Offs(p.l) !! Offs(p.r)
    ensures var q := FromPrev(p);
            Distinct(q.l) && Distinct(q.r) && Offs(q.l) !! Offs(q.r) && Offs(q.l) + Offs(q.r) == Offs(p.l) + Offs(p.r)
  {
    var q, m := FromPrev(p), |p.l.keys|;
    CutOffs(p.l.kids, m);
    CutDistinct(p.l.kids, m);
    assert p.l.kids[m + 1..] == [];
    assert q.r.kids[1..] == p.r.kids;
  }

  /** A row of trees in which two neighbours give way to two with the same blocks. */
  lemma PairDistinct(ts: seq<Tree>, i: nat, l: Tree, r: Tree)
    requires i + 1 < |ts| && DistinctAll(ts) && Distinct(l) && Distinct(r) && Offs(l) !! Offs(r)
    requires Offs(l) + Offs(r) == Offs(ts[i]) + Offs(ts[i + 1])
    ensures DistinctAll(ts[i := l][i + 1 := r]) && OffsAll(ts[i := l][i + 1 := r]) == OffsAll(ts)
  {
    var ts' := ts[i := l][i + 1 := r];
    CutTwo(ts, i);
    CutTwo(ts', i);
    assert ts'[..i] == ts[..i] && ts'[i + 2..] == ts[i + 2..];
  }

  lemma CutTwo(ts: seq<Tree>, i: nat)
    requires i + 1 < |ts|
    ensures OffsAll(ts) == OffsAll(ts[..i]) + (Offs(ts[i]) + Offs(ts[i + 1])) + OffsAll(ts[i + 2..])
    ensures DistinctAll(ts) <==>
            && DistinctAll(ts[..i]) && Distinct(ts[i]) && Distinct(ts[i + 1]) && DistinctAll(ts[i + 2..])
            && Offs(ts[i]) !! Offs(ts[i + 1])
            && OffsAll(ts[..i]) !! (Offs(ts[i]) + Offs(ts[i + 1])) && OffsAll(ts[..i]) !! OffsAll(ts[i + 2..])
            && (Offs(ts[i]) + Offs(ts[i + 1])) !! OffsAll(ts[i + 2..])
  {
    CutOffs(ts, i);
    CutDistinct(ts, i);
    assert ts[i + 1..][0] == ts[i + 1] && ts[i + 1..][1..] == ts[i + 2..];
  }

  lemma RotateDistinct(u: Tree, i: nat)
    requires CanRotate(u, i) && Distinct(u)
    ensures Distinct(Rotated(u, i)) && Offs(Rotated(u, i)) == Offs(u)
  {
    var p := PairAt(u, i);
    CutTwo(u.kids, i);
    PairOffs(p);
    PairDistinct(u.kids, i, FromPrev(p).l, FromPrev(p).r);
  }

  lemma RotateOccupied(u: Tree, i: nat, d: nat)
    requires CanRotate(u, i) && d >= 2 && Seps(u) && Count(u.kids[i]) >= d && Count(u.kids[i + 1]) < d
    ensures Occupied(u, d) ==> Occupied(Rotated(u, i), d)
    ensures RootOccupied(u, d) ==> RootOccupied(Rotated(u, i), d)
  {
    var v := Rotated(u, i);
    if (forall j :: 0 <= j < |u.kids| ==> Occupied(u.kids[j], d)) {
      BorrowOccupied(PairAt(u, i), d);
      forall j | 0 <= j < |v.kids| ensures Occupied(v.kids[j], d) {
        if j != i && j != i + 1 { assert v.kids[j] == u.kids[j]; }
      }
    }
  }

  /** Anywhere in an index a rotation keeps it well formed, with the same contents. */
  lemma RotateStep(t: Tree, p: Path, i: nat, h: nat, d: nat)
    requires WellFormed(t, h, d) && IsPath(t, p) && CanRotate(Sub(t, p), i)
    requires Count(Sub(t, p).kids[i]) >= d && Count(Sub(t, p).kids[i + 1]) < d
    ensures var t' := Replace(t, p, Rotated(Sub(t, p), i));
            WellFormed(t', h, d) && Elems(t') == Elems(t) && Offs(t') == Offs(t) && t'.off == t.off
  {
    var u := Sub(t, p);
    var v := Rotated(u, i);
    SubInvariants(t, p, h, d);
    InnerBorrowKeeps(u, i, h - |p|);
    RotateDistinct(u, i);
    RotateOccupied(u, i, d);
    SepsNonEmpty(u);
    ReplaceBalanced(t, p, v, h);
    ReplaceRootOccupied(t, p, v, d);
    ReplaceSeps(t, p, v);
    SubOffs(t, p);
    ReplaceDistinct(t, p, v);
    SubElems(t, p);
    ReplaceElems(t, p, v);
  }

  // ---------------------------------------------------------------- levels

  lemma PairLevels(p: Pair, k: nat)
    requires p.l.Inner? && p.r.Inner? && Seps(p.l) && Seps(p.r) && |p.l.keys| > 0
    ensures PairLevel(FromPrev(p), k) == PairLevel(p, k)
  {
    if k > 0 { FromPrevKeeps(p, k - 1); }
  }

  lemma RotateLevel(u: Tree, i: nat, k: nat)
    requires CanRotate(u, i) && Seps(u)
    ensures Level(Rotated(u, i), k) == Level(u, k)
  {
    if k > 0 {
      var v := Rotated(u, i);
      TwoLevels(u.kids, i, k - 1);
      TwoLevels(v.kids, i, k - 1);
      assert v.kids[..i] == u.kids[..i] && v.kids[i + 2..] == u.kids[i + 2..];
      PairLevels(PairAt(u, i), k - 1);
    }
  }

  lemma TwoLevels(ts: seq<Tree>, i: nat, k: nat)
    requires i + 1 < |ts|
    ensures LevelAll(ts, k) == LevelAll(ts[..i], k) + (Level(ts[i], k) + Level(ts[i + 1], k)) + LevelAll(ts[i + 2..], k)
  {
    CutLevel(ts, i, k);
    assert ts[i + 1..][0] == ts[i + 1] && ts[i + 1..][1..] == ts[i + 2..];
    Assoc(LevelAll(ts[..i], k) + Level(ts[i], k), Level(ts[i + 1], k), LevelAll(ts[i + 2..], k));
    Assoc(LevelAll(ts[..i], k), Level(ts[i], k), Level(ts[i + 1], k));
  }

  lemma RotateLevels(t: Tree, p: Path, i: nat, k: nat)
    requires IsPath(t, p) && CanRotate(Sub(t, p), i) && Seps(Sub(t, p))
    ensures Level(Replace(t, p, Rotated(Sub(t, p), i)), k) == Level(t, k)
  {
    if k > |p| { RotateLevel(Sub(t, p), i, k - |p|); }
    SameLevels(t, p, Rotated(Sub(t, p), i), k);
  }

  /** A node in the same block with the same levels below it. */
  lemma SameLevels(t: Tree, p: Path, v: Tree, k: nat)
    requires IsPath(t, p) && v.off == Sub(t, p).off && (k > |p| ==> Level(v, k - |p|) == Level(Sub(t, p), k - |p|))
    ensures Level(Replace(t, p, v), k) == Level(t, k)
  {
    if k <= |p| {
      ReplaceLevelAbove(t, p, v, k);
    } else {
      ReplaceLevel(t, p, v, k - |p|);
      SubLevel(t, p, k - |p|);
    }
  }

  lemma RotateLinks(s0: Store, s1: Store, u: int, i: nat, l: int, r: int, s: seq<int>)
    requires Chain(s0, s) && RotateBlocks(s0, s1, u, i, l, r)
    ensures Chain(s1, s)
  {
    forall j | 0 <= j < |s| ensures ChainAt(s1, s, j) {
      assert ChainAt(s0, s, j);
      RefsKept(s0, s1, u, i, l, r, s[j]);
    }
  }

  lemma RefsKept(s0: Store, s1: Store, u: int, i: nat, l: int, r: int, o: int)
    requires RotateBlocks(s0, s1, u, i, l, r) && o in s0
    ensures o in s1 && SameRefs(s0[o], s1[o])
  {
    if o == u { assert SameRefs(s0[u], s1[u]); }
    if o == l { assert SameRefs(s0[l], s1[l]); }
  }

  // ------------------------------------------------------- the whole index

  lemma RotateRepInside(s0: Store, s1: Store, t: Tree, p: Path, i: nat, h: nat, d: nat)
    requires WellFormed(t, h, d) && Rep(s0, t, None, 2 * d) && IsPath(t, p) && CanRotate(Sub(t, p), i)
    requires Count(Sub(t, p).kids[i + 1]) < d
    requires RotateBlocks(s0, s1, Sub(t, p).off, i, Sub(t, p).kids[i].off, Sub(t, p).kids[i + 1].off)
    ensures Rep(s1, Replace(t, p, Rotated(Sub(t, p), i)), None, 2 * d)
  {
    var u := Sub(t, p);
    NodeOrdered(t, p, h, d);
    RepSub(s0, t, p, None, 2 * d);
    LastBelow(u, i);
    RotateRep(s0, s1, u, i, Bound(t, p, None), 2 * d);
    RotateOutside(s0, s1, t, u, i);
    RepReplace(s0, s1, t, p, Rotated(u, i), None, 2 * d);
  }

  lemma RotateOutside(s0: Store, s1: Store, t: Tree, u: Tree, i: nat)
    requires CanRotate(u, i) && RotateBlocks(s0, s1, u.off, i, u.kids[i].off, u.kids[i + 1].off)
    ensures SameContent(s0, s1, Offs(t) - Offs(u))
  {
    CutTwo(u.kids, i);
    assert u.off in Offs(u) && u.kids[i].off in Offs(u.kids[i]) && u.kids[i + 1].off in Offs(u.kids[i + 1]);
  }

  lemma NodeOrdered(t: Tree, p: Path, h: nat, d: nat)
    requires WellFormed(t, h, d) && IsPath(t, p)
    ensures Seps(Sub(t, p)) && Sorted(Elems(Sub(t, p))) && Distinct(Sub(t, p))
  {
    SubInvariants(t, p, h, d);
    SubElems(t, p);
    SortedPart(Pre(t, p), Elems(Sub(t, p)), Post(t, p));
  }

  /** The last key of a child is not above its separator. */
  lemma LastBelow(u: Tree, i: nat)
    requires CanRotate(u, i) && Seps(u) && Sorted(Elems(u))
    ensures u.kids[i].keys[|u.kids[i].keys| - 1] <= u.keys[i]
  {
    var l := u.kids[i];
    KidSorted(u, i);
    SeparatorPresent(l, |l.keys| - 1);
    var j :| 0 <= j < |Elems(l)| && Elems(l)[j].key == l.keys[|l.keys| - 1];
    assert u.keys[i] == LastKey(Elems(l));
  }

  /** Borrowing from the left between inner nodes takes an index to an index with the same contents. */
  lemma RotateValid(s0: Store, s1: Store, t: Tree, p: Path, i: nat, h: nat, d: nat, limit: int)
    requires ValidIndex(s0, t, h, d, limit) && IsPath(t, p) && CanRotate(Sub(t, p), i)
    requires Count(Sub(t, p).kids[i]) >= d && Count(Sub(t, p).kids[i + 1]) < d
    requires RotateBlocks(s0, s1, Sub(t, p).off, i, Sub(t, p).kids[i].off, Sub(t, p).kids[i + 1].off)
    ensures var t' := Replace(t, p, Rotated(Sub(t, p), i));
            ValidIndex(s1, t', h, d, limit) && Elems(t') == Elems(t) && t'.off == t.off
  {
    var t' := Replace(t, p, Rotated(Sub(t, p), i));
    RotateStep(t, p, i, h, d);
    RotateRepInside(s0, s1, t, p, i, h, d);
    forall k | 0 <= k <= h ensures Chain(s1, Level(t', k)) {
      SubInvariants(t, p, h, d);
      RotateLevels(t, p, i, k);
      RotateLinks(s0, s1, Sub(t, p).off, i, Sub(t, p).kids[i].off, Sub(t, p).kids[i + 1].off, Level(t, k));
    }
  }
}

/**
 The two steps that an insertion is made of: splitting a full child under a
 parent that has room, and inserting into a leaf that has room.  Each step
 takes a well-formed index to a well-formed index.
 */
module IndexSplit {
  import opened Prelude
  import opened IndexShape
  import opened IndexPath

  // ------------------------------------------------------------ the split

  /** A full node for minimum degree `d` has 2d-1 keys. */
  ghost predicate Full(c: Tree, d: nat) {
    Count(c) == 2 * d - 1
  }

  /** What stays in the block of the split node: a leaf keeps its middle element. */
  ghost function LeftHalf(c: Tree, d: nat): Tree
    requires d >= 1 && Count(c) >= 2 * d - 1 && (c.Inner? ==> |c.kids| == |c.keys| + 1)
  {
    match c
    case Leaf(off, es) => Leaf(off, es[..d])
    case Inner(off, keys, kids) => Inner(off, keys[..d - 1], kids[..d])
  }

  /** What is copied to the new block `q`. */
  ghost function RightHalf(c: Tree, d: nat, q: int): Tree
    requires d >= 1 && Count(c) >= 2 * d - 1 && (c.Inner? ==> |c.kids| == |c.keys| + 1)
  {
    match c
    case Leaf(_, es) => Leaf(q, es[d..2 * d - 1])
    case Inner(_, keys, kids) => Inner(q, keys[d..2 * d - 1], kids[d..2 * d])
  }

  /** The key that goes up. */
  ghost function MiddleKey(c: Tree, d: nat): Key
    requires d >= 1 && Count(c) >= 2 * d - 1
  {
    match c
    case Leaf(_, es) => es[d - 1].key
    case Inner(_, keys, _) => keys[d - 1]
  }

  ghost predicate CanSplit(u: Tree, n: nat, d: nat) {
    && u.Inner? && d >= 2
    && |u.kids| == |u.keys| + 1 && n < |u.kids|
    && Full(u.kids[n], d)
    && (u.kids[n].Inner? ==> |u.kids[n].kids| == |u.kids[n].keys| + 1)
  }

  /** Parent `u` after its child `n` was split into its own block and block `q`. */
  ghost function SplitKid(u: Tree, n: nat, d: nat, q: int): Tree
    requires CanSplit(u, n, d)
  {
    var c := u.kids[n];
    Inner(u.off,
          u.keys[..n] + [MiddleKey(c, d)] + u.keys[n..],
          TwoForOne(u.kids, n, LeftHalf(c, d), RightHalf(c, d, q)))
  }

  lemma HalvesElems(c: Tree, d: nat, q: int)
    requires d >= 2 && Full(c, d) && Seps(c)
    ensures Elems(c) == Elems(LeftHalf(c, d)) + Elems(RightHalf(c, d, q))
  {
    if c.Inner? {
      assert c.kids == c.kids[..d] + c.kids[d..2 * d];
      ElemsAllAppend(c.kids[..d], c.kids[d..2 * d]);
    }
  }

  /**
   `is_full` fires at order - 1 keys.  Splitting such a node for the minimum
   degree order / 2 keeps every element exactly when the order is even; with an
   odd order the last element of a leaf (the last child of an inner node) is lost.
   */
  lemma SplitConservesIffEven(c: Tree, order: nat, q: int)
    requires order >= 4 && Count(c) == order - 1 && Seps(c)
    ensures Elems(c) == Elems(LeftHalf(c, order / 2)) + Elems(RightHalf(c, order / 2, q)) <==> order % 2 == 0
  {
    var d := order / 2;
    if order % 2 == 0 {
      HalvesElems(c, d, q);
    } else if c.Inner? {
      assert c.kids[..2 * d] == c.kids[..d] + c.kids[d..2 * d];
      ElemsAllAppend(c.kids[..d], c.kids[d..2 * d]);
      CutElems(c.kids, 2 * d);
      assert Elems(c.kids[2 * d]) != [];
    }
  }

  lemma TwoHalves<T>(s: seq<T>, d: nat)
    requires |s| == 2 * d
    ensures s == s[..d] + s[d..2 * d]
  {
  }

  lemma HalvesLevel(c: Tree, d: nat, q: int, k: nat)
    requires d >= 2 && Full(c, d) && Seps(c) && k >= 1
    ensures Level(c, k) == Level(LeftHalf(c, d), k) + Level(RightHalf(c, d, q), k)
  {
    if c.Inner? {
      TwoHalves(c.kids, d);
      LevelAllAppend(c.kids[..d], c.kids[d..2 * d], k - 1);
    }
  }

  /** Both halves are valid nodes of the old height. */
  lemma HalvesValid(c: Tree, d: nat, q: int, h: nat)
    requires d >= 2 && Full(c, d) && Seps(c) && Balanced(c, h) && Occupied(c, d)
    ensures var l, r := LeftHalf(c, d), RightHalf(c, d, q);
            Balanced(l, h) && Balanced(r, h) && Occupied(l, d) && Occupied(r, d) && Seps(l) && Seps(r)
  {
    var l, r := LeftHalf(c, d), RightHalf(c, d, q);
    if c.Inner? {
      assert forall i :: 0 <= i < |l.kids| ==> l.kids[i] == c.kids[i];
      assert forall i :: 0 <= i < |r.kids| ==> r.kids[i] == c.kids[d + i];
    }
  }

  /** The middle key is the largest on the left; the largest key overall stays. */
  lemma HalvesLast(c: Tree, d: nat, q: int)
    requires d >= 2 && Full(c, d) && Seps(c) && Seps(LeftHalf(c, d)) && Seps(RightHalf(c, d, q))
    ensures var l, r := LeftHalf(c, d), RightHalf(c, d, q);
            && Elems(l) != [] && Elems(r) != [] && Elems(c) != []
            && MiddleKey(c, d) == LastKey(Elems(l))
            && LastKey(Elems(r)) == LastKey(Elems(c))
  {
    SepsNonEmpty(LeftHalf(c, d));
    SepsNonEmpty(RightHalf(c, d, q));
    HalvesElems(c, d, q);
  }

  lemma HalvesDistinct(c: Tree, d: nat, q: int)
    requires d >= 2 && Full(c, d) && Seps(c) && Distinct(c) && q !in Offs(c)
    ensures Distinct(LeftHalf(c, d)) && Distinct(RightHalf(c, d, q))
    ensures Offs(LeftHalf(c, d)) !! Offs(RightHalf(c, d, q))
    ensures Offs(LeftHalf(c, d)) + Offs(RightHalf(c, d, q)) == Offs(c) + {q}
  {
    if c.Inner? {
      assert c.kids == c.kids[..d] + c.kids[d..2 * d];
      DistinctAllAppend(c.kids[..d], c.kids[d..2 * d]);
      OffsAllAppend(c.kids[..d], c.kids[d..2 * d]);
    }
  }

  /** A row of trees in which the one at `n` gives way to two. */
  ghost function TwoForOne(ts: seq<Tree>, n: nat, l: Tree, r: Tree): seq<Tree>
    requires n < |ts|
  {
    ts[..n] + ([l] + ([r] + ts[n + 1..]))
  }

  lemma TwoForOneElems(ts: seq<Tree>, n: nat, l: Tree, r: Tree)
    requires n < |ts|
    ensures ElemsAll(TwoForOne(ts, n, l, r)) == ElemsAll(ts[..n]) + (Elems(l) + Elems(r)) + ElemsAll(ts[n + 1..])
  {
    var b := ts[n + 1..];
    ElemsAllAppend(ts[..n], [l] + ([r] + b));
    assert ([l] + ([r] + b))[1..] == [r] + b;
    assert ([r] + b)[1..] == b;
  }

  lemma TwoForOneLevel(ts: seq<Tree>, n: nat, l: Tree, r: Tree, k: nat)
    requires n < |ts|
    ensures LevelAll(TwoForOne(ts, n, l, r), k)
         == LevelAll(ts[..n], k) + (Level(l, k) + Level(r, k)) + LevelAll(ts[n + 1..], k)
  {
    var b := ts[n + 1..];
    LevelAllAppend(ts[..n], [l] + ([r] + b), k);
    assert ([l] + ([r] + b))[1..] == [r] + b;
    assert ([r] + b)[1..] == b;
  }

  lemma TwoForOneDistinct(ts: seq<Tree>, n: nat, l: Tree, r: Tree)
    requires n < |ts| && DistinctAll(ts) && Distinct(l) && Distinct(r) && Offs(l) !! Offs(r)
    requires (Offs(l) + Offs(r)) !! (OffsAll(ts) - Offs(ts[n]))
    ensures DistinctAll(TwoForOne(ts, n, l, r))
    ensures OffsAll(TwoForOne(ts, n, l, r)) == OffsAll(ts) - Offs(ts[n]) + Offs(l) + Offs(r)
  {
    var a, b := ts[..n], ts[n + 1..];
    CutOffs(ts, n);
    CutDistinct(ts, n);
    var m := [l] + ([r] + b);
    assert m[1..] == [r] + b;
    assert ([r] + b)[1..] == b;
    DistinctAllAppend(a, m);
    OffsAllAppend(a, m);
  }

  /** Splitting a child changes neither the contents of its parent ... */
  lemma SplitKidElems(u: Tree, n: nat, d: nat, q: int)
    requires CanSplit(u, n, d) && Seps(u)
    ensures Elems(SplitKid(u, n, d, q)) == Elems(u)
  {
    var c := u.kids[n];
    HalvesElems(c, d, q);
    TwoForOneElems(u.kids, n, LeftHalf(c, d), RightHalf(c, d, q));
    CutElems(u.kids, n);
  }

  lemma SplitKidParts(u: Tree, n: nat, d: nat, q: int)
    requires CanSplit(u, n, d)
    ensures var u', c := SplitKid(u, n, d, q), u.kids[n];
            && |u'.kids| == |u.kids| + 1 && |u'.keys| == |u.keys| + 1
            && u'.kids[n] == LeftHalf(c, d) && u'.kids[n + 1] == RightHalf(c, d, q) && u'.keys[n] == MiddleKey(c, d)
            && (forall i :: 0 <= i < |u'.kids| && i != n && i != n + 1 ==> u'.kids[i] == u.kids[if i < n then i else i - 1])
            && (forall i :: 0 <= i < |u'.keys| && i != n ==> u'.keys[i] == u.keys[if i < n then i else i - 1])
  {
  }

  /** ... nor its height and the occupancy below it ... */
  lemma SplitKidValid(u: Tree, n: nat, d: nat, q: int, h: nat)
    requires CanSplit(u, n, d) && Seps(u) && Balanced(u, h)
    requires forall i :: 0 <= i < |u.kids| ==> Occupied(u.kids[i], d)
    ensures var u' := SplitKid(u, n, d, q);
            && Balanced(u', h) && Count(u') == Count(u) + 1
            && (forall i :: 0 <= i < |u'.kids| ==> Occupied(u'.kids[i], d))
  {
    HalvesValid(u.kids[n], d, q, h - 1);
    SplitKidParts(u, n, d, q);
  }

  /** ... nor what its separators mean. */
  lemma SplitKidSeps(u: Tree, n: nat, d: nat, q: int, h: nat)
    requires CanSplit(u, n, d) && Seps(u) && Balanced(u, h) && Occupied(u.kids[n], d)
    ensures Seps(SplitKid(u, n, d, q))
  {
    var u', c := SplitKid(u, n, d, q), u.kids[n];
    HalvesValid(c, d, q, h - 1);
    HalvesLast(c, d, q);
    SplitKidParts(u, n, d, q);
    forall i | 0 <= i < |u'.kids| ensures Seps(u'.kids[i]) && Elems(u'.kids[i]) != [] {
      if i != n && i != n + 1 { assert u'.kids[i] == u.kids[if i < n then i else i - 1]; }
    }
    forall i | 0 <= i < |u'.keys| ensures u'.keys[i] == LastKey(Elems(u'.kids[i])) {
      if i == n + 1 {
        assert u'.keys[i] == u.keys[n];
      } else if i != n {
        assert u'.keys[i] == u.keys[if i < n then i else i - 1];
      }
    }
  }

  lemma SplitKidDistinct(u: Tree, n: nat, d: nat, q: int)
    requires CanSplit(u, n, d) && Seps(u) && Distinct(u) && q !in Offs(u)
    ensures Distinct(SplitKid(u, n, d, q))
    ensures Offs(SplitKid(u, n, d, q)) == Offs(u) + {q}
  {
    var c := u.kids[n];
    CutOffs(u.kids, n);
    CutDistinct(u.kids, n);
    HalvesDistinct(c, d, q);
    TwoForOneDistinct(u.kids, n, LeftHalf(c, d), RightHalf(c, d, q));
  }

  /** The new block appears right after the split one ... */
  lemma SplitKidLevel(u: Tree, n: nat, d: nat, q: int)
    requires CanSplit(u, n, d)
    ensures Level(SplitKid(u, n, d, q), 1)
         == LevelAll(u.kids[..n], 0) + [u.kids[n].off, q] + LevelAll(u.kids[n + 1..], 0)
    ensures Level(u, 1) == LevelAll(u.kids[..n], 0) + [u.kids[n].off] + LevelAll(u.kids[n + 1..], 0)
  {
    var c := u.kids[n];
    TwoForOneLevel(u.kids, n, LeftHalf(c, d), RightHalf(c, d, q), 0);
    CutLevel(u.kids, n, 0);
  }

  /** ... and no other level moves. */
  lemma SplitKidLevelBelow(u: Tree, n: nat, d: nat, q: int, k: nat)
    requires CanSplit(u, n, d) && Seps(u) && k >= 2
    ensures Level(SplitKid(u, n, d, q), k) == Level(u, k)
  {
    var c := u.kids[n];
    HalvesLevel(c, d, q, k - 1);
    TwoForOneLevel(u.kids, n, LeftHalf(c, d), RightHalf(c, d, q), k - 1);
    CutLevel(u.kids, n, k - 1);
  }

  /** Splitting anywhere in an index keeps it well-formed and keeps its contents. */
  lemma SplitStep(t: Tree, p: Path, n: nat, q: int, h: nat, d: nat)
    requires WellFormed(t, h, d) && IsPath(t, p)
    requires CanSplit(Sub(t, p), n, d) && !Full(Sub(t, p), d) && q !in Offs(t)
    ensures var t' := Replace(t, p, SplitKid(Sub(t, p), n, d, q));
            WellFormed(t', h, d) && Elems(t') == Elems(t) && Offs(t') == Offs(t) + {q}
  {
    var u := Sub(t, p);
    SubInvariants(t, p, h, d);
    SubOffs(t, p);
    SplitKidElems(u, n, d, q);
    SplitKidValid(u, n, d, q, h - |p|);
    SplitKidSeps(u, n, d, q, h - |p|);
    SplitKidDistinct(u, n, d, q);
    SepsNonEmpty(u);
    var u' := SplitKid(u, n, d, q);
    SubElems(t, p);
    ReplaceElems(t, p, u');
    ReplaceBalanced(t, p, u', h);
    ReplaceRootOccupied(t, p, u', d);
    ReplaceSeps(t, p, u');
    ReplaceDistinct(t, p, u');
  }

  /** A node that only points at the old root, as a root is before the split. */
  lemma Lone(t: Tree, top: int, h: nat)
    requires Seps(t) && Balanced(t, h) && Distinct(t) && top !in Offs(t)
    ensures var u := Inner(top, [], [t]);
            && Seps(u) && Balanced(u, h + 1) && Distinct(u)
            && Elems(u) == Elems(t) && Offs(u) == Offs(t) + {top}
            && (forall k: nat :: Level(u, k + 1) == Level(t, k))
  {
    var u := Inner(top, [], [t]);
    SepsNonEmpty(t);
    assert [t][1..] == [];
    assert ElemsAll([t]) == Elems(t) + ElemsAll([]);
    assert OffsAll([t]) == Offs(t);
    forall k: nat ensures Level(u, k + 1) == Level(t, k) {
      assert LevelAll([t], k) == Level(t, k) + LevelAll([], k);
    }
  }

  /** A full root gets a new root above it: one level more, the same contents. */
  lemma GrowStep(t: Tree, top: int, q: int, h: nat, d: nat)
    requires WellFormed(t, h, d) && Full(t, d)
    requires top !in Offs(t) && q !in Offs(t) && top != q
    ensures CanSplit(Inner(top, [], [t]), 0, d)
    ensures var t' := SplitKid(Inner(top, [], [t]), 0, d, q);
            WellFormed(t', h + 1, d) && Elems(t') == Elems(t) && Offs(t') == Offs(t) + {top, q}
  {
    var u := Inner(top, [], [t]);
    Lone(t, top, h);
    SplitKidElems(u, 0, d, q);
    SplitKidValid(u, 0, d, q, h + 1);
    SplitKidSeps(u, 0, d, q, h + 1);
    SplitKidDistinct(u, 0, d, q);
    assert Offs(u) + {q} == Offs(t) + {top, q};
  }

  /** The grown root has one key and two children with room. */
  lemma GrownRoot(t: Tree, top: int, q: int, d: nat)
    requires CanSplit(Inner(top, [], [t]), 0, d)
    ensures var t' := SplitKid(Inner(top, [], [t]), 0, d, q);
            && t'.off == top && |t'.keys| == 1 && |t'.kids| == 2
            && !Full(t'.kids[0], d) && !Full(t'.kids[1], d)
  {
    SplitKidParts(Inner(top, [], [t]), 0, d, q);
  }

  // ---------------------------------------------------------- the leaf insert

  /** Number of leading elements that stay left of a new key: those not larger. */
  ghost function InsertPos(es: seq<Elem>, k: Key): (r: nat)
    ensures r <= |es|
    ensures forall i :: r <= i < |es| ==> es[i].key > k
    ensures r > 0 ==> es[r - 1].key <= k
  {
    if es == [] then 0
    else if es[|es| - 1].key > k then InsertPos(es[..|es| - 1], k)
    else |es|
  }

  ghost function InsertInto(es: seq<Elem>, e: Elem): seq<Elem> {
    es[..InsertPos(es, e.key)] + [e] + es[InsertPos(es, e.key)..]
  }

  /** The element belongs between what is left and what is right of the node. */
  ghost predicate Belongs(t: Tree, p: Path, k: Key)
    requires IsPath(t, p)
  {
    && (forall x :: x in Pre(t, p) ==> x.key <= k)
    && (forall x :: x in Post(t, p) ==> k <= x.key)
    && (Post(t, p) != [] ==> Elems(Sub(t, p)) != [] && k <= LastKey(Elems(Sub(t, p))))
  }

  /** Inserting into the leaf a key belongs to adds one element and breaks nothing. */
  lemma LeafStep(t: Tree, p: Path, e: Elem, h: nat, d: nat)
    requires WellFormed(t, h, d) && IsPath(t, p) && Sub(t, p).Leaf? && !Full(Sub(t, p), d)
    requires Belongs(t, p, e.key)
    ensures var t' := Replace(t, p, Leaf(Sub(t, p).off, InsertInto(Sub(t, p).elems, e)));
            && WellFormed(t', h, d) && multiset(Elems(t')) == multiset(Elems(t)) + multiset{e}
            && Offs(t') == Offs(t)
  {
    var s := Sub(t, p);
    var s' := Leaf(s.off, InsertInto(s.elems, e));
    var t' := Replace(t, p, s');
    SubInvariants(t, p, h, d);
    InsertIntoContents(s.elems, e);
    assert Balanced(t', h) by { ReplaceBalanced(t, p, s', h); }
    assert RootOccupied(t', d) by { ReplaceRootOccupied(t, p, s', d); }
    assert Seps(t') by { ReplaceSeps(t, p, s'); }
    assert Distinct(t') && Offs(t') == Offs(t) by {
      SubOffs(t, p);
      ReplaceDistinct(t, p, s');
    }
    SubElems(t, p);
    ReplaceElems(t, p, s');
    InsertSorted(Pre(t, p), s.elems, Post(t, p), e);
  }

  lemma InsertIntoContents(es: seq<Elem>, e: Elem)
    ensures multiset(InsertInto(es, e)) == multiset(es) + multiset{e}
    ensures es != [] && e.key <= LastKey(es) ==> LastKey(InsertInto(es, e)) == LastKey(es)
  {
    assert es == es[..InsertPos(es, e.key)] + es[InsertPos(es, e.key)..];
  }

  /** Replacing a leaf in its own block moves no level. */
  lemma LeafLevels(t: Tree, p: Path, s: Tree, k: nat)
    requires IsPath(t, p) && Sub(t, p).Leaf? && s.Leaf? && s.off == Sub(t, p).off
    ensures Level(Replace(t, p, s), k) == Level(t, k)
  {
    if k <= |p| {
      ReplaceLevelAbove(t, p, s, k);
    } else {
      ReplaceLevel(t, p, s, k - |p|);
      SubLevel(t, p, k - |p|);
    }
  }

  lemma InsertSorted(a: seq<Elem>, es: seq<Elem>, b: seq<Elem>, e: Elem)
    requires Sorted(a + es + b)
    requires forall x :: x in a ==> x.key <= e.key
    requires forall x :: x in b ==> e.key <= x.key
    ensures Sorted(a + InsertInto(es, e) + b)
  {
    var r := InsertPos(es, e.key);
    SortedPart(a, es, b);
    var x, y := a + es[..r], es[r..] + b;
    assert a + es + b == x + y;
    assert a + InsertInto(es, e) + b == x + [e] + y;
    forall i | 0 <= i < |x| ensures x[i].key <= e.key {
      if i < |a| { assert x[i] in a; }
    }
    forall i | 0 <= i < |y| ensures e.key <= y[i].key {
      if i >= |es| - r { assert y[i] in b; }
    }
    SqueezeSorted(x, y, e);
  }

  lemma SqueezeSorted(x: seq<Elem>, y: seq<Elem>, e: Elem)
    requires Sorted(x + y)
    requires forall i :: 0 <= i < |x| ==> x[i].key <= e.key
    requires forall i :: 0 <= i < |y| ==> e.key <= y[i].key
    ensures Sorted(x + [e] + y)
  {
    var s, w := x + [e] + y, x + y;
    forall i, j | 0 <= i < j < |s| ensures s[i].key <= s[j].key {
      if j < |x| {
        assert s[i] == w[i] && s[j] == w[j];
      } else if i > |x| {
        assert s[i] == w[i - 1] && s[j] == w[j - 1];
      }
    }
  }

  lemma SortedPart(a: seq<Elem>, es: seq<Elem>, b: seq<Elem>)
    requires Sorted(a + es + b)
    ensures Sorted(es)
  {
    var s := a + es + b;
    forall i, j | 0 <= i < j < |es| ensures es[i].key <= es[j].key {
      assert s[|a| + i] == es[i] && s[|a| + j] == es[j];
    }
  }

  lemma SortedAcross(a: seq<Elem>, b: seq<Elem>)
    requires Sorted(a + b)
    ensures forall x, y :: x in a && y in b ==> x.key <= y.key
    ensures a != [] ==> forall x :: x in a ==> x.key <= LastKey(a)
  {
    var s := a + b;
    forall x, y | x in a && y in b ensures x.key <= y.key {
      var i :| 0 <= i < |a| && a[i] == x;
      var j :| 0 <= j < |b| && b[j] == y;
      assert s[i] == x && s[|a| + j] == y;
    }
    forall x | x in a ensures a != [] ==> x.key <= LastKey(a) {
      var i :| 0 <= i < |a| && a[i] == x;
      assert s[i] == x && s[|a| - 1] == a[|a| - 1];
    }
  }

  /** The elements of an inner node around child `c` respect its separators. */
  lemma SeparatorsHold(u: Tree, c: nat)
    requires u.Inner? && Seps(u) && Sorted(Elems(u)) && c < |u.kids|
    ensures Elems(u) == ElemsAll(u.kids[..c]) + Elems(u.kids[c]) + ElemsAll(u.kids[c + 1..])
    ensures c > 0 ==> forall x :: x in ElemsAll(u.kids[..c]) ==> x.key <= u.keys[c - 1]
    ensures c > 0 ==> forall x :: x in Elems(u.kids[c]) ==> u.keys[c - 1] <= x.key
    ensures c < |u.keys| ==> forall x :: x in ElemsAll(u.kids[c + 1..]) ==> u.keys[c] <= x.key
  {
    var a, m, b := ElemsAll(u.kids[..c]), Elems(u.kids[c]), ElemsAll(u.kids[c + 1..]);
    CutElems(u.kids, c);
    SortedAcross(a + m, b);
    assert a + m + b == a + (m + b);
    SortedAcross(a, m + b);
    assert LastKey(m) == LastKey(a + m) && (a + m)[|a + m| - 1] in a + m;
    if c > 0 {
      LastOfRow(u.kids[..c]);
      assert LastKey(a) == u.keys[c - 1];
      assert a[|a| - 1] in a;
      assert forall x :: x in m ==> x in m + b;
    }
  }

  /** Choosing the child by its separators leads to where the key belongs. */
  lemma DescendStep(t: Tree, p: Path, c: nat, k: Key, h: nat, d: nat)
    requires WellFormed(t, h, d) && IsPath(t, p) && Belongs(t, p, k)
    requires Sub(t, p).Inner? && c <= |Sub(t, p).keys| < |Sub(t, p).kids|
    requires c > 0 ==> Sub(t, p).keys[c - 1] <= k
    requires c < |Sub(t, p).keys| ==> k <= Sub(t, p).keys[c]
    ensures IsPath(t, p + [c]) && Belongs(t, p + [c], k)
  {
    var u := Sub(t, p);
    SubInvariants(t, p, h, d);
    SubElems(t, p);
    SortedPart(Pre(t, p), Elems(u), Post(t, p));
    PathStep(t, p, c);
    SeparatorsHold(u, c);
    if c == |u.keys| {
      SepsNonEmpty(u);
      assert u.kids[c + 1..] == [];
    }
  }

  /** The half that the middle key says is bounded by the parent's new separators. */
  lemma HalfKeys(u: Tree, n: nat, d: nat, q: int, c: nat, k: Key)
    requires CanSplit(u, n, d)
    requires n > 0 ==> u.keys[n - 1] <= k
    requires n < |u.keys| ==> k <= u.keys[n]
    requires c == if MiddleKey(u.kids[n], d) < k then n + 1 else n
    ensures var u' := SplitKid(u, n, d, q);
            && c <= |u'.keys| < |u'.kids|
            && (c > 0 ==> u'.keys[c - 1] <= k)
            && (c < |u'.keys| ==> k <= u'.keys[c])
            && !Full(u'.kids[c], d)
  {
    SplitKidParts(u, n, d, q);
    var u' := SplitKid(u, n, d, q);
    if c == n {
      if n > 0 { assert u'.keys[n - 1] == u.keys[n - 1]; }
    } else if n + 1 < |u'.keys| {
      assert u'.keys[n + 1] == u.keys[n];
    }
  }

  lemma SplitBelongs(t: Tree, p: Path, n: nat, q: int, k: Key, d: nat)
    requires IsPath(t, p) && Belongs(t, p, k) && CanSplit(Sub(t, p), n, d) && Seps(Sub(t, p))
    ensures var t' := Replace(t, p, SplitKid(Sub(t, p), n, d, q));
            IsPath(t', p) && Belongs(t', p, k) && Sub(t', p) == SplitKid(Sub(t, p), n, d, q)
  {
    ReplaceSurroundings(t, p, SplitKid(Sub(t, p), n, d, q));
    SplitKidElems(Sub(t, p), n, d, q);
  }

  /** After a split the element belongs to the half its middle key says. */
  lemma ChooseHalf(t: Tree, p: Path, n: nat, q: int, k: Key, h: nat, d: nat, c: nat)
    requires IsPath(t, p) && Belongs(t, p, k) && CanSplit(Sub(t, p), n, d) && Seps(Sub(t, p))
    requires n > 0 ==> Sub(t, p).keys[n - 1] <= k
    requires n < |Sub(t, p).keys| ==> k <= Sub(t, p).keys[n]
    requires c == if MiddleKey(Sub(t, p).kids[n], d) < k then n + 1 else n
    requires WellFormed(Replace(t, p, SplitKid(Sub(t, p), n, d, q)), h, d)
    ensures var t' := Replace(t, p, SplitKid(Sub(t, p), n, d, q));
            && IsPath(t', p) && IsPath(t', p + [c]) && Belongs(t', p + [c], k) && !Full(Sub(t', p + [c]), d)
            && Sub(t', p) == SplitKid(Sub(t, p), n, d, q) && c < |Sub(t', p).kids|
            && Sub(t', p + [c]) == Sub(t', p).kids[c]
  {
    var t' := Replace(t, p, SplitKid(Sub(t, p), n, d, q));
    SplitBelongs(t, p, n, q, k, d);
    HalfKeys(Sub(t, p), n, d, q, c, k);
    DescendStep(t', p, c, k, h, d);
    PathStep(t', p, c);
  }
}

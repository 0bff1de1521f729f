/**
 Rebalancing by borrowing: a key goes through the parent from one sibling to the
 other.  Between inner nodes this is a correct rotation; between leaves the
 element that moves is a separator, which has no row.
 */
module IndexBorrow {
  import opened Prelude
  import opened IndexShape

  /** Two neighbouring children and the separator between them. */
  datatype Pair = Pair(l: Tree, key: Key, r: Tree)

  /** An inner node's key read as an element: it has no block and no row. */
  function Bare(k: Key): Elem { Elem(k, 0, 0) }

  predicate SameKind(p: Pair) {
    (p.l.Leaf? && p.r.Leaf?) || (p.l.Inner? && p.r.Inner?)
  }

  /** `borrow_from_prev`: the last entry of the left node moves to the front of the right one. */
  function FromPrev(p: Pair): Pair
    requires SameKind(p) && Count(p.l) > 0 && (p.l.Inner? ==> |p.l.kids| == |p.l.keys| + 1)
  {
    var m := Count(p.l);
    match p.l
    case Leaf(off, es) =>
      Pair(Leaf(off, es[..m - 1]), es[m - 1].key, Leaf(p.r.off, [Bare(p.key)] + p.r.elems))
    case Inner(off, keys, kids) =>
      Pair(Inner(off, keys[..m - 1], kids[..m]), keys[m - 1],
           Inner(p.r.off, [p.key] + p.r.keys, [kids[m]] + p.r.kids))
  }

  /** `borrow_from_next`: the first entry of the right node moves to the end of the left one. */
  function FromNext(p: Pair): Pair
    requires SameKind(p) && Count(p.r) > 0 && (p.r.Inner? ==> |p.r.kids| == |p.r.keys| + 1)
  {
    match p.r
    case Leaf(off, es) =>
      Pair(Leaf(p.l.off, p.l.elems + [Bare(p.key)]), es[0].key, Leaf(off, es[1..]))
    case Inner(off, keys, kids) =>
      Pair(Inner(p.l.off, p.l.keys + [p.key], p.l.kids + [kids[0]]), keys[0], Inner(off, keys[1..], kids[1..]))
  }

  /** The pair as a subtree of height `h`, its separator being the largest key on the left. */
  ghost predicate Ordered(p: Pair, h: nat) {
    Balanced(p.l, h) && Balanced(p.r, h) && Seps(p.l) && Seps(p.r) && Elems(p.l) != [] && p.key == LastKey(Elems(p.l))
  }

  function PairElems(p: Pair): seq<Elem> { Elems(p.l) + Elems(p.r) }
  function PairLevel(p: Pair, k: nat): seq<int> { Level(p.l, k) + Level(p.r, k) }

  // ---------------------------------------------------- between inner nodes

  lemma LastKid(t: Tree)
    requires t.Inner? && |t.kids| == |t.keys| + 1
    ensures var m := |t.keys|;
            ElemsAll(t.kids) == ElemsAll(t.kids[..m]) + Elems(t.kids[m])
            && forall k: nat :: LevelAll(t.kids, k) == LevelAll(t.kids[..m], k) + Level(t.kids[m], k)
  {
    var m := |t.keys|;
    assert t.kids[m + 1..] == [];
    CutElems(t.kids, m);
    forall k: nat ensures LevelAll(t.kids, k) == LevelAll(t.kids[..m], k) + Level(t.kids[m], k) { CutLevel(t.kids, m, k); }
  }

  /** The rotation to the right keeps elements, their order, and the order of the nodes below. */
  lemma FromPrevKeeps(p: Pair, k: nat)
    requires p.l.Inner? && p.r.Inner? && Seps(p.l) && Seps(p.r) && |p.l.keys| > 0
    ensures PairElems(FromPrev(p)) == PairElems(p) && PairLevel(FromPrev(p), k + 1) == PairLevel(p, k + 1)
  {
    var q, m := FromPrev(p), |p.l.keys|;
    LastKid(p.l);
    assert q.r.kids[0] == p.l.kids[m] && q.r.kids[1..] == p.r.kids;
    assert Elems(q.r) == Elems(p.l.kids[m]) + ElemsAll(p.r.kids);
    assert Level(q.r, k + 1) == Level(p.l.kids[m], k) + LevelAll(p.r.kids, k);
    assert Elems(q.l) == ElemsAll(p.l.kids[..m]) && Level(q.l, k + 1) == LevelAll(p.l.kids[..m], k);
    assert Elems(p.l) == ElemsAll(p.l.kids) && Level(p.l, k + 1) == LevelAll(p.l.kids, k);
    assert Elems(p.r) == ElemsAll(p.r.kids) && Level(p.r, k + 1) == LevelAll(p.r.kids, k);
    Assoc(ElemsAll(p.l.kids[..m]), Elems(p.l.kids[m]), ElemsAll(p.r.kids));
    Assoc(LevelAll(p.l.kids[..m], k), Level(p.l.kids[m], k), LevelAll(p.r.kids, k));
  }

  lemma FromPrevOrdered(p: Pair, h: nat)
    requires p.l.Inner? && p.r.Inner? && Ordered(p, h) && |p.l.keys| > 0
    ensures Ordered(FromPrev(p), h)
  {
    var q, m := FromPrev(p), |p.l.keys|;
    SepsNonEmpty(p.l);
    forall i | 0 <= i < |q.r.kids|
      ensures Balanced(q.r.kids[i], h - 1) && Seps(q.r.kids[i]) && Elems(q.r.kids[i]) != []
           && (i < |q.r.keys| ==> q.r.keys[i] == LastKey(Elems(q.r.kids[i])))
    {
      if i > 0 { assert q.r.kids[i] == p.r.kids[i - 1]; }
    }
    forall i | 0 <= i < |q.l.kids|
      ensures Balanced(q.l.kids[i], h - 1) && Seps(q.l.kids[i]) && Elems(q.l.kids[i]) != []
           && (i < |q.l.keys| ==> q.l.keys[i] == LastKey(Elems(q.l.kids[i])))
    {
      assert q.l.kids[i] == p.l.kids[i];
    }
    SepsNonEmpty(q.l);
  }

  /** The rotation to the left does the same. */
  lemma FromNextKeeps(p: Pair, k: nat)
    requires p.l.Inner? && p.r.Inner? && Seps(p.l) && Seps(p.r) && |p.r.keys| > 0
    ensures PairElems(FromNext(p)) == PairElems(p) && PairLevel(FromNext(p), k + 1) == PairLevel(p, k + 1)
  {
    var q, x := FromNext(p), p.r.kids[0];
    assert q.r.Inner? && q.r.kids == p.r.kids[1..] && q.l.Inner? && q.l.kids == p.l.kids + [x];
    assert k + 1 != 0 && Level(q.r, k + 1) == LevelAll(q.r.kids, k) && Level(p.r, k + 1) == LevelAll(p.r.kids, k);
    assert LevelAll(p.r.kids, k) == Level(x, k) + LevelAll(p.r.kids[1..], k);
    assert Elems(p.r) == Elems(x) + ElemsAll(p.r.kids[1..]) && Level(p.r, k + 1) == Level(x, k) + LevelAll(p.r.kids[1..], k);
    assert Elems(q.l) == ElemsAll(p.l.kids + [x]) && Level(q.l, k + 1) == LevelAll(p.l.kids + [x], k);
    assert Elems(q.r) == ElemsAll(p.r.kids[1..]) && Level(q.r, k + 1) == LevelAll(p.r.kids[1..], k);
    assert Elems(p.l) == ElemsAll(p.l.kids) && Level(p.l, k + 1) == LevelAll(p.l.kids, k);
    ElemsAllAppend(p.l.kids, [x]);
    LevelAllAppend(p.l.kids, [x], k);
    assert [x][1..] == [];
    assert ElemsAll([x]) == Elems(x) + [] && LevelAll([x], k) == Level(x, k) + [];
    Assoc(ElemsAll(p.l.kids), Elems(x), ElemsAll(p.r.kids[1..]));
    Assoc(LevelAll(p.l.kids, k), Level(x, k), LevelAll(p.r.kids[1..], k));
  }

  lemma FromNextOrdered(p: Pair, h: nat)
    requires p.l.Inner? && p.r.Inner? && Ordered(p, h) && |p.r.keys| > 0
    ensures Ordered(FromNext(p), h)
  {
    var q := FromNext(p);
    SepsNonEmpty(p.l);
    forall i | 0 <= i < |q.l.kids|
      ensures Balanced(q.l.kids[i], h - 1) && Seps(q.l.kids[i]) && Elems(q.l.kids[i]) != []
           && (i < |q.l.keys| ==> q.l.keys[i] == LastKey(Elems(q.l.kids[i])))
    {
      if i < |p.l.kids| { assert q.l.kids[i] == p.l.kids[i]; }
    }
    forall i | 0 <= i < |q.r.kids|
      ensures Balanced(q.r.kids[i], h - 1) && Seps(q.r.kids[i]) && Elems(q.r.kids[i]) != []
           && (i < |q.r.keys| ==> q.r.keys[i] == LastKey(Elems(q.r.kids[i])))
    {
      assert q.r.kids[i] == p.r.kids[i + 1];
    }
    SepsNonEmpty(q.l);
  }

  // --------------------------------------------------------- in their parent

  /** The parent with the two children around key `i` replaced. */
  function InParent(u: Tree, i: nat, p: Pair): Tree
    requires u.Inner? && i < |u.keys| && i + 1 < |u.kids|
  {
    Inner(u.off, u.keys[i := p.key], u.kids[i := p.l][i + 1 := p.r])
  }

  function PairAt(u: Tree, i: nat): Pair
    requires u.Inner? && i < |u.keys| && i + 1 < |u.kids|
  {
    Pair(u.kids[i], u.keys[i], u.kids[i + 1])
  }

  /** A pair that keeps its elements and its last key can stand in for the old one. */
  lemma ParentKeeps(u: Tree, i: nat, p: Pair, h: nat)
    requires u.Inner? && Balanced(u, h) && Seps(u) && i < |u.keys|
    requires h > 0 && Ordered(p, h - 1) && PairElems(p) == PairElems(PairAt(u, i))
    ensures Balanced(InParent(u, i, p), h) && Seps(InParent(u, i, p)) && Elems(InParent(u, i, p)) == Elems(u)
  {
    var v := InParent(u, i, p);
    SepsNonEmpty(p.r);
    SepsNonEmpty(u.kids[i + 1]);
    assert LastKey(PairElems(p)) == LastKey(Elems(p.r));
    assert LastKey(PairElems(PairAt(u, i))) == LastKey(Elems(u.kids[i + 1]));
    forall j | 0 <= j < |v.kids|
      ensures Balanced(v.kids[j], h - 1) && Seps(v.kids[j]) && Elems(v.kids[j]) != []
           && (j < |v.keys| ==> v.keys[j] == LastKey(Elems(v.kids[j])))
    {
      if j != i && j != i + 1 { assert v.kids[j] == u.kids[j]; }
    }
    ParentElems(u, i, p);
  }

  lemma ParentElems(u: Tree, i: nat, p: Pair)
    requires u.Inner? && |u.kids| == |u.keys| + 1 && i < |u.keys|
    ensures Elems(u) == ElemsAll(u.kids[..i]) + PairElems(PairAt(u, i)) + ElemsAll(u.kids[i + 2..])
    ensures Elems(InParent(u, i, p)) == ElemsAll(u.kids[..i]) + PairElems(p) + ElemsAll(u.kids[i + 2..])
  {
    TwoKids(u.kids, i);
    var kids := InParent(u, i, p).kids;
    TwoKids(kids, i);
    assert kids[..i] == u.kids[..i] && kids[i + 2..] == u.kids[i + 2..];
  }

  lemma TwoKids(ts: seq<Tree>, i: nat)
    requires i + 1 < |ts|
    ensures ElemsAll(ts) == ElemsAll(ts[..i]) + (Elems(ts[i]) + Elems(ts[i + 1])) + ElemsAll(ts[i + 2..])
  {
    CutElems(ts, i);
    CutElems(ts[i + 1..], 0);
    assert ts[i + 1..][..0] == [] && ts[i + 1..][1..] == ts[i + 2..];
    assert ElemsAll(ts[i + 1..]) == Elems(ts[i + 1]) + ElemsAll(ts[i + 2..]);
    Assoc(ElemsAll(ts[..i]) + Elems(ts[i]), Elems(ts[i + 1]), ElemsAll(ts[i + 2..]));
    Assoc(ElemsAll(ts[..i]), Elems(ts[i]), Elems(ts[i + 1]));
  }

  /** Borrowing between inner nodes keeps the index: every element, balance and every separator. */
  lemma InnerBorrowKeeps(u: Tree, i: nat, h: nat)
    requires u.Inner? && Balanced(u, h) && Seps(u) && i < |u.keys| && u.kids[i].Inner? && u.kids[i + 1].Inner?
    ensures Seps(u.kids[i]) && Seps(u.kids[i + 1])
    ensures |u.kids[i].keys| > 0 ==>
              (var v := InParent(u, i, FromPrev(PairAt(u, i)));
               Balanced(v, h) && Seps(v) && Elems(v) == Elems(u))
    ensures |u.kids[i + 1].keys| > 0 ==>
              (var v := InParent(u, i, FromNext(PairAt(u, i)));
               Balanced(v, h) && Seps(v) && Elems(v) == Elems(u))
  {
    var p := PairAt(u, i);
    assert Ordered(p, h - 1);
    if |u.kids[i].keys| > 0 {
      FromPrevKeeps(p, 0);
      FromPrevOrdered(p, h - 1);
      ParentKeeps(u, i, FromPrev(p), h);
    }
    if |u.kids[i + 1].keys| > 0 {
      FromNextKeeps(p, 0);
      FromNextOrdered(p, h - 1);
      ParentKeeps(u, i, FromNext(p), h);
    }
  }

  /** One node gives, the other gets. */
  lemma BorrowCounts(p: Pair)
    requires SameKind(p) && Seps(p.l) && Seps(p.r)
    ensures Count(p.l) > 0 ==> Count(FromPrev(p).l) == Count(p.l) - 1 && Count(FromPrev(p).r) == Count(p.r) + 1
    ensures Count(p.r) > 0 ==> Count(FromNext(p).l) == Count(p.l) + 1 && Count(FromNext(p).r) == Count(p.r) - 1
  {
  }

  /** The node that lacks keys and the one that can spare some are both occupied afterwards. */
  lemma BorrowOccupied(p: Pair, d: nat)
    requires d >= 2 && p.l.Inner? && p.r.Inner? && Seps(p.l) && Seps(p.r) && Occupied(p.l, d) && Occupied(p.r, d)
    ensures Count(p.l) >= d && Count(p.r) < d ==> Occupied(FromPrev(p).l, d) && Occupied(FromPrev(p).r, d)
    ensures Count(p.r) >= d && Count(p.l) < d ==> Occupied(FromNext(p).l, d) && Occupied(FromNext(p).r, d)
  {
    BorrowCounts(p);
    if Count(p.l) >= d && Count(p.r) < d {
      var q := FromPrev(p);
      assert forall i :: 0 < i < |q.r.kids| ==> q.r.kids[i] == p.r.kids[i - 1];
      assert forall i :: 0 <= i < |q.l.kids| ==> q.l.kids[i] == p.l.kids[i];
    }
    if Count(p.r) >= d && Count(p.l) < d {
      var q := FromNext(p);
      assert forall i :: 0 <= i < |q.r.kids| ==> q.r.kids[i] == p.r.kids[i + 1];
      assert forall i :: 0 <= i < |p.l.kids| ==> q.l.kids[i] == p.l.kids[i];
    }
  }

  // ----------------------------------------------------------- between leaves

  /** Between leaves the bare separator takes the place of the element that moves. */
  lemma LeafBorrowIff(u: Tree, i: nat)
    requires u.Inner? && Seps(u) && i < |u.keys| && u.kids[i].Leaf? && u.kids[i + 1].Leaf?
    ensures var es := u.kids[i].elems;
            Elems(InParent(u, i, FromPrev(PairAt(u, i)))) == Elems(u) <==> es[|es| - 1] == Bare(u.keys[i])
    ensures Elems(InParent(u, i, FromNext(PairAt(u, i)))) == Elems(u) <==> u.kids[i + 1].elems[0] == Bare(u.keys[i])
  {
    var p := PairAt(u, i);
    assert Seps(p.l) && Seps(p.r);
    var a, b := ElemsAll(u.kids[..i]), ElemsAll(u.kids[i + 2..]);
    ParentElems(u, i, FromPrev(p));
    ParentElems(u, i, FromNext(p));
    MovedRight(p.l.elems, p.r.elems, Bare(p.key));
    MovedLeft(p.l.elems, p.r.elems, Bare(p.key));
    SameMiddle(a, PairElems(FromPrev(p)), PairElems(p), b);
    SameMiddle(a, PairElems(FromNext(p)), PairElems(p), b);
  }

  lemma MovedRight(x: seq<Elem>, y: seq<Elem>, c: Elem)
    requires x != []
    ensures x[..|x| - 1] + ([c] + y) == x + y <==> x[|x| - 1] == c
    ensures |x[..|x| - 1] + ([c] + y)| == |x + y|
  {
    assert (x[..|x| - 1] + ([c] + y))[|x| - 1] == c && (x + y)[|x| - 1] == x[|x| - 1];
  }

  lemma MovedLeft(x: seq<Elem>, y: seq<Elem>, c: Elem)
    requires y != []
    ensures (x + [c]) + y[1..] == x + y <==> y[0] == c
    ensures |(x + [c]) + y[1..]| == |x + y|
  {
    assert ((x + [c]) + y[1..])[|x|] == c && (x + y)[|x|] == y[0];
  }

  lemma SameMiddle(a: seq<Elem>, x: seq<Elem>, y: seq<Elem>, b: seq<Elem>)
    ensures |x| == |y| ==> (a + x + b == a + y + b <==> x == y)
  {
    if |x| == |y| && a + x + b == a + y + b {
      assert x == (a + x + b)[|a|..|a| + |x|] && y == (a + y + b)[|a|..|a| + |y|];
    }
  }

  const DATA_HDR_SZ: int := 24

  /** Rows are stored behind the header of a data block. */
  ghost predicate Stored(es: seq<Elem>) {
    forall i :: 0 <= i < |es| ==> es[i].row >= DATA_HDR_SZ
  }

  /** So borrowing between leaves that point to stored rows, in either direction, loses one of them. */
  lemma LeafBorrowLosesRow(u: Tree, i: nat)
    requires u.Inner? && Seps(u) && i < |u.keys| && u.kids[i].Leaf? && u.kids[i + 1].Leaf?
    requires Stored(u.kids[i].elems) && Stored(u.kids[i + 1].elems)
    ensures Elems(InParent(u, i, FromPrev(PairAt(u, i)))) != Elems(u)
    ensures Elems(InParent(u, i, FromNext(PairAt(u, i)))) != Elems(u)
  {
    LeafBorrowIff(u, i);
  }

  /** Leaves with two rows and one, below a parent of degree two: where `fill` borrows. */
  function TwoAndOne(): Tree {
    Inner(65536, [2], [Leaf(0, [Elem(1, 0, 24), Elem(2, 0, 40)]), Leaf(32768, [Elem(3, 0, 56)])])
  }

  /** What is left of them when the second leaf has borrowed: the row of key 2 is gone. */
  lemma BorrowedRow()
    ensures WellFormed(TwoAndOne(), 1, 2) && Count(TwoAndOne().kids[1]) < 2 <= Count(TwoAndOne().kids[0])
    ensures Elems(TwoAndOne()) == [Elem(1, 0, 24), Elem(2, 0, 40), Elem(3, 0, 56)]
    ensures Elems(InParent(TwoAndOne(), 0, FromPrev(PairAt(TwoAndOne(), 0)))) == [Elem(1, 0, 24), Elem(2, 0, 0), Elem(3, 0, 56)]
  {
    var u := TwoAndOne();
    var v := InParent(u, 0, FromPrev(PairAt(u, 0)));
    TwoKids(u.kids, 0);
    TwoKids(v.kids, 0);
    assert u.kids[..0] == [] && u.kids[2..] == [] && v.kids[..0] == [] && v.kids[2..] == [];
    assert v.kids[0].elems == [Elem(1, 0, 24)] && v.kids[1].elems == [Elem(2, 0, 0), Elem(3, 0, 56)];
    assert Elems(u) == [Elem(1, 0, 24), Elem(2, 0, 40)] + [Elem(3, 0, 56)];
    assert Elems(v) == [Elem(1, 0, 24)] + [Elem(2, 0, 0), Elem(3, 0, 56)];
    TwoAndOneDistinct();
  }

  lemma TwoAndOneDistinct()
    ensures Distinct(TwoAndOne())
  {
    var ts := TwoAndOne().kids;
    assert ts[1..] == [Leaf(32768, [Elem(3, 0, 56)])] && ts[1..][1..] == [];
    assert OffsAll(ts[1..]) == {32768} + OffsAll([]);
    assert OffsAll(ts) == {0} + OffsAll(ts[1..]);
    assert DistinctAll(ts[1..]) by { assert DistinctAll([]); }
  }

  /** And the separator that is left behind is the largest key on its left only if that key occurs twice. */
  lemma LeafBorrowSeparator(u: Tree, i: nat)
    requires u.Inner? && Seps(u) && i < |u.keys| && u.kids[i].Leaf? && u.kids[i + 1].Leaf? && |u.kids[i].elems| >= 2
    ensures var es, v := u.kids[i].elems, InParent(u, i, FromPrev(PairAt(u, i)));
            v.keys[i] == LastKey(Elems(v.kids[i])) <==> es[|es| - 2].key == es[|es| - 1].key
  {
    var es := u.kids[i].elems;
    var v := InParent(u, i, FromPrev(PairAt(u, i)));
    assert Elems(v.kids[i]) == es[..|es| - 1];
  }
}

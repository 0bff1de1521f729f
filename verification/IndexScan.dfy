/**
 Reading an index: what a position in the leaf chain stands for, and which
 node a lookup ends in.
 */
module IndexScan {
  import opened Prelude
  import opened IndexShape
  import opened IndexPath
  import opened IndexSplit
  import opened IndexStore

  /** An iterator: an index into the element vector of the block at an offset. */
  datatype Iter = Iter(index: int, off: int)

  // ------------------------------------------------------------ the leaves

  ghost function Leaves(t: Tree): seq<Tree>
    decreases t, 1
  {
    if t.Leaf? then [t] else LeavesAll(t.kids)
  }

  ghost function LeavesAll(ts: seq<Tree>): seq<Tree>
    decreases ts, 0
  {
    if ts == [] then [] else Leaves(ts[0]) + LeavesAll(ts[1..])
  }

  /** The elements of a row of leaves, one leaf after the other. */
  ghost function Joined(ls: seq<Tree>): seq<Elem>
    requires forall i :: 0 <= i < |ls| ==> ls[i].Leaf?
  {
    if ls == [] then [] else ls[0].elems + Joined(ls[1..])
  }

  ghost predicate AllLeaves(ls: seq<Tree>) {
    forall i :: 0 <= i < |ls| ==> ls[i].Leaf? && ls[i].elems != []
  }

  lemma {:induction false} JoinedAppend(a: seq<Tree>, b: seq<Tree>)
    requires AllLeaves(a) && AllLeaves(b)
    ensures Joined(a + b) == Joined(a) + Joined(b)
  {
    if a == [] {
      assert a + b == b;
    } else {
      JoinedAppend(a[1..], b);
      assert (a + b)[0] == a[0] && (a + b)[1..] == a[1..] + b;
      Assoc(a[0].elems, Joined(a[1..]), Joined(b));
    }
  }

  /** The leaves spell the contents of the index ... */
  lemma {:induction false} LeavesElems(t: Tree)
    requires Seps(t)
    ensures AllLeaves(Leaves(t)) && Leaves(t) != [] && Joined(Leaves(t)) == Elems(t)
    decreases t, 1
  {
    if t.Leaf? {
      assert [t][1..] == [];
    } else {
      LeavesAllElems(t.kids);
    }
  }

  lemma {:induction false} LeavesAllElems(ts: seq<Tree>)
    requires forall i :: 0 <= i < |ts| ==> Seps(ts[i])
    ensures AllLeaves(LeavesAll(ts)) && (ts != [] ==> LeavesAll(ts) != []) && Joined(LeavesAll(ts)) == ElemsAll(ts)
    decreases ts, 0
  {
    if ts != [] {
      LeavesElems(ts[0]);
      LeavesAllElems(ts[1..]);
      JoinedAppend(Leaves(ts[0]), LeavesAll(ts[1..]));
    }
  }

  ghost function OffsOf(ls: seq<Tree>): seq<int> {
    seq(|ls|, i requires 0 <= i < |ls| => ls[i].off)
  }

  /** ... and lie in the order of the bottom level. */
  lemma {:induction false} LeavesLevel(t: Tree, h: nat)
    requires Balanced(t, h)
    ensures OffsOf(Leaves(t)) == Level(t, h)
    decreases t, 1
  {
    if t.Inner? {
      LeavesAllLevel(t.kids, h - 1);
    }
  }

  lemma {:induction false} LeavesAllLevel(ts: seq<Tree>, h: nat)
    requires forall i :: 0 <= i < |ts| ==> Balanced(ts[i], h)
    ensures OffsOf(LeavesAll(ts)) == LevelAll(ts, h)
    decreases ts, 0
  {
    if ts != [] {
      LeavesLevel(ts[0], h);
      LeavesAllLevel(ts[1..], h);
      assert OffsOf(LeavesAll(ts)) == OffsOf(Leaves(ts[0])) + OffsOf(LeavesAll(ts[1..]));
    }
  }

  lemma {:induction false} LeavesAllAppend(a: seq<Tree>, b: seq<Tree>)
    ensures LeavesAll(a + b) == LeavesAll(a) + LeavesAll(b)
  {
    if a == [] {
      assert a + b == b;
    } else {
      LeavesAllAppend(a[1..], b);
      assert (a + b)[0] == a[0] && (a + b)[1..] == a[1..] + b;
      Assoc(Leaves(a[0]), LeavesAll(a[1..]), LeavesAll(b));
    }
  }

  /** Every leaf is held by its block. */
  lemma {:induction false} LeavesRep(store: Store, t: Tree, hi: Option<Key>, order: nat, i: nat)
    requires Rep(store, t, hi, order) && i < |Leaves(t)|
    ensures var l := Leaves(t)[i];
            l.Leaf? && l.off in store && exists b :: Holds(store[l.off], l, b, order)
    decreases t, 1
  {
    if t.Leaf? {
      assert Holds(store[t.off], t, hi, order);
    } else {
      LeavesAllRep(store, t, t.kids, 0, hi, order, i);
    }
  }

  lemma {:induction false} LeavesAllRep(store: Store, t: Tree, ts: seq<Tree>, n: nat, hi: Option<Key>, order: nat, i: nat)
    requires t.Inner? && n <= |t.kids| && ts == t.kids[n..] && Rep(store, t, hi, order) && i < |LeavesAll(ts)|
    ensures var l := LeavesAll(ts)[i];
            l.Leaf? && l.off in store && exists b :: Holds(store[l.off], l, b, order)
    decreases ts, 0
  {
    var a := Leaves(ts[0]);
    assert ts[0] == t.kids[n];
    if i < |a| {
      LeavesRep(store, ts[0], KidBound(t, n, hi), order, i);
    } else {
      LeavesAllRep(store, t, ts[1..], n + 1, hi, order, i - |a|);
    }
  }

  // -------------------------------------------------- positions of a scan

  /** Position `j` of leaf `m`; the end is past the last element of the last leaf. */
  ghost predicate InRange(ls: seq<Tree>, m: nat, j: nat) {
    && m < |ls| && ls[m].Leaf?
    && (j < |ls[m].elems| || (m == |ls| - 1 && j == |ls[m].elems|))
  }

  /** The iterator stands before the `k`-th element. */
  ghost predicate Stands(t: Tree, it: Iter, k: nat) {
    && AllLeaves(Leaves(t))
    && exists m: nat, j: nat :: StandsAt(Leaves(t), it, k, m, j)
  }

  ghost predicate StandsAt(ls: seq<Tree>, it: Iter, k: nat, m: nat, j: nat) {
    AllLeaves(ls) && InRange(ls, m, j) && it == Iter(j, ls[m].off) && k == |Joined(ls[..m])| + j
  }

  lemma CutJoined(ls: seq<Tree>, m: nat)
    requires AllLeaves(ls) && m < |ls|
    ensures Joined(ls) == Joined(ls[..m]) + ls[m].elems + Joined(ls[m + 1..])
    ensures Joined(ls[..m + 1]) == Joined(ls[..m]) + ls[m].elems
  {
    assert ls == ls[..m] + ls[m..] && ls[m..][1..] == ls[m + 1..];
    JoinedAppend(ls[..m], ls[m..]);
    Assoc(Joined(ls[..m]), ls[m].elems, Joined(ls[m + 1..]));
    JoinedSnoc(ls[..m], ls[m]);
    assert ls[..m + 1] == ls[..m] + [ls[m]];
  }

  lemma JoinedSnoc(ls: seq<Tree>, l: Tree)
    requires AllLeaves(ls) && l.Leaf? && l.elems != []
    ensures AllLeaves(ls + [l]) && Joined(ls + [l]) == Joined(ls) + l.elems
  {
    JoinedAppend(ls, [l]);
    assert [l][1..] == [];
    assert Joined([l]) == l.elems + [];
  }

  /** The element an iterator in a leaf stands before. */
  lemma StandsElem(ls: seq<Tree>, it: Iter, k: nat, m: nat, j: nat)
    requires StandsAt(ls, it, k, m, j)
    ensures k <= |Joined(ls)|
    ensures k < |Joined(ls)| <==> j < |ls[m].elems|
    ensures k < |Joined(ls)| ==> Joined(ls)[k] == ls[m].elems[j]
  {
    CutJoined(ls, m);
    if m == |ls| - 1 { assert ls[m + 1..] == []; }
  }

  /** One step to the right, as the sibling links take it. */
  lemma StandsNext(ls: seq<Tree>, it: Iter, k: nat, m: nat, j: nat)
    requires StandsAt(ls, it, k, m, j) && k < |Joined(ls)|
    ensures if j + 1 < |ls[m].elems| || m == |ls| - 1
            then StandsAt(ls, Iter(j + 1, ls[m].off), k + 1, m, j + 1)
            else StandsAt(ls, Iter(0, ls[m + 1].off), k + 1, m + 1, 0)
  {
    StandsElem(ls, it, k, m, j);
    CutJoined(ls, m);
  }

  /** One step to the left. */
  lemma StandsPrev(ls: seq<Tree>, it: Iter, k: nat, m: nat, j: nat)
    requires StandsAt(ls, it, k, m, j) && k > 0
    ensures if j > 0
            then StandsAt(ls, Iter(j - 1, ls[m].off), k - 1, m, j - 1)
            else m > 0 && StandsAt(ls, Iter(|ls[m - 1].elems| - 1, ls[m - 1].off), k - 1, m - 1, |ls[m - 1].elems| - 1)
  {
    if j == 0 {
      assert Joined(ls[..0]) == [];
      CutJoined(ls, m - 1);
    }
  }

  // ---------------------------------------------------------- both ends

  ghost function FirstLeaf(t: Tree): Tree
    requires Seps(t)
    decreases t
  {
    if t.Leaf? then t else FirstLeaf(t.kids[0])
  }

  ghost function LastLeaf(t: Tree): Tree
    requires Seps(t)
    decreases t
  {
    if t.Leaf? then t else LastLeaf(t.kids[|t.keys|])
  }

  lemma {:induction false} EndLeaves(t: Tree)
    requires Seps(t)
    ensures Leaves(t) != []
    ensures Leaves(t)[0] == FirstLeaf(t) && Leaves(t)[|Leaves(t)| - 1] == LastLeaf(t)
    decreases t
  {
    if t.Inner? {
      var n := |t.keys|;
      EndLeaves(t.kids[0]);
      EndLeaves(t.kids[n]);
      assert t.kids == t.kids[..n] + [t.kids[n]];
      LeavesAllAppend(t.kids[..n], [t.kids[n]]);
      assert LeavesAll([t.kids[n]]) == Leaves(t.kids[n]) + LeavesAll([t.kids[n]][1..]);
    }
  }

  /** Where `tree::end` points. */
  ghost function EndIter(t: Tree): Iter
    requires Seps(t)
  {
    Iter(Count(LastLeaf(t)), LastLeaf(t).off)
  }

  lemma BeginStands(t: Tree)
    requires Seps(t)
    ensures Stands(t, Iter(0, FirstLeaf(t).off), 0)
  {
    LeavesElems(t);
    EndLeaves(t);
    assert StandsAt(Leaves(t), Iter(0, FirstLeaf(t).off), 0, 0, 0) by { assert Leaves(t)[..0] == []; }
  }

  lemma EndStands(t: Tree)
    requires Seps(t)
    ensures Stands(t, EndIter(t), |Elems(t)|)
  {
    LeavesElems(t);
    EndLeaves(t);
    var ls := Leaves(t);
    var m := |ls| - 1;
    CutJoined(ls, m);
    assert ls[m + 1..] == [];
    assert StandsAt(ls, EndIter(t), |Elems(t)|, m, |ls[m].elems|);
  }

  /** An iterator determines its position, so only the end compares equal to the end. */
  lemma StandsUnique(t: Tree, it: Iter, k: nat, k': nat)
    requires Seps(t) && Stands(t, it, k) && Stands(t, it, k') && NoDup(OffsOf(Leaves(t)))
    ensures k == k'
  {
    var ls := Leaves(t);
    var m: nat, j: nat :| StandsAt(ls, it, k, m, j);
    var m': nat, j': nat :| StandsAt(ls, it, k', m', j');
    assert OffsOf(ls)[m] == it.off && OffsOf(ls)[m'] == it.off;
  }

  lemma {:induction false} JoinedGrows(ls: seq<Tree>, m: nat, n: nat)
    requires AllLeaves(ls) && m <= n <= |ls|
    ensures |Joined(ls[..m])| <= |Joined(ls[..n])|
    decreases n - m
  {
    if m < n {
      CutJoined(ls, m);
      JoinedGrows(ls, m + 1, n);
    }
  }

  lemma StandsOrder(ls: seq<Tree>, it: Iter, it': Iter, k: nat, m: nat, j: nat, m': nat, j': nat)
    requires StandsAt(ls, it, k, m, j) && StandsAt(ls, it', k, m', j')
    ensures m >= m'
  {
    if m < m' {
      CutJoined(ls, m);
      JoinedGrows(ls, m + 1, m');
    }
  }

  /** A position determines its iterator. */
  lemma StandsCanonical(t: Tree, it: Iter, it': Iter, k: nat)
    requires Stands(t, it, k) && Stands(t, it', k)
    ensures it == it'
  {
    var ls := Leaves(t);
    var m: nat, j: nat :| StandsAt(ls, it, k, m, j);
    var m': nat, j': nat :| StandsAt(ls, it', k, m', j');
    StandsOrder(ls, it, it', k, m, j, m', j');
    StandsOrder(ls, it', it, k, m', j', m, j);
  }

  // ------------------------------------------------------------- lookups

  ghost predicate HasKey(es: seq<Elem>, k: Key) {
    exists i :: 0 <= i < |es| && es[i].key == k
  }

  /** The key can only be in the node at `p`. */
  ghost predicate Narrowed(t: Tree, p: Path, k: Key)
    requires IsPath(t, p)
  {
    && (forall x :: x in Pre(t, p) ==> x.key < k)
    && (forall x :: x in Post(t, p) ==> x.key > k)
    && (Bound(t, p, None).Some? ==> k < Bound(t, p, None).value)
  }

  /** Narrowing loses no match. */
  lemma NarrowedHasKey(t: Tree, p: Path, k: Key)
    requires IsPath(t, p) && Narrowed(t, p, k)
    ensures HasKey(Elems(t), k) <==> HasKey(Elems(Sub(t, p)), k)
  {
    SubElems(t, p);
    HasKeyIn(Elems(t), k);
    HasKeyIn(Elems(Sub(t, p)), k);
  }

  lemma HasKeyIn(es: seq<Elem>, k: Key)
    ensures HasKey(es, k) <==> exists x :: x in es && x.key == k
  {
    if HasKey(es, k) {
      var i :| 0 <= i < |es| && es[i].key == k;
      assert es[i] in es;
    }
    if x :| x in es && x.key == k {
      var i :| 0 <= i < |es| && es[i] == x;
    }
  }

  /** Following the first separator above the key narrows the search. */
  lemma NarrowStep(t: Tree, p: Path, c: nat, k: Key, h: nat, d: nat)
    requires WellFormed(t, h, d) && IsPath(t, p) && Narrowed(t, p, k)
    requires Sub(t, p).Inner? && c <= |Sub(t, p).keys| < |Sub(t, p).kids|
    requires c > 0 ==> Sub(t, p).keys[c - 1] < k
    requires c < |Sub(t, p).keys| ==> k < Sub(t, p).keys[c]
    ensures IsPath(t, p + [c]) && Narrowed(t, p + [c], k) && Sub(t, p + [c]) == Sub(t, p).kids[c]
  {
    var u := Sub(t, p);
    SubInvariants(t, p, h, d);
    SubElems(t, p);
    SortedPart(Pre(t, p), Elems(u), Post(t, p));
    PathStep(t, p, c);
    SeparatorsHold(u, c);
    if c == |u.keys| { assert u.kids[c + 1..] == []; }
  }

  /** A separator is the key of an element below it. */
  lemma SeparatorPresent(t: Tree, i: nat)
    requires t.Inner? && Seps(t) && i < |t.keys|
    ensures HasKey(Elems(t), t.keys[i])
  {
    CutElems(t.kids, i);
    var a, m := ElemsAll(t.kids[..i]), Elems(t.kids[i]);
    assert Elems(t)[|a| + |m| - 1].key == t.keys[i];
  }

  lemma {:induction false} BoundStays(t: Tree, p: Path, b: Key)
    requires IsPath(t, p)
    ensures Bound(t, p, Some(b)).Some?
  {
    if p != [] {
      BoundStays(t.kids[p[0]], p[1..], KidBound(t, p[0], Some(b)).value);
    }
  }

  /** Only the last leaf has no separator to its right. */
  lemma {:induction false} UnboundedIsLast(t: Tree, p: Path)
    requires IsPath(t, p) && Seps(t) && Sub(t, p).Leaf? && Bound(t, p, None).None?
    ensures Sub(t, p) == LastLeaf(t)
  {
    if p != [] {
      var c := p[0];
      if c < |t.keys| { BoundStays(t.kids[c], p[1..], t.keys[c]); }
      UnboundedIsLast(t.kids[c], p[1..]);
    }
  }

  // ----------------------------------------------------------- separators

  /** All separator keys of a tree. */
  ghost function SepKeys(t: Tree): set<Key>
    decreases t, 1
  {
    if t.Leaf? then {} else (set k | k in t.keys) + SepKeysAll(t.kids)
  }

  ghost function SepKeysAll(ts: seq<Tree>): set<Key>
    decreases ts, 0
  {
    if ts == [] then {} else SepKeys(ts[0]) + SepKeysAll(ts[1..])
  }

  /** A separator below one of several siblings is the key of an element of that sibling. */
  lemma {:induction false} SepKeysPresent(t: Tree, k: Key)
    requires Seps(t) && k in SepKeys(t)
    ensures HasKey(Elems(t), k)
    decreases t, 1
  {
    if k in t.keys {
      var i :| 0 <= i < |t.keys| && t.keys[i] == k;
      SeparatorPresent(t, i);
    } else {
      SepKeysAllPresent(t.kids, k);
    }
  }

  lemma {:induction false} SepKeysAllPresent(ts: seq<Tree>, k: Key)
    requires k in SepKeysAll(ts) && forall i :: 0 <= i < |ts| ==> Seps(ts[i])
    ensures HasKey(ElemsAll(ts), k)
    decreases ts, 0
  {
    if k in SepKeys(ts[0]) {
      SepKeysPresent(ts[0], k);
      var i :| 0 <= i < |Elems(ts[0])| && Elems(ts[0])[i].key == k;
      assert ElemsAll(ts)[i].key == k;
    } else {
      SepKeysAllPresent(ts[1..], k);
      var i :| 0 <= i < |ElemsAll(ts[1..])| && ElemsAll(ts[1..])[i].key == k;
      assert ElemsAll(ts)[|Elems(ts[0])| + i].key == k;
    }
  }

  lemma {:induction false} SepKeysAllAppend(a: seq<Tree>, b: seq<Tree>)
    ensures SepKeysAll(a + b) == SepKeysAll(a) + SepKeysAll(b)
  {
    if a == [] {
      assert a + b == b;
    } else {
      SepKeysAllAppend(a[1..], b);
      assert (a + b)[1..] == a[1..] + b;
    }
  }

  /** A key that is no separator of a node is one below it only in the child it leads to. */
  lemma SepKeysStep(u: Tree, c: nat, k: Key)
    requires u.Inner? && Seps(u) && Sorted(Elems(u)) && k !in u.keys && c < |u.kids|
    requires c > 0 ==> u.keys[c - 1] < k
    requires c < |u.keys| ==> k < u.keys[c]
    ensures k in SepKeys(u) <==> k in SepKeys(u.kids[c])
  {
    SeparatorsHold(u, c);
    var a, b := u.kids[..c], u.kids[c + 1..];
    SepKeysCut(u.kids, c);
    if c == |u.keys| { assert b == []; }
    assert k !in SepKeysAll(a) by { NoSepKey(a, k); }
    assert k !in SepKeysAll(b) by { NoSepKey(b, k); }
  }

  lemma SepKeysCut(ts: seq<Tree>, c: nat)
    requires c < |ts|
    ensures SepKeysAll(ts) == SepKeysAll(ts[..c]) + SepKeys(ts[c]) + SepKeysAll(ts[c + 1..])
  {
    var b := [ts[c]] + ts[c + 1..];
    assert ts == ts[..c] + b && b[1..] == ts[c + 1..];
    SepKeysAllAppend(ts[..c], b);
  }

  lemma NoSepKey(ts: seq<Tree>, k: Key)
    requires (forall i :: 0 <= i < |ts| ==> Seps(ts[i])) && forall x :: x in ElemsAll(ts) ==> x.key != k
    ensures k !in SepKeysAll(ts)
  {
    NoKey(ElemsAll(ts), k);
    if k in SepKeysAll(ts) { SepKeysAllPresent(ts, k); }
  }

  lemma NoKey(es: seq<Elem>, k: Key)
    requires forall x :: x in es ==> x.key != k
    ensures !HasKey(es, k)
  {
    forall i | 0 <= i < |es| ensures es[i].key != k {
      assert es[i] in es;
    }
  }
}

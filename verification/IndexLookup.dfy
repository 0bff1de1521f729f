/** Reading an index file: lookups, both ends, and the iterator. */
module IndexLookup {
  import opened Prelude
  import opened IndexShape
  import opened IndexPath
  import opened IndexSplit
  import opened IndexStore
  import opened IndexSplitStore
  import opened IndexScan
  import opened IndexFile

  /** Keys of a block in use, in order. */
  ghost predicate KeysInOrder(b: Block) {
    b.numKey < |b.slots| && forall i, j :: 0 <= i < j < b.numKey ==> b.slots[i].key <= b.slots[j].key
  }

  /** The keys of the slots, up to `n`. */
  function KeysTo(slots: seq<Slot>, n: nat): (ks: seq<Key>)
    requires n <= |slots|
    ensures |ks| == n && forall i :: 0 <= i < n ==> ks[i] == slots[i].key
  {
    if n == 0 then [] else KeysTo(slots, n - 1) + [slots[n - 1].key]
  }

  /** The keys of a block in use. */
  function BlockKeys(b: Block): (ks: seq<Key>)
    requires b.numKey <= |b.slots|
  {
    KeysTo(b.slots, b.numKey)
  }

  /** Which of several equal keys a binary search between `lo` and `hi` comes upon, or where it ends. */
  function Search(ks: seq<Key>, key: Key, lo: nat, hi: int): (n: nat)
    requires lo <= hi + 1 <= |ks|
    ensures lo <= n <= hi + 1
    decreases hi - lo
  {
    if lo > hi then hi + 1
    else
      var mid := (lo + hi) / 2;
      if key < ks[mid] then Search(ks, key, lo, mid - 1)
      else if key > ks[mid] then Search(ks, key, mid + 1, hi)
      else mid
  }

  function Place(ks: seq<Key>, key: Key): (n: nat)
    ensures n <= |ks|
  {
    Search(ks, key, 0, |ks| - 1)
  }

  /** A match, or the place of the first larger key. */
  ghost predicate Placed(ks: seq<Key>, key: Key, n: int) {
    || (0 <= n < |ks| && ks[n] == key)
    || ((forall i :: 0 <= i < n && i < |ks| ==> ks[i] < key) && (forall i :: 0 <= i && n <= i < |ks| ==> ks[i] > key))
  }

  lemma {:induction false} SearchFinds(ks: seq<Key>, key: Key, lo: nat, hi: int)
    requires lo <= hi + 1 <= |ks| && forall i, j :: 0 <= i < j < |ks| ==> ks[i] <= ks[j]
    requires forall i :: 0 <= i < lo ==> ks[i] < key
    requires forall i :: hi < i < |ks| ==> ks[i] > key
    ensures Placed(ks, key, Search(ks, key, lo, hi))
    decreases hi - lo
  {
    if lo <= hi {
      var mid := (lo + hi) / 2;
      if key < ks[mid] { SearchFinds(ks, key, lo, mid - 1); } else if key > ks[mid] { SearchFinds(ks, key, mid + 1, hi); }
    }
  }

  lemma PlaceFinds(b: Block, key: Key)
    requires KeysInOrder(b)
    ensures var n := Place(BlockKeys(b), key);
            n <= b.numKey
            && ((n < b.numKey && b.slots[n].key == key) ||
                ((forall i :: 0 <= i < n ==> b.slots[i].key < key) && (forall i :: n <= i < b.numKey ==> b.slots[i].key > key)))
  {
    var ks := BlockKeys(b);
    SearchFinds(ks, key, 0, |ks| - 1);
    PlacedKeys(b, ks, key, Place(ks, key));
  }

  lemma PlacedKeys(b: Block, ks: seq<Key>, key: Key, n: nat)
    requires |ks| == b.numKey <= |b.slots| && forall i :: 0 <= i < |ks| ==> ks[i] == b.slots[i].key
    requires Placed(ks, key, n) && n <= |ks|
    ensures (n < b.numKey && b.slots[n].key == key) ||
            ((forall i :: 0 <= i < n ==> b.slots[i].key < key) && (forall i :: n <= i < b.numKey ==> b.slots[i].key > key))
  {
  }

  /** The loop of the binary search. */
  method BinarySearch(b: Block, key: Key) returns (n: nat)
    requires b.numKey <= |b.slots|
    ensures n == Place(BlockKeys(b), key)
  {
    var lo, hi := 0, b.numKey - 1;
    n := b.numKey;
    ghost var ks := BlockKeys(b);
    while lo <= hi
      invariant 0 <= lo <= hi + 1 <= b.numKey && n == hi + 1
      invariant Search(ks, key, lo, hi) == Place(ks, key)
    {
      var mid := (lo + hi) / 2;
      assert ks[mid] == b.slots[mid].key;
      if key < b.slots[mid].key {
        hi := mid - 1;
        n := mid;
      } else if key > b.slots[mid].key {
        lo := mid + 1;
      } else {
        return mid;
      }
    }
  }

  /** Without a match, the first key that is larger. */
  method FindKey(b: Block, key: Key) returns (n: nat)
    requires KeysInOrder(b)
    ensures n <= b.numKey && n == Place(BlockKeys(b), key)
    ensures (n < b.numKey && b.slots[n].key == key) ||
            ((forall i :: 0 <= i < n ==> b.slots[i].key < key) && (forall i :: n <= i < b.numKey ==> b.slots[i].key > key))
  {
    n := BinarySearch(b, key);
    PlaceFinds(b, key);
  }

  lemma BlockInOrder(ix: Index, p: Path)
    requires ix.Stored() && IsPath(ix.shape, p)
    ensures Sub(ix.shape, p).off in ix.store && KeysInOrder(ix.store[Sub(ix.shape, p).off])
  {
    var s := Sub(ix.shape, p);
    ix.NodeBlock(p);
    SubElems(ix.shape, p);
    SortedPart(Pre(ix.shape, p), Elems(s), Post(ix.shape, p));
    if s.Inner? { KeysSorted(s); }
  }

  /** The outcome of a lookup: a slot in use with that key, or the end. */
  ghost predicate Found(ix: Index, it: Iter, key: Key)
    reads ix
  {
    && it.off in ix.store && 0 <= it.index < ix.store[it.off].numKey < |ix.store[it.off].slots|
    && ix.store[it.off].slots[it.index].key == key
  }

  /** `node::find`: stale slots behind the last key never produce a wrong match. */
  method FindBelow(ix: Index, off: int, key: Key, ghost p: Path) returns (it: Iter)
    requires ix.Valid() && ix.root >= 0
    requires IsPath(ix.shape, p) && Sub(ix.shape, p).off == off && Narrowed(ix.shape, p, key)
    ensures Seps(ix.shape)
    ensures if HasKey(ix.Contents(), key) then Found(ix, it, key) else it == EndIter(ix.shape)
    ensures HasKey(ix.Contents(), key) ==> InLeaf(ix, it, key) || !ix.store[it.off].leaf
    ensures HasKey(ix.Contents(), key) ==> (ix.store[it.off].leaf <==> key !in SepKeys(Sub(ix.shape, p)))
    decreases ix.height - |p|
  {
    BlockInOrder(ix, p);
    ix.NodeBlock(p);
    NarrowedHasKey(ix.shape, p, key);
    ghost var s := Sub(ix.shape, p);
    var i := FindKey(ix.store[off], key);
    if ix.store[off].slots[i].key == key {
      it := Iter(i, off);
      HitIsRight(ix, p, key, i);
    } else if ix.store[off].leaf {
      it := End(ix);
    } else {
      MissNarrows(ix, p, key, i);
      it := FindBelow(ix, ix.store[off].slots[i].ptr, key, p + [i]);
    }
  }

  /** A leaf slot in use that carries the key decodes to an element of the index. */
  ghost predicate InLeaf(ix: Index, it: Iter, key: Key)
    reads ix
  {
    && it.off in ix.store && 0 <= it.index < |ix.store[it.off].slots| && ix.store[it.off].leaf
    && Decode(ix.store[it.off].slots[it.index]) in ix.Contents()
  }

  /** Descending past a node without a match keeps the question whether the key is a separator. */
  lemma MissNarrows(ix: Index, p: Path, key: Key, i: nat)
    requires ix.Stored() && IsPath(ix.shape, p) && Sub(ix.shape, p).Inner?
    requires var s := Sub(ix.shape, p);
             && s.off in ix.store && Holds(ix.store[s.off], s, Bound(ix.shape, p, None), ix.order)
             && i <= ix.store[s.off].numKey
             && (forall j :: 0 <= j < i ==> ix.store[s.off].slots[j].key < key)
             && (forall j :: i <= j < ix.store[s.off].numKey ==> ix.store[s.off].slots[j].key > key)
    ensures |Sub(ix.shape, p).kids| == |Sub(ix.shape, p).keys| + 1
    ensures key in SepKeys(Sub(ix.shape, p)) <==> key in SepKeys(Sub(ix.shape, p).kids[i])
    ensures Narrowed(ix.shape, p, key) ==>
              (IsPath(ix.shape, p + [i]) && Narrowed(ix.shape, p + [i], key) && Sub(ix.shape, p + [i]) == Sub(ix.shape, p).kids[i])
  {
    var s := Sub(ix.shape, p);
    SubInvariants(ix.shape, p, ix.height, ix.Degree());
    SubElems(ix.shape, p);
    SortedPart(Pre(ix.shape, p), Elems(s), Post(ix.shape, p));
    assert forall j :: 0 <= j < |s.keys| ==> ix.store[s.off].slots[j].key == s.keys[j];
    SepKeysStep(s, i, key);
    if Narrowed(ix.shape, p, key) { NarrowStep(ix.shape, p, i, key, ix.height, ix.Degree()); }
  }

  lemma HitIsRight(ix: Index, p: Path, key: Key, i: nat)
    requires ix.Stored() && IsPath(ix.shape, p) && Narrowed(ix.shape, p, key)
    requires var s := Sub(ix.shape, p);
             && s.off in ix.store && Holds(ix.store[s.off], s, Bound(ix.shape, p, None), ix.order)
             && i <= ix.store[s.off].numKey && ix.store[s.off].slots[i].key == key
             && (i == ix.store[s.off].numKey ==> forall j :: 0 <= j < i ==> ix.store[s.off].slots[j].key < key)
    ensures Seps(ix.shape)
    ensures var it := Iter(i, Sub(ix.shape, p).off);
            if HasKey(Elems(Sub(ix.shape, p)), key) then Found(ix, it, key) else it == EndIter(ix.shape)
    ensures HasKey(Elems(Sub(ix.shape, p)), key) && Sub(ix.shape, p).Leaf? ==> InLeaf(ix, Iter(i, Sub(ix.shape, p).off), key)
    ensures HasKey(Elems(Sub(ix.shape, p)), key) && Sub(ix.shape, p).Inner? ==> key in SepKeys(Sub(ix.shape, p))
  {
    var s := Sub(ix.shape, p);
    var b := ix.store[s.off];
    SubInvariants(ix.shape, p, ix.height, ix.Degree());
    if i < b.numKey {
      if s.Inner? {
        SeparatorPresent(s, i);
      } else {
        assert s.elems[i].key == key;
        LeafElem(ix, p, i);
      }
    } else {
      assert b.slots[0].key < key by { SepsNonEmpty(s); }
      assert Harmless(key, s, Bound(ix.shape, p, None));
      assert Bound(ix.shape, p, None).None? && s.Leaf?;
      UnboundedIsLast(ix.shape, p);
      assert !HasKey(s.elems, key) by {
        assert forall j :: 0 <= j < b.numKey ==> b.slots[j].key == s.elems[j].key;
      }
    }
  }

  lemma LeafElem(ix: Index, p: Path, n: nat)
    requires ix.Stored() && IsPath(ix.shape, p) && Sub(ix.shape, p).Leaf? && n < |Sub(ix.shape, p).elems|
    ensures var s := Sub(ix.shape, p);
            && s.off in ix.store && n < |ix.store[s.off].slots|
            && Decode(ix.store[s.off].slots[n]) == s.elems[n] && s.elems[n] in ix.Contents()
  {
    var s := Sub(ix.shape, p);
    ix.NodeBlock(p);
    SubElems(ix.shape, p);
    assert s.elems[n] in ix.Contents();
    CombinedOffset(s.elems[n], Slot(0, 0));
  }

  /** `tree::begin(index)` and `tree::end(index)`. */
  method Begin(ix: Index) returns (it: Iter)
    requires ix.Valid()
    ensures ix.root < 0 ==> it == Iter(0, INVALID_REF)
    ensures ix.root >= 0 ==> Stands(ix.shape, it, 0)
  {
    if ix.root < 0 { return Iter(0, INVALID_REF); }
    var n := ix.root;
    ghost var p: Path := [];
    ghost var first := FirstLeaf(ix.shape);
    ix.NodeBlock(p);
    while !ix.store[n].leaf
      invariant IsPath(ix.shape, p) && Sub(ix.shape, p).off == n && Seps(Sub(ix.shape, p)) && |p| <= ix.height
      invariant n in ix.store && Holds(ix.store[n], Sub(ix.shape, p), Bound(ix.shape, p, None), ix.order)
      invariant FirstLeaf(Sub(ix.shape, p)) == first
      decreases ix.height - |p|
    {
      n := ix.store[n].slots[0].ptr;
      PathStep(ix.shape, p, 0);
      p := p + [0];
      ix.NodeBlock(p);
    }
    it := Iter(0, n);
    BeginStands(ix.shape);
  }

  method End(ix: Index) returns (it: Iter)
    requires ix.Valid()
    ensures ix.root < 0 ==> it == Iter(0, INVALID_REF)
    ensures ix.root >= 0 ==> Seps(ix.shape) && it == EndIter(ix.shape)
  {
    if ix.root < 0 { return Iter(0, INVALID_REF); }
    var n := ix.root;
    ghost var p: Path := [];
    ix.NodeBlock(p);
    while !ix.store[n].leaf
      invariant IsPath(ix.shape, p) && Sub(ix.shape, p).off == n && Seps(Sub(ix.shape, p)) && |p| <= ix.height
      invariant n in ix.store && Holds(ix.store[n], Sub(ix.shape, p), Bound(ix.shape, p, None), ix.order)
      invariant LastLeaf(Sub(ix.shape, p)) == LastLeaf(ix.shape)
      decreases ix.height - |p|
    {
      var c := ix.store[n].numKey;
      n := ix.store[n].slots[c].ptr;
      PathStep(ix.shape, p, c);
      p := p + [c];
      ix.NodeBlock(p);
    }
    it := Iter(ix.store[n].numKey, n);
  }

  /** `tree::find`: the result differs from the end exactly when the key was inserted. */
  method Find(ix: Index, key: Key) returns (it: Iter, end: Iter)
    requires ix.Valid()
    ensures ix.root < 0 ==> end == Iter(0, INVALID_REF)
    ensures ix.root >= 0 ==> Seps(ix.shape) && end == EndIter(ix.shape)
    ensures it != end <==> HasKey(ix.Contents(), key)
    ensures it != end ==> Found(ix, it, key)
    ensures it != end ==> (ix.store[it.off].leaf <==> key !in SepKeys(ix.shape))
    ensures it != end && key !in SepKeys(ix.shape) ==> InLeaf(ix, it, key)
  {
    end := End(ix);
    if ix.root < 0 {
      return Iter(0, INVALID_REF), end;
    }
    it := FindBelow(ix, ix.root, key, []);
    LastLeafBlock(ix);
  }

  /** The end lies behind the last element of its block. */
  lemma LastLeafBlock(ix: Index)
    requires ix.Valid() && ix.root >= 0
    ensures Seps(ix.shape)
    ensures var e := EndIter(ix.shape); e.off in ix.store && ix.store[e.off].numKey == e.index
  {
    LeavesElems(ix.shape);
    EndLeaves(ix.shape);
    LeavesRep(ix.store, ix.shape, None, ix.order, |Leaves(ix.shape)| - 1);
  }

  /** One step along the sibling links moves the position by one, and stops at the end. */
  lemma StepRight(ix: Index, it: Iter, k: nat)
    requires ix.Valid() && ix.root >= 0 && Stands(ix.shape, it, k)
    ensures it.off in ix.store
    ensures var n := ix.store[it.off];
            var i := if it.index < n.numKey then it.index + 1 else it.index;
            Stands(ix.shape, if i == n.numKey && n.next != INVALID_REF then Iter(0, n.next) else Iter(i, it.off),
                   if k < |ix.Contents()| then k + 1 else k)
  {
    var ls := Leaves(ix.shape);
    var m: nat, j: nat :| StandsAt(ls, it, k, m, j);
    LeafBlock(ix, m);
    if m + 1 < |ls| { LeafBlock(ix, m + 1); }
    StandsElem(ls, it, k, m, j);
    if k < |Joined(ls)| { StandsNext(ls, it, k, m, j); }
  }

  lemma StepLeft(ix: Index, it: Iter, k: nat)
    requires ix.Valid() && ix.root >= 0 && Stands(ix.shape, it, k)
    ensures it.off in ix.store
    ensures var n := ix.store[it.off];
            && (it.index == 0 && n.prev != INVALID_REF ==> n.prev in ix.store)
            && var at := if it.index == 0 && n.prev != INVALID_REF then Iter(ix.store[n.prev].numKey, n.prev) else it;
               Stands(ix.shape, if at.index > 0 then Iter(at.index - 1, at.off) else at, if k > 0 then k - 1 else k)
  {
    var ls := Leaves(ix.shape);
    var m: nat, j: nat :| StandsAt(ls, it, k, m, j);
    LeafBlock(ix, m);
    if m > 0 { LeafBlock(ix, m - 1); }
    if k > 0 {
      StandsPrev(ls, it, k, m, j);
    } else {
      FirstPosition(ls, it, m, j);
    }
  }

  lemma FirstPosition(ls: seq<Tree>, it: Iter, m: nat, j: nat)
    requires StandsAt(ls, it, 0, m, j)
    ensures m == 0 && j == 0
  {
    if m > 0 { CutJoined(ls, m - 1); }
  }

  /** The iterator of an index: two fields that `++` and `--` update. */
  class Iterator {
    const ix: Index
    var index: int
    var off: int

    ghost function At(): Iter
      reads this
    {
      Iter(index, off)
    }

    constructor (ix: Index, it: Iter)
      ensures this.ix == ix && At() == it
    {
      this.ix := ix;
      index, off := it.index, it.off;
    }

    method Next(ghost k: nat)
      requires ix.Valid() && ix.root >= 0 && Stands(ix.shape, At(), k)
      modifies this
      ensures Stands(ix.shape, At(), if k < |ix.Contents()| then k + 1 else k)
    {
      StepRight(ix, At(), k);
      var n := ix.store[off];
      if index < n.numKey {
        index := index + 1;
      }
      if index == n.numKey && n.next != INVALID_REF {
        off := n.next;
        index := 0;
      }
    }

    method Prev(ghost k: nat)
      requires ix.Valid() && ix.root >= 0 && Stands(ix.shape, At(), k)
      modifies this
      ensures Stands(ix.shape, At(), if k > 0 then k - 1 else k)
    {
      StepLeft(ix, At(), k);
      if index == 0 {
        var n := ix.store[off];
        if n.prev != INVALID_REF {
          off := n.prev;
          index := ix.store[off].numKey;
        }
      }
      if index > 0 {
        index := index - 1;
      }
    }

    /** The element the iterator stands before. */
    method Current(ghost k: nat) returns (e: Elem)
      requires ix.Valid() && ix.root >= 0 && Stands(ix.shape, At(), k) && k < |ix.Contents()|
      ensures e == ix.Contents()[k]
    {
      ghost var ls := Leaves(ix.shape);
      ghost var m: nat, j: nat :| StandsAt(ls, At(), k, m, j);
      LeafBlock(ix, m);
      StandsElem(ls, At(), k, m, j);
      e := ix.GetElement(off, index);
      CombinedOffset(ix.Contents()[k], Slot(0, 0));
    }
  }

  /** The block of leaf `m`: its elements, and the links to its neighbours. */
  lemma LeafBlock(ix: Index, m: nat)
    requires ix.Valid() && ix.root >= 0 && m < |Leaves(ix.shape)|
    ensures AllLeaves(Leaves(ix.shape)) && Joined(Leaves(ix.shape)) == ix.Contents()
    ensures var ls := Leaves(ix.shape);
            && ls[m].off in ix.store
            && ix.store[ls[m].off].leaf && ix.store[ls[m].off].numKey == |ls[m].elems| < |ix.store[ls[m].off].slots|
            && (forall i :: 0 <= i < |ls[m].elems| ==> ix.store[ls[m].off].slots[i] == Encode(ls[m].elems[i]))
            && ix.store[ls[m].off].next == (if m + 1 < |ls| then ls[m + 1].off else INVALID_REF)
            && ix.store[ls[m].off].prev == (if m > 0 then ls[m - 1].off else INVALID_REF)
            && ls[m].off != INVALID_REF
  {
    LeavesElems(ix.shape);
    LeavesRep(ix.store, ix.shape, None, ix.order, m);
    LeavesLevel(ix.shape, ix.height);
    var s := Level(ix.shape, ix.height);
    assert Chain(ix.store, s) && ChainAt(ix.store, s, m) && s[m] == Leaves(ix.shape)[m].off;
    LevelOffs(ix.shape, ix.height);
  }

  /** Iterators compare equal exactly when they stand at the same position. */
  lemma SamePlace(ix: Index, it: Iter, k: nat, it': Iter, k': nat)
    requires ix.Valid() && ix.root >= 0 && Stands(ix.shape, it, k) && Stands(ix.shape, it', k')
    ensures it == it' <==> k == k'
  {
    LeavesLevel(ix.shape, ix.height);
    LevelOffs(ix.shape, ix.height);
    if it == it' { StandsUnique(ix.shape, it, k, k'); }
    if k == k' { StandsCanonical(ix.shape, it, it', k); }
  }

  /** A forward scan visits every element once, in non-decreasing key order. */
  method ScanForward(ix: Index) returns (out: seq<Elem>)
    requires ix.Valid()
    ensures out == ix.Contents() && Sorted(out)
  {
    out := [];
    var it := Begin(ix);
    var end := End(ix);
    if ix.root < 0 { return; }
    var iter := new Iterator(ix, it);
    ghost var k := 0;
    EndStands(ix.shape);
    while iter.index != end.index || iter.off != end.off
      invariant iter.ix == ix && fresh(iter) && ix.Valid() && ix.root >= 0
      invariant k <= |ix.Contents()| && out == ix.Contents()[..k] && Stands(ix.shape, iter.At(), k)
      decreases |ix.Contents()| - k
    {
      SamePlace(ix, iter.At(), k, end, |ix.Contents()|);
      var e := iter.Current(k);
      out := out + [e];
      iter.Next(k);
      k := k + 1;
    }
    SamePlace(ix, iter.At(), k, end, |ix.Contents()|);
  }

  /** One step to the left, and the element there. */
  method StepBack(iter: Iterator, ghost k: nat) returns (e: Elem)
    requires iter.ix.Valid() && iter.ix.root >= 0 && Stands(iter.ix.shape, iter.At(), k) && 0 < k <= |iter.ix.Contents()|
    modifies iter
    ensures Stands(iter.ix.shape, iter.At(), k - 1) && e == iter.ix.Contents()[k - 1]
  {
    iter.Prev(k);
    e := iter.Current(k - 1);
  }

  /** A backward scan from the end retraces it. */
  method ScanBackward(ix: Index) returns (out: seq<Elem>)
    requires ix.Valid()
    ensures |out| == |ix.Contents()| && forall i :: 0 <= i < |out| ==> out[i] == ix.Contents()[|out| - 1 - i]
  {
    out := [];
    var it := End(ix);
    var begin := Begin(ix);
    if ix.root < 0 { return; }
    var iter := new Iterator(ix, it);
    ghost var k: nat := |ix.Contents()|;
    EndStands(ix.shape);
    while iter.index != begin.index || iter.off != begin.off
      invariant iter.ix == ix && fresh(iter) && ix.Valid() && ix.root >= 0
      invariant k <= |ix.Contents()| && |out| == |ix.Contents()| - k && Stands(ix.shape, iter.At(), k)
      invariant forall i :: 0 <= i < |out| ==> out[i] == ix.Contents()[|ix.Contents()| - 1 - i]
      decreases k
    {
      SamePlace(ix, iter.At(), k, begin, 0);
      var e := StepBack(iter, k);
      k := k - 1;
      out := out + [e];
    }
    SamePlace(ix, iter.At(), k, begin, 0);
  }
}

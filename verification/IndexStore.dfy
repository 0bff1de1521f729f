/**
 How an index lives in file blocks: a node is a block of numbered slots, found
 by its offset, and a level of nodes is a doubly linked list of blocks.
 */
module IndexStore {
  import opened Prelude
  import opened IndexShape
  import opened IndexPath
  import opened IndexSplit

  const INVALID_REF: int := -0x8000_0000_0000_0000

  /** One vector element: a pointer field and a key field. */
  datatype Slot = Slot(ptr: int, key: Key)

  datatype Block = Block(leaf: bool, numKey: nat, slots: seq<Slot>, prev: int, next: int)

  type Store = map<int, Block>

  // ------------------------------------------------------- element pointers

  /** Remainder as the host computes it: the sign follows the dividend. */
  function Rem(a: int, b: int): int
    requires b > 0
  {
    if a >= 0 then a % b else -((-a) % b)
  }

  function Encode(e: Elem): Slot { Slot(e.block + e.row, e.key) }

  function Decode(s: Slot): Elem {
    Elem(s.key, s.ptr - Rem(s.ptr, BLOCK_SZ), Rem(s.ptr, BLOCK_SZ))
  }

  /** A row lives inside one block, and blocks start at multiples of their size. */
  predicate ValidElem(e: Elem) {
    e.block >= 0 && e.block % BLOCK_SZ == 0 && 0 <= e.row < BLOCK_SZ
  }

  /** The combined offset loses nothing, and copying an element copies its slot. */
  lemma CombinedOffset(e: Elem, s: Slot)
    ensures ValidElem(e) ==> Decode(Encode(e)) == e
    ensures Encode(Decode(s)) == s
  {
    if ValidElem(e) {
      var q := e.block / BLOCK_SZ;
      assert e.block == BLOCK_SZ * q;
      assert (BLOCK_SZ * q + e.row) % BLOCK_SZ == e.row;
    }
  }

  // ------------------------------------------------- a block holds a node

  /** Slots past the last key are left over; a lookup must not be misled by them. */
  ghost predicate Harmless(k: Key, t: Tree, hi: Option<Key>) {
    match hi
    case Some(b) => k == 0 || k >= b
    case None => t.Inner? ==> k == 0
  }

  ghost predicate Holds(b: Block, t: Tree, hi: Option<Key>, order: nat) {
    && |b.slots| == order && b.numKey == Count(t) < order && b.leaf == t.Leaf?
    && (t.Leaf? ==> forall i :: 0 <= i < b.numKey ==> b.slots[i] == Encode(t.elems[i]))
    && (t.Inner? ==> |t.kids| == |t.keys| + 1)
    && (t.Inner? ==> forall i :: 0 <= i < b.numKey ==> b.slots[i].key == t.keys[i])
    && (t.Inner? ==> forall i :: 0 <= i <= b.numKey ==> b.slots[i].ptr == t.kids[i].off)
    && (forall i :: b.numKey <= i < order ==> Harmless(b.slots[i].key, t, hi))
    && b.slots[order - 1].key == 0
  }

  /** Every node of the tree is held by the block at its offset. */
  ghost predicate Rep(store: Store, t: Tree, hi: Option<Key>, order: nat)
    decreases t
  {
    && t.off in store
    && Holds(store[t.off], t, hi, order)
    && (t.Inner? ==> forall i :: 0 <= i < |t.kids| ==> Rep(store, t.kids[i], KidBound(t, i, hi), order))
  }

  predicate SameBody(a: Block, b: Block) {
    a.leaf == b.leaf && a.numKey == b.numKey && a.slots == b.slots
  }

  ghost predicate SameContent(s0: Store, s1: Store, offs: set<int>) {
    forall o :: o in offs && o in s0 ==> o in s1 && SameBody(s0[o], s1[o])
  }

  lemma {:induction false} RepFrame(s0: Store, s1: Store, t: Tree, hi: Option<Key>, order: nat)
    requires Rep(s0, t, hi, order) && SameContent(s0, s1, Offs(t))
    ensures Rep(s1, t, hi, order)
    decreases t
  {
    if t.Inner? {
      forall i | 0 <= i < |t.kids| ensures Rep(s1, t.kids[i], KidBound(t, i, hi), order) {
        CutOffs(t.kids, i);
        RepFrame(s0, s1, t.kids[i], KidBound(t, i, hi), order);
      }
    }
  }

  lemma {:induction false} RepSub(store: Store, t: Tree, p: Path, hi: Option<Key>, order: nat)
    requires Rep(store, t, hi, order) && IsPath(t, p)
    ensures Rep(store, Sub(t, p), Bound(t, p, hi), order)
  {
    if p != [] {
      RepSub(store, t.kids[p[0]], p[1..], KidBound(t, p[0], hi), order);
    }
  }

  lemma RepReplaceKid(s0: Store, s1: Store, t: Tree, c: nat, kid: Tree, hi: Option<Key>, order: nat)
    requires Rep(s0, t, hi, order) && t.Inner? && c < |t.kids| && Distinct(t)
    requires kid.off == t.kids[c].off && Rep(s1, kid, KidBound(t, c, hi), order)
    requires SameContent(s0, s1, Offs(t) - Offs(t.kids[c]))
    ensures Rep(s1, t.(kids := t.kids[c := kid]), hi, order)
  {
    var r := t.(kids := t.kids[c := kid]);
    CutOffs(t.kids, c);
    assert t.off in Offs(t) - Offs(t.kids[c]);
    assert SameBody(s0[t.off], s1[t.off]);
    assert Holds(s1[r.off], r, hi, order);
    forall i | 0 <= i < |r.kids| ensures Rep(s1, r.kids[i], KidBound(r, i, hi), order) {
      if i != c {
        OtherKids(t.kids, c, i);
        RepFrame(s0, s1, t.kids[i], KidBound(t, i, hi), order);
      }
    }
  }

  /** A change confined to one node's blocks is a replacement in the whole tree. */
  lemma {:induction false} RepReplace(s0: Store, s1: Store, t: Tree, p: Path, s: Tree, hi: Option<Key>, order: nat)
    requires Rep(s0, t, hi, order) && IsPath(t, p) && Distinct(t)
    requires s.off == Sub(t, p).off && Rep(s1, s, Bound(t, p, hi), order)
    requires SameContent(s0, s1, Offs(t) - Offs(Sub(t, p)))
    ensures Rep(s1, Replace(t, p, s), hi, order) && Replace(t, p, s).off == t.off
    decreases p
  {
    if p != [] {
      var c := p[0];
      SubOffs(t.kids[c], p[1..]);
      CutOffs(t.kids, c);
      CutDistinct(t.kids, c);
      RepReplace(s0, s1, t.kids[c], p[1..], s, KidBound(t, c, hi), order);
      RepReplaceKid(s0, s1, t, c, Replace(t.kids[c], p[1..], s), hi, order);
    }
  }

  lemma OtherKids(ts: seq<Tree>, c: nat, i: nat)
    requires c < |ts| && i < |ts| && i != c && DistinctAll(ts)
    ensures Offs(ts[i]) <= OffsAll(ts) && Offs(ts[i]) !! Offs(ts[c])
  {
    CutOffs(ts, i);
    CutDistinct(ts, c);
    if i < c {
      CutOffs(ts[..c], i);
    } else {
      CutOffs(ts[c + 1..], i - c - 1);
    }
  }

  // ------------------------------------------------------------ the levels

  /** The sibling references that position `i` of a list has to carry. */
  function After(s: seq<int>, i: nat): int {
    if i + 1 < |s| then s[i + 1] else INVALID_REF
  }

  function Before(s: seq<int>, i: nat): int {
    if 0 < i <= |s| then s[i - 1] else INVALID_REF
  }

  /** The block at position `i` is linked to its neighbours in the list. */
  ghost predicate ChainAt(store: Store, s: seq<int>, i: int) {
    0 <= i < |s| && s[i] in store && store[s[i]].next == After(s, i) && store[s[i]].prev == Before(s, i)
  }

  /** The blocks of `s` are linked into one list in that order. */
  ghost predicate Chain(store: Store, s: seq<int>) {
    forall i :: 0 <= i < |s| ==> ChainAt(store, s, i)
  }

  ghost predicate NoDup(s: seq<int>) {
    forall i, j :: 0 <= i < j < |s| ==> s[i] != s[j]
  }

  ghost predicate Within(s: seq<int>, offs: set<int>) {
    forall i :: 0 <= i < |s| ==> s[i] in offs
  }

  lemma {:induction false} LevelOffs(t: Tree, k: nat)
    requires Distinct(t)
    ensures NoDup(Level(t, k)) && Within(Level(t, k), Offs(t))
    decreases t, 1
  {
    if k > 0 && t.Inner? {
      LevelAllOffs(t.kids, k - 1);
    }
  }

  lemma {:induction false} LevelAllOffs(ts: seq<Tree>, k: nat)
    requires DistinctAll(ts)
    ensures NoDup(LevelAll(ts, k)) && Within(LevelAll(ts, k), OffsAll(ts))
    decreases ts, 0
  {
    if ts != [] {
      LevelOffs(ts[0], k);
      LevelAllOffs(ts[1..], k);
      var a, b := Level(ts[0], k), LevelAll(ts[1..], k);
      forall i, j | 0 <= i < j < |a + b| ensures (a + b)[i] != (a + b)[j] {
        if i < |a| <= j {
          assert a[i] in Offs(ts[0]) && b[j - |a|] in OffsAll(ts[1..]);
        }
      }
    }
  }

  ghost predicate Apart(a: seq<int>, b: seq<int>) {
    forall i, j :: 0 <= i < |a| && 0 <= j < |b| ==> a[i] != b[j]
  }

  /** Different levels have different blocks. */
  lemma {:induction false} LevelsApart(t: Tree, j: nat, k: nat)
    requires Distinct(t) && j < k
    ensures Apart(Level(t, j), Level(t, k))
    decreases t, 1
  {
    if t.Inner? {
      LevelAllOffs(t.kids, k - 1);
      if j > 0 {
        LevelsAllApart(t.kids, j - 1, k - 1);
      }
    }
  }

  lemma {:induction false} LevelsAllApart(ts: seq<Tree>, j: nat, k: nat)
    requires DistinctAll(ts) && j < k
    ensures Apart(LevelAll(ts, j), LevelAll(ts, k))
    decreases ts, 0
  {
    if ts != [] {
      LevelsApart(ts[0], j, k);
      LevelsAllApart(ts[1..], j, k);
      LevelOffs(ts[0], j);
      LevelOffs(ts[0], k);
      LevelAllOffs(ts[1..], j);
      LevelAllOffs(ts[1..], k);
      var a, b := Level(ts[0], j), LevelAll(ts[1..], j);
      var x, y := Level(ts[0], k), LevelAll(ts[1..], k);
      forall i, l | 0 <= i < |a + b| && 0 <= l < |x + y| ensures (a + b)[i] != (x + y)[l] {
        if i < |a| && l >= |x| {
          assert a[i] in Offs(ts[0]) && y[l - |x|] in OffsAll(ts[1..]);
        } else if i >= |a| && l < |x| {
          assert b[i - |a|] in OffsAll(ts[1..]) && x[l] in Offs(ts[0]);
        }
      }
    }
  }

  // ------------------------------------------------------- the whole index

  /** The stored index of shape `t`: well-formed, held by its blocks, levels linked. */
  ghost predicate ValidIndex(store: Store, t: Tree, h: nat, d: nat, limit: int) {
    && WellFormed(t, h, d)
    && Rep(store, t, None, 2 * d)
    && (forall k :: 0 <= k <= h ==> Chain(store, Level(t, k)))
    && (forall o :: o in Offs(t) ==> 0 <= o < limit)
    && (forall e :: e in Elems(t) ==> ValidElem(e))
  }
}

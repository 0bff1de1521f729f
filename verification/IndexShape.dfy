/**
 The abstract shape of one index: a B+tree whose leaves hold every element and
 whose inner nodes hold copies of keys.  Nodes carry the file offset of the
 block that stores them, so that a shape also says where each node lives.

 A key is modelled as a natural number: every key of an index has the same
 width, and fixed-width byte strings compare as the big-endian numbers they
 spell (proved in module KeyOrder).
 */
module IndexShape {
  import opened Prelude

  type Key = nat

  /** One entry of a leaf: a key and where its row lives. */
  datatype Elem = Elem(key: Key, block: int, row: int)

  datatype Tree =
    | Leaf(off: int, elems: seq<Elem>)
    | Inner(off: int, keys: seq<Key>, kids: seq<Tree>)

  /** A path names a node by the child indices that lead to it from the root. */
  type Path = seq<nat>

  // ---------------------------------------------------------------- contents

  /** The elements of a tree, left to right. */
  function Elems(t: Tree): seq<Elem>
    decreases t, 1
  {
    match t
    case Leaf(_, es) => es
    case Inner(_, _, kids) => ElemsAll(kids)
  }

  function ElemsAll(ts: seq<Tree>): seq<Elem>
    decreases ts, 0
  {
    if ts == [] then [] else Elems(ts[0]) + ElemsAll(ts[1..])
  }

  /** The offsets of the nodes at depth `k`, left to right. */
  function Level(t: Tree, k: nat): seq<int>
    decreases t, 1
  {
    if k == 0 then [t.off]
    else match t
      case Leaf(_, _) => []
      case Inner(_, _, kids) => LevelAll(kids, k - 1)
  }

  function LevelAll(ts: seq<Tree>, k: nat): seq<int>
    decreases ts, 0
  {
    if ts == [] then [] else Level(ts[0], k) + LevelAll(ts[1..], k)
  }

  ghost function Offs(t: Tree): set<int>
    decreases t, 1
  {
    match t
    case Leaf(off, _) => {off}
    case Inner(off, _, kids) => {off} + OffsAll(kids)
  }

  ghost function OffsAll(ts: seq<Tree>): set<int>
    decreases ts, 0
  {
    if ts == [] then {} else Offs(ts[0]) + OffsAll(ts[1..])
  }

  // -------------------------------------------------------------- invariants

  ghost predicate Sorted(es: seq<Elem>) {
    forall i, j :: 0 <= i < j < |es| ==> es[i].key <= es[j].key
  }

  /** Every leaf is at depth `h`. */
  ghost predicate Balanced(t: Tree, h: nat)
    decreases t
  {
    match t
    case Leaf(_, _) => h == 0
    case Inner(_, _, kids) => h > 0 && forall i :: 0 <= i < |kids| ==> Balanced(kids[i], h - 1)
  }

  function LastKey(es: seq<Elem>): Key
    requires es != []
  {
    es[|es| - 1].key
  }

  /** One more child than keys; every key is the largest key on its left. */
  ghost predicate Seps(t: Tree)
    decreases t
  {
    match t
    case Leaf(_, es) => es != []
    case Inner(_, keys, kids) =>
      && |kids| == |keys| + 1
      && (forall i :: 0 <= i < |kids| ==> Seps(kids[i]))
      && (forall i :: 0 <= i < |kids| ==> Elems(kids[i]) != [])
      && (forall i :: 0 <= i < |keys| ==> keys[i] == LastKey(Elems(kids[i])))
  }

  /** Number of keys stored in the node itself. */
  function Count(t: Tree): nat {
    match t
    case Leaf(_, es) => |es|
    case Inner(_, keys, _) => |keys|
  }

  /** Occupancy d-1 .. 2d-1 of a node and all its descendants. */
  ghost predicate Occupied(t: Tree, d: nat)
    decreases t
  {
    && d <= Count(t) + 1 <= 2 * d
    && (t.Inner? ==> forall i :: 0 <= i < |t.kids| ==> Occupied(t.kids[i], d))
  }

  /** The same, with the root excused from the lower bound. */
  ghost predicate RootOccupied(t: Tree, d: nat) {
    && 1 <= Count(t) < 2 * d
    && (t.Inner? ==> forall i :: 0 <= i < |t.kids| ==> Occupied(t.kids[i], d))
  }

  /** No two nodes share a block. */
  ghost predicate Distinct(t: Tree)
    decreases t, 1
  {
    match t
    case Leaf(_, _) => true
    case Inner(off, _, kids) => off !in OffsAll(kids) && DistinctAll(kids)
  }

  ghost predicate DistinctAll(ts: seq<Tree>)
    decreases ts, 0
  {
    ts == [] || (Distinct(ts[0]) && Offs(ts[0]) !! OffsAll(ts[1..]) && DistinctAll(ts[1..]))
  }

  /** The B+tree invariant for minimum degree `d`. */
  ghost predicate WellFormed(t: Tree, h: nat, d: nat) {
    && d >= 2
    && Balanced(t, h)
    && Seps(t)
    && RootOccupied(t, d)
    && Sorted(Elems(t))
    && Distinct(t)
  }

  // ---------------------------------------------------- sequences of subtrees

  lemma Assoc<T>(x: seq<T>, y: seq<T>, z: seq<T>)
    ensures x + (y + z) == x + y + z
  {
  }

  lemma {:induction false} ElemsAllAppend(a: seq<Tree>, b: seq<Tree>)
    ensures ElemsAll(a + b) == ElemsAll(a) + ElemsAll(b)
  {
    if a == [] {
      assert a + b == b;
    } else {
      ElemsAllAppend(a[1..], b);
      assert (a + b)[0] == a[0] && (a + b)[1..] == a[1..] + b;
      Assoc(Elems(a[0]), ElemsAll(a[1..]), ElemsAll(b));
    }
  }

  lemma {:induction false} LevelAllAppend(a: seq<Tree>, b: seq<Tree>, k: nat)
    ensures LevelAll(a + b, k) == LevelAll(a, k) + LevelAll(b, k)
  {
    if a == [] {
      assert a + b == b;
    } else {
      LevelAllAppend(a[1..], b, k);
      assert (a + b)[0] == a[0] && (a + b)[1..] == a[1..] + b;
      Assoc(Level(a[0], k), LevelAll(a[1..], k), LevelAll(b, k));
    }
  }

  lemma {:induction false} OffsAllAppend(a: seq<Tree>, b: seq<Tree>)
    ensures OffsAll(a + b) == OffsAll(a) + OffsAll(b)
  {
    if a == [] {
      assert a + b == b;
    } else {
      OffsAllAppend(a[1..], b);
      assert (a + b)[1..] == a[1..] + b;
    }
  }

  lemma {:induction false} DistinctAllAppend(a: seq<Tree>, b: seq<Tree>)
    ensures DistinctAll(a + b) <==> DistinctAll(a) && DistinctAll(b) && OffsAll(a) !! OffsAll(b)
  {
    if a == [] {
      assert a + b == b;
    } else {
      DistinctAllAppend(a[1..], b);
      OffsAllAppend(a[1..], b);
      assert (a + b)[1..] == a[1..] + b;
    }
  }

  /** A row of subtrees, cut around index `i`. */
  lemma CutElems(ts: seq<Tree>, i: nat)
    requires i < |ts|
    ensures ElemsAll(ts) == ElemsAll(ts[..i]) + Elems(ts[i]) + ElemsAll(ts[i + 1..])
  {
    assert ts == ts[..i] + ts[i..];
    ElemsAllAppend(ts[..i], ts[i..]);
    assert ts[i..][1..] == ts[i + 1..];
  }

  lemma CutLevel(ts: seq<Tree>, i: nat, k: nat)
    requires i < |ts|
    ensures LevelAll(ts, k) == LevelAll(ts[..i], k) + Level(ts[i], k) + LevelAll(ts[i + 1..], k)
  {
    assert ts == ts[..i] + ts[i..];
    LevelAllAppend(ts[..i], ts[i..], k);
    assert ts[i..][1..] == ts[i + 1..];
  }

  lemma CutOffs(ts: seq<Tree>, i: nat)
    requires i < |ts|
    ensures OffsAll(ts) == OffsAll(ts[..i]) + Offs(ts[i]) + OffsAll(ts[i + 1..])
  {
    assert ts == ts[..i] + ts[i..];
    OffsAllAppend(ts[..i], ts[i..]);
    assert ts[i..][1..] == ts[i + 1..];
  }

  lemma CutDistinct(ts: seq<Tree>, i: nat)
    requires i < |ts|
    ensures DistinctAll(ts) <==>
            && DistinctAll(ts[..i]) && Distinct(ts[i]) && DistinctAll(ts[i + 1..])
            && OffsAll(ts[..i]) !! Offs(ts[i]) && OffsAll(ts[..i]) !! OffsAll(ts[i + 1..])
            && Offs(ts[i]) !! OffsAll(ts[i + 1..])
  {
    assert ts == ts[..i] + ts[i..];
    DistinctAllAppend(ts[..i], ts[i..]);
    assert ts[i..][1..] == ts[i + 1..];
  }

  /** The last element of a row of non-empty subtrees is the last of its last subtree. */
  lemma LastOfRow(ts: seq<Tree>)
    requires ts != [] && Elems(ts[|ts| - 1]) != []
    ensures ElemsAll(ts) != []
    ensures LastKey(ElemsAll(ts)) == LastKey(Elems(ts[|ts| - 1]))
  {
    CutElems(ts, |ts| - 1);
    assert ts[|ts|..] == [];
  }

  lemma SepsNonEmpty(t: Tree)
    requires Seps(t)
    ensures Elems(t) != []
    ensures t.Inner? ==> LastKey(Elems(t)) == LastKey(Elems(t.kids[|t.keys|]))
  {
    if t.Inner? { LastOfRow(t.kids); }
  }
}

/**
 The two views of an index block: the bytes of a node buffer spell a block with
 slots, and the element and child codecs on bytes are the slot updates that the
 index operations are made of.
 */
module IndexBytes {
  import opened Prelude
  import opened IndexShape
  import opened IndexSplit
  import opened IndexStore
  import opened KeyOrder
  import opened NodeLayout

  /** The header fields and the slots below the order. */
  function BlockOf(s: seq<Byte>, k: nat): (b: Block)
    requires |s| == BLOCK_SZ
    ensures |b.slots| == Order(k)
  {
    Block(s[0] != 0, Unsigned(s[2..4]), SlotsOf(s, k), ReadInt64(s[4..12]), ReadInt64(s[12..20]))
  }

  function SlotOf(s: seq<Byte>, k: nat, i: nat): Slot
    requires |s| == BLOCK_SZ && i < Order(k)
  {
    Slot(Pointer(s, k, i), Unsigned(KeyOf(s, k, i)))
  }

  function SlotsOf(s: seq<Byte>, k: nat): (r: seq<Slot>)
    requires |s| == BLOCK_SZ
    ensures |r| == Order(k) && forall i :: 0 <= i < |r| ==> r[i] == SlotOf(s, k, i)
  {
    seq(Order(k), i requires 0 <= i < Order(k) => SlotOf(s, k, i))
  }

  /** Bytes that differ in one slot spell blocks that differ in that slot. */
  lemma OneSlot(s: seq<Byte>, t: seq<Byte>, k: nat, i: nat)
    requires |s| == BLOCK_SZ == |t| && i < Order(k)
    requires SameHeader(s, t) && SamePointers(s, t, k, i) && SameKeys(s, t, k, i)
    ensures BlockOf(t, k) == BlockOf(s, k).(slots := SlotsOf(s, k)[i := SlotOf(t, k, i)])
  {
    HeaderFields(s, t);
    var a, b := SlotsOf(t, k), SlotsOf(s, k)[i := SlotOf(t, k, i)];
    forall j | 0 <= j < Order(k) ensures a[j] == b[j] {
      if j != i { assert Pointer(s, k, j) == Pointer(t, k, j) && KeyOf(s, k, j) == KeyOf(t, k, j); }
    }
    assert a == b;
  }

  lemma HeaderFields(s: seq<Byte>, t: seq<Byte>)
    requires |s| == BLOCK_SZ == |t| && SameHeader(s, t)
    ensures s[0] == t[0] && s[2..4] == t[2..4] && s[4..12] == t[4..12] && s[12..20] == t[12..20]
  {
    assert forall i :: 0 <= i < NODE_HDR_SZ ==> s[i] == s[..NODE_HDR_SZ][i] == t[..NODE_HDR_SZ][i] == t[i];
  }

  /** `put_element` on bytes is the slot update of the index operations. */
  method PutElement(node: NodeBuffer, i: nat, block: int, row: int, key: seq<Byte>)
    requires node.Valid() && i < Order(node.keySize) && |key| == node.keySize && Int64(block + row)
    modifies node, node.bytes
    ensures node.Valid()
    ensures var b := old(BlockOf(node.bytes[..], node.keySize));
            var e := Elem(Unsigned(key), block, row);
            BlockOf(node.bytes[..], node.keySize)
            == b.(slots := b.slots[i := if b.leaf then Encode(e) else Slot(b.slots[i].ptr, e.key)])
  {
    ghost var s, k := node.bytes[..], node.keySize;
    node.PutElement(i, node.bytes[0] != 0, block, row, key);
    OneSlot(s, node.bytes[..], k, i);
  }

  /** `put_child_offset` likewise. */
  method PutChild(node: NodeBuffer, i: nat, child: int)
    requires node.Valid() && i < Order(node.keySize) && Int64(child)
    modifies node, node.bytes
    ensures node.Valid()
    ensures var b := old(BlockOf(node.bytes[..], node.keySize));
            BlockOf(node.bytes[..], node.keySize) == b.(slots := b.slots[i := Slot(child, b.slots[i].key)])
  {
    ghost var s, k := node.bytes[..], node.keySize;
    node.PutChild(i, child);
    assert KeyOf(s, k, i) == KeyOf(node.bytes[..], k, i);
    OneSlot(s, node.bytes[..], k, i);
  }

  /** `get_element` on bytes decodes the slot as the index operations do. */
  method GetElement(node: NodeBuffer, i: nat) returns (e: Elem)
    requires node.Valid() && i < Order(node.keySize)
    modifies node`index
    ensures node.Valid()
    ensures var b := BlockOf(node.bytes[..], node.keySize);
            e == if b.leaf then Decode(b.slots[i]) else Elem(b.slots[i].key, 0, 0)
  {
    var block, row, key := node.GetElement(i, node.bytes[0] != 0);
    e := Elem(Unsigned(key), block, row);
  }

  // --------------------------------------------------------------- odd orders

  /** An index over a two-byte column has an odd order. */
  lemma TwoByteKeys()
    ensures Order(2) == 3273 && Order(2) % 2 == 1
  {
  }

  /** A full leaf of that index: its keys are numbers of two bytes. */
  function FullLeaf(): (c: Tree)
    ensures c.Leaf? && Count(c) == 3272 && forall i :: 0 <= i < 3272 ==> c.elems[i] == Elem(i, 0, 24 + i) && c.elems[i].key < 0x1_0000
  {
    Leaf(0, seq(3272, (i: nat) => Elem(i, 0, 24 + i)))
  }

  /** Its full leaves lose an element when they are split. */
  lemma OddOrderLoses(q: int)
    ensures Count(FullLeaf()) == Order(2) - 1
    ensures Elems(FullLeaf()) != Elems(LeftHalf(FullLeaf(), Order(2) / 2)) + Elems(RightHalf(FullLeaf(), Order(2) / 2, q))
  {
    TwoByteKeys();
    SplitConservesIffEven(FullLeaf(), Order(2), q);
  }
}

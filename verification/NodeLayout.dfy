/** A node's block byte by byte: slots of a pointer and a key behind the header. */
module NodeLayout {
  import opened Prelude
  import opened KeyOrder
  import IndexStore

  const NODE_HDR_SZ: nat := 24
  const CHILD_OFFSET_SZ: nat := 8
  const KEY_POS: nat := 8

  /** `bcalc::order` */
  function Order(k: nat): nat {
    (BLOCK_SZ - (NODE_HDR_SZ + CHILD_OFFSET_SZ)) / (CHILD_OFFSET_SZ + k)
  }

  function SlotAt(k: nat, i: nat): nat {
    NODE_HDR_SZ + i * (CHILD_OFFSET_SZ + k)
  }

  /** Every slot below the order lies in the block, and so does one more child offset. */
  lemma SlotsFit(k: nat, i: nat)
    ensures i < Order(k) ==> SlotAt(k, i) + CHILD_OFFSET_SZ + k <= BLOCK_SZ
    ensures i <= Order(k) ==> SlotAt(k, i) + CHILD_OFFSET_SZ <= BLOCK_SZ
  {
    var m, w := Order(k), CHILD_OFFSET_SZ + k;
    assert m * w <= BLOCK_SZ - 32;
    if i < m { Times(i + 1, m, w); }
    if i <= m { Times(i, m, w); }
  }

  lemma Times(a: nat, b: nat, w: nat)
    requires a <= b
    ensures a * w <= b * w
    ensures (a + 1) * w == a * w + w
  {
  }

  /** Slots do not overlap. */
  lemma SlotsApart(k: nat, i: nat, j: nat)
    requires i < j
    ensures SlotAt(k, i) + CHILD_OFFSET_SZ + k <= SlotAt(k, j)
  {
    Times(i + 1, j, CHILD_OFFSET_SZ + k);
    Times(i, j, CHILD_OFFSET_SZ + k);
  }

  // ------------------------------------------------------- reading, writing

  function Part(s: seq<Byte>, at: nat, n: nat): (r: seq<Byte>)
    requires at + n <= |s|
    ensures |r| == n
  {
    s[at..at + n]
  }

  function Write(s: seq<Byte>, at: nat, b: seq<Byte>): (r: seq<Byte>)
    requires at + |b| <= |s|
    ensures |r| == |s|
  {
    s[..at] + b + s[at + |b|..]
  }

  /** What is written can be read, and nothing else is touched. */
  lemma WriteReads(s: seq<Byte>, at: nat, b: seq<Byte>, from: nat, n: nat)
    requires at + |b| <= |s| && from + n <= |s|
    ensures Part(Write(s, at, b), at, |b|) == b
    ensures from + n <= at || at + |b| <= from ==> Part(Write(s, at, b), from, n) == Part(s, from, n)
  {
    var w := Write(s, at, b);
    assert forall i :: 0 <= i < |s| ==> w[i] == if at <= i < at + |b| then b[i - at] else s[i];
  }

  predicate Int64(v: int) { -0x8000_0000_0000_0000 <= v < 0x8000_0000_0000_0000 }

  /** Two's complement, most significant byte first. */
  function Int64Bytes(v: int): (r: seq<Byte>)
    requires Int64(v)
    ensures |r| == 8
  {
    Bytes(if v < 0 then v + 0x1_0000_0000_0000_0000 else v, 8)
  }

  function ReadInt64(b: seq<Byte>): int {
    var u := Unsigned(b);
    if u < 0x8000_0000_0000_0000 then u else u - 0x1_0000_0000_0000_0000
  }

  lemma Int64Back(v: int)
    requires Int64(v)
    ensures ReadInt64(Int64Bytes(v)) == v
  {
    assert Base(8) == 0x1_0000_0000_0000_0000 by { BaseEight(); }
    BytesBack(if v < 0 then v + 0x1_0000_0000_0000_0000 else v, 8);
  }

  lemma BaseEight()
    ensures Base(8) == 0x1_0000_0000_0000_0000
  {
    assert Base(2) == 0x1_0000;
    assert Base(4) == 256 * (256 * Base(2));
    assert Base(6) == 256 * (256 * Base(4));
    assert Base(8) == 256 * (256 * Base(6));
  }

  // ------------------------------------------------------------------- slots

  function Pointer(s: seq<Byte>, k: nat, i: nat): int
    requires |s| == BLOCK_SZ && i <= Order(k)
  {
    SlotsFit(k, i);
    ReadInt64(Part(s, SlotAt(k, i), CHILD_OFFSET_SZ))
  }

  function KeyOf(s: seq<Byte>, k: nat, i: nat): seq<Byte>
    requires |s| == BLOCK_SZ && i < Order(k)
  {
    SlotsFit(k, i);
    Part(s, SlotAt(k, i) + KEY_POS, k)
  }

  predicate SamePointers(s: seq<Byte>, t: seq<Byte>, k: nat, but: int)
    requires |s| == BLOCK_SZ && |t| == BLOCK_SZ
  {
    forall j: nat :: j <= Order(k) && j != but ==> Pointer(s, k, j) == Pointer(t, k, j)
  }

  predicate SameKeys(s: seq<Byte>, t: seq<Byte>, k: nat, but: int)
    requires |s| == BLOCK_SZ && |t| == BLOCK_SZ
  {
    forall j: nat :: j < Order(k) && j != but ==> KeyOf(s, k, j) == KeyOf(t, k, j)
  }

  predicate SameHeader(s: seq<Byte>, t: seq<Byte>)
    requires |s| == BLOCK_SZ && |t| == BLOCK_SZ
  {
    s[..NODE_HDR_SZ] == t[..NODE_HDR_SZ]
  }

  /** A stretch lies entirely on one side of another. */
  predicate Apart(at: nat, n: nat, from: nat, m: nat) {
    at + n <= from || from + m <= at
  }

  lemma OtherSlots(k: nat, i: nat, j: nat)
    requires i != j
    ensures Apart(SlotAt(k, i), CHILD_OFFSET_SZ + k, SlotAt(k, j), CHILD_OFFSET_SZ + k)
  {
    if i < j { SlotsApart(k, i, j); } else { SlotsApart(k, j, i); }
  }

  lemma PointerStays(s: seq<Byte>, at: nat, b: seq<Byte>, k: nat, j: nat)
    requires |s| == BLOCK_SZ && at + |b| <= BLOCK_SZ && j <= Order(k)
    requires Apart(at, |b|, SlotAt(k, j), CHILD_OFFSET_SZ)
    ensures Pointer(s, k, j) == Pointer(Write(s, at, b), k, j)
  {
    SlotsFit(k, j);
    WriteReads(s, at, b, SlotAt(k, j), CHILD_OFFSET_SZ);
  }

  lemma KeyStays(s: seq<Byte>, at: nat, b: seq<Byte>, k: nat, j: nat)
    requires |s| == BLOCK_SZ && at + |b| <= BLOCK_SZ && j < Order(k)
    requires Apart(at, |b|, SlotAt(k, j) + KEY_POS, k)
    ensures KeyOf(s, k, j) == KeyOf(Write(s, at, b), k, j)
  {
    SlotsFit(k, j);
    WriteReads(s, at, b, SlotAt(k, j) + KEY_POS, k);
  }

  lemma HeaderStays(s: seq<Byte>, at: nat, b: seq<Byte>)
    requires |s| == BLOCK_SZ && NODE_HDR_SZ <= at && at + |b| <= BLOCK_SZ
    ensures SameHeader(s, Write(s, at, b))
  {
    WriteReads(s, at, b, 0, NODE_HDR_SZ);
    assert Part(s, 0, NODE_HDR_SZ) == s[..NODE_HDR_SZ];
    assert Part(Write(s, at, b), 0, NODE_HDR_SZ) == Write(s, at, b)[..NODE_HDR_SZ];
  }

  /** Writing a pointer changes that pointer and nothing else. */
  lemma PointerWritten(s: seq<Byte>, k: nat, i: nat, v: int)
    requires |s| == BLOCK_SZ && i <= Order(k) && Int64(v)
    ensures SlotAt(k, i) + CHILD_OFFSET_SZ <= BLOCK_SZ
    ensures var t := Write(s, SlotAt(k, i), Int64Bytes(v));
            Pointer(t, k, i) == v && SamePointers(s, t, k, i) && SameKeys(s, t, k, -1) && SameHeader(s, t)
  {
    SlotsFit(k, i);
    PointerReads(s, k, i, v);
    HeaderStays(s, SlotAt(k, i), Int64Bytes(v));
    PointersStay(s, k, i, SlotAt(k, i), Int64Bytes(v));
    KeysStay(s, k, i, SlotAt(k, i), Int64Bytes(v));
    forall j: nat | j < Order(k) ensures KeyOf(s, k, j) == KeyOf(Write(s, SlotAt(k, i), Int64Bytes(v)), k, j) {
      if j == i { KeyStays(s, SlotAt(k, i), Int64Bytes(v), k, i); }
    }
  }

  /** A write inside slot `i` changes no other slot. */
  lemma PointersStay(s: seq<Byte>, k: nat, i: nat, at: nat, b: seq<Byte>)
    requires |s| == BLOCK_SZ && at + |b| <= BLOCK_SZ
    requires SlotAt(k, i) <= at && at + |b| <= SlotAt(k, i) + CHILD_OFFSET_SZ + k
    ensures SamePointers(s, Write(s, at, b), k, i)
  {
    forall j: nat | j <= Order(k) && j != i ensures Pointer(s, k, j) == Pointer(Write(s, at, b), k, j) {
      OtherSlots(k, i, j);
      PointerStays(s, at, b, k, j);
    }
  }

  lemma KeysStay(s: seq<Byte>, k: nat, i: nat, at: nat, b: seq<Byte>)
    requires |s| == BLOCK_SZ && at + |b| <= BLOCK_SZ
    requires SlotAt(k, i) <= at && at + |b| <= SlotAt(k, i) + CHILD_OFFSET_SZ + k
    ensures SameKeys(s, Write(s, at, b), k, i)
  {
    forall j: nat | j < Order(k) && j != i ensures KeyOf(s, k, j) == KeyOf(Write(s, at, b), k, j) {
      OtherSlots(k, i, j);
      KeyStays(s, at, b, k, j);
    }
  }

  lemma PointerReads(s: seq<Byte>, k: nat, i: nat, v: int)
    requires |s| == BLOCK_SZ && i <= Order(k) && Int64(v) && SlotAt(k, i) + CHILD_OFFSET_SZ <= BLOCK_SZ
    ensures Pointer(Write(s, SlotAt(k, i), Int64Bytes(v)), k, i) == v
  {
    Int64Back(v);
    WriteReads(s, SlotAt(k, i), Int64Bytes(v), 0, 0);
  }

  /** Writing a key of the index's size changes that key and nothing else. */
  lemma KeyWritten(s: seq<Byte>, k: nat, i: nat, key: seq<Byte>)
    requires |s| == BLOCK_SZ && i < Order(k) && |key| == k
    ensures SlotAt(k, i) + KEY_POS + k <= BLOCK_SZ
    ensures var t := Write(s, SlotAt(k, i) + KEY_POS, key);
            KeyOf(t, k, i) == key && SameKeys(s, t, k, i) && SamePointers(s, t, k, -1) && SameHeader(s, t)
  {
    SlotsFit(k, i);
    var at := SlotAt(k, i) + KEY_POS;
    var t := Write(s, at, key);
    WriteReads(s, at, key, 0, 0);
    HeaderStays(s, at, key);
    PointersStay(s, k, i, at, key);
    PointerStays(s, at, key, k, i);
    KeysStay(s, k, i, at, key);
    assert SamePointers(s, t, k, -1) by {
      forall j: nat | j <= Order(k) ensures Pointer(s, k, j) == Pointer(t, k, j) { }
    }
  }

  // -------------------------------------------------------------- the buffer

  /** A node's block with the buffer index that every access moves. */
  class NodeBuffer {
    const bytes: array<Byte>
    const keySize: nat
    var index: nat

    predicate Valid()
      reads this
    {
      bytes.Length == BLOCK_SZ && index <= BLOCK_SZ
    }

    constructor (keySize: nat)
      ensures Valid() && fresh(bytes) && this.keySize == keySize
    {
      bytes := new Byte[BLOCK_SZ](_ => 0);
      this.keySize, index := keySize, 0;
    }

    /** `put_varchar` at a position: byte by byte. */
    method PutBytes(at: nat, b: seq<Byte>)
      requires Valid() && at + |b| <= BLOCK_SZ
      modifies this`index, bytes
      ensures Valid() && index == at + |b| && bytes[..] == Write(old(bytes[..]), at, b)
    {
      index := at;
      for i := 0 to |b|
        invariant index == at + i
        invariant bytes[..] == Write(old(bytes[..]), at, b[..i])
      {
        bytes[index] := b[i];
        index := index + 1;
        assert b[..i + 1] == b[..i] + [b[i]];
      }
      assert b[..|b|] == b;
    }

    /** `get_varchar` at a position. */
    method GetBytes(at: nat, n: nat) returns (b: seq<Byte>)
      requires Valid() && at + n <= BLOCK_SZ
      modifies this`index
      ensures Valid() && index == at + n && b == Part(bytes[..], at, n)
    {
      index := at;
      b := [];
      for i := 0 to n
        invariant index == at + i && b == bytes[at..at + i]
      {
        b := b + [bytes[index]];
        index := index + 1;
      }
    }

    /** `put_child_offset` */
    method PutChild(i: nat, offset: int)
      requires Valid() && i <= Order(keySize) && Int64(offset)
      modifies this`index, bytes
      ensures Valid() && Pointer(bytes[..], keySize, i) == offset
      ensures SamePointers(old(bytes[..]), bytes[..], keySize, i) && SameKeys(old(bytes[..]), bytes[..], keySize, -1)
      ensures SameHeader(old(bytes[..]), bytes[..])
    {
      PointerWritten(bytes[..], keySize, i, offset);
      PutBytes(SlotAt(keySize, i), Int64Bytes(offset));
    }

    /** `get_child_offset` */
    method GetChild(i: nat) returns (offset: int)
      requires Valid() && i <= Order(keySize)
      modifies this`index
      ensures Valid() && offset == Pointer(bytes[..], keySize, i)
    {
      SlotsFit(keySize, i);
      var b := GetBytes(SlotAt(keySize, i), CHILD_OFFSET_SZ);
      offset := ReadInt64(b);
    }

    /** `put_element`: a leaf combines block offset and row position, an inner node leaves the pointer alone. */
    method PutElement(i: nat, leaf: bool, block: int, row: int, key: seq<Byte>)
      requires Valid() && i < Order(keySize) && |key| == keySize && Int64(block + row)
      modifies this`index, bytes
      ensures Valid() && KeyOf(bytes[..], keySize, i) == key
      ensures Pointer(bytes[..], keySize, i) == if leaf then block + row else Pointer(old(bytes[..]), keySize, i)
      ensures SamePointers(old(bytes[..]), bytes[..], keySize, i) && SameKeys(old(bytes[..]), bytes[..], keySize, i)
      ensures SameHeader(old(bytes[..]), bytes[..])
    {
      if leaf { PutChild(i, block + row); }
      KeyWritten(bytes[..], keySize, i, key);
      PutBytes(SlotAt(keySize, i) + KEY_POS, key);
    }

    /** `get_element`: the pointer of a leaf is split into block offset and row position. */
    method GetElement(i: nat, leaf: bool) returns (block: int, row: int, key: seq<Byte>)
      requires Valid() && i < Order(keySize)
      modifies this`index
      ensures Valid() && key == KeyOf(bytes[..], keySize, i)
      ensures leaf ==> block + row == Pointer(bytes[..], keySize, i) && row == IndexStore.Rem(Pointer(bytes[..], keySize, i), BLOCK_SZ)
      ensures leaf && Pointer(bytes[..], keySize, i) >= 0 ==> 0 <= row < BLOCK_SZ && block % BLOCK_SZ == 0
      ensures !leaf ==> block == 0 && row == 0
    {
      block, row := 0, 0;
      if leaf {
        var combined := GetChild(i);
        row := IndexStore.Rem(combined, BLOCK_SZ);
        block := combined - row;
        if combined >= 0 { assert block == BLOCK_SZ * (combined / BLOCK_SZ); Multiple(combined / BLOCK_SZ); }
      }
      SlotsFit(keySize, i);
      key := GetBytes(SlotAt(keySize, i) + KEY_POS, keySize);
    }
  }

  lemma Multiple(q: int)
    ensures (BLOCK_SZ * q) % BLOCK_SZ == 0
  {
  }

  /** Block offset and row position come back from their sum. */
  lemma SplitBack(block: int, row: int, b: int, r: int)
    requires 0 <= block && block % BLOCK_SZ == 0 && 0 <= row < BLOCK_SZ
    requires b + r == block + row && 0 <= r < BLOCK_SZ && b % BLOCK_SZ == 0
    ensures b == block && r == row
  {
  }
}

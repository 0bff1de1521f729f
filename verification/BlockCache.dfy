/** The block cache over the table file: who uses it sees one flat file of blocks. */
module BlockCache {
  import opened Prelude


  /** What a client of the cache sees: the cached version of a block, else the one on disk. */
  function Flat<D>(disk: map<int, D>, cache: map<int, D>): map<int, D> {
    disk + cache
  }

  /** `flush_cache` up to some entry of the list: the cached blocks of these offsets are on disk. */
  function Flushed<D>(disk: map<int, D>, cache: map<int, D>, list: seq<int>): map<int, D> {
    if list == [] then disk
    else
      var d := Flushed(disk, cache, list[..|list| - 1]);
      var o := list[|list| - 1];
      if o in cache then d[o := cache[o]] else d
  }

  lemma {:induction false} FlushedAt<D>(disk: map<int, D>, cache: map<int, D>, list: seq<int>, o: int)
    ensures o in Flushed(disk, cache, list) <==> o in disk || (o in cache && o in list)
    ensures o in Flushed(disk, cache, list) ==>
              Flushed(disk, cache, list)[o] == if o in cache && o in list then cache[o] else disk[o]
    decreases |list|
  {
    if list != [] {
      var front, last := list[..|list| - 1], list[|list| - 1];
      FlushedAt(disk, cache, front, o);
      assert o in list <==> o in front || o == last by { assert list == front + [last]; }
    }
  }

  /** Every cached block that the disk does not hold in this version is on the flush list. */
  ghost predicate Covered<D>(disk: map<int, D>, cache: map<int, D>, list: seq<int>) {
    forall o :: o in cache && o !in list ==> o in disk && disk[o] == cache[o]
  }

  /** Flushing brings the disk to what clients see exactly when every changed block is on the list. */
  lemma FlushIff<D>(disk: map<int, D>, cache: map<int, D>, list: seq<int>)
    ensures Flushed(disk, cache, list) == Flat(disk, cache) <==> Covered(disk, cache, list)
  {
    var d, f := Flushed(disk, cache, list), Flat(disk, cache);
    forall o ensures (o in d <==> o in disk || (o in cache && o in list))
                  && (o in d ==> d[o] == if o in cache && o in list then cache[o] else disk[o]) {
      FlushedAt(disk, cache, list, o);
    }
    if Covered(disk, cache, list) {
      forall o ensures (o in d <==> o in f) && (o in d ==> d[o] == f[o]) { }
    } else if d == f {
      forall o | o in cache && o !in list ensures o in disk && disk[o] == cache[o] {
        assert o in f;
      }
    }
  }

  /** A block changed in the cache alone, with nothing on the list: the flush does not write it. */
  lemma ForgottenFlush<D>(offset: int, was: D, now: D)
    requires was != now
    ensures Flushed(map[offset := was], map[offset := now], []) != Flat(map[offset := was], map[offset := now])
  {
    var disk, cache := map[offset := was], map[offset := now];
    FlushIff(disk, cache, []);
    assert offset in cache && offset !in [] && disk[offset] != cache[offset];
  }

  class Cache<D> {
    var disk: map<int, D>
    var cache: map<int, D>
    var flushList: seq<int>
    var nextOffset: int   // of the schema's header

    /** A flush would lose nothing of this block. */
    ghost predicate Clean(offset: int)
      reads this
    {
      offset in cache && offset !in flushList ==> offset in disk && disk[offset] == cache[offset]
    }

    ghost predicate Bounded()
      reads this
    {
      forall o :: o in disk || o in cache ==> o < nextOffset
    }

    /** Offsets have been given out, and a flush would lose nothing. */
    ghost predicate Valid()
      reads this
    {
      Covered(disk, cache, flushList) && Bounded()
    }

    lemma ValidIffClean()
      ensures Valid() <==> Bounded() && forall o :: Clean(o)
    {
      if Valid() {
        forall o ensures Clean(o) { }
      } else if Bounded() && forall o :: Clean(o) {
        forall o | o in cache && o !in flushList ensures o in disk && disk[o] == cache[o] { assert Clean(o); }
      }
    }

    constructor (disk: map<int, D>, nextOffset: int)
      requires forall o :: o in disk ==> o < nextOffset
      ensures Valid() && Flat(this.disk, cache) == disk && this.disk == disk
    {
      this.disk, cache, flushList, this.nextOffset := disk, map[], [], nextOffset;
    }

    /** `get_block`; the block comes from the cache or is loaded into it. */
    method GetBlock(offset: int) returns (b: Option<D>)
      requires Valid()
      modifies this`cache
      ensures Valid() && Flat(disk, cache) == Flat(disk, old(cache))
      ensures b == if offset >= 0 && offset % BLOCK_SZ == 0 && offset in Flat(disk, old(cache))
                   then Some(Flat(disk, old(cache))[offset]) else None
      ensures b.Some? ==> offset in cache
    {
      if offset < 0 || offset % BLOCK_SZ != 0 { return None; }
      if offset in cache { return Some(cache[offset]); }
      b := LoadBlock(offset);
    }

    method LoadBlock(offset: int) returns (b: Option<D>)
      requires Valid() && offset !in cache
      modifies this`cache
      ensures Valid() && Flat(disk, cache) == Flat(disk, old(cache))
      ensures b == if offset in disk then Some(disk[offset]) else None
      ensures b.Some? ==> offset in cache
    {
      if offset >= nextOffset || offset !in disk { return None; }
      b := Some(disk[offset]);
      cache := cache[offset := disk[offset]];
    }

    /** `new_block`: written out at once, and cached. */
    method NewBlock(offset: int, data: D)
      requires Valid() && offset < nextOffset
      modifies this`disk, this`cache
      ensures Valid() && Flat(disk, cache) == old(Flat(disk, cache))[offset := data]
      ensures disk == old(disk)[offset := data] && cache == old(cache)[offset := data]
    {
      disk := disk[offset := data];
      cache := cache[offset := data];
    }

    /** `flush_block`: remember the offset, once. */
    method FlushBlock(offset: int)
      modifies this`flushList
      ensures offset in flushList && forall o :: o != offset ==> (o in flushList <==> o in old(flushList))
      ensures flushList == if offset in old(flushList) then old(flushList) else old(flushList) + [offset]
    {
      var i := 0;
      while i < |flushList| && flushList[i] != offset
        invariant i <= |flushList| && forall j :: 0 <= j < i ==> flushList[j] != offset
      {
        i := i + 1;
      }
      if i == |flushList| { flushList := flushList + [offset]; }
    }

    /** A change of a cached block in place, followed by `flush_block` as it should be. */
    method WriteAndFlush(offset: int, data: D)
      requires Valid() && offset in cache
      modifies this`cache, this`flushList
      ensures Valid() && Flat(disk, cache) == old(Flat(disk, cache))[offset := data] && offset in cache
    {
      ValidIffClean();
      WriteOnly(offset, data);
      ghost var dirty := cache;
      FlushBlock(offset);
      assert forall o :: o != offset && o in dirty && o !in flushList ==> o in disk && disk[o] == dirty[o];
    }

    /** A change in place that nobody flushes is safe exactly when the block is on the list or does not change. */
    method WriteOnly(offset: int, data: D)
      requires Bounded() && offset in cache
      modifies this`cache
      ensures Bounded() && cache == old(cache)[offset := data]
      ensures Flat(disk, cache) == old(Flat(disk, cache))[offset := data]
      ensures Clean(offset) <==> offset in flushList || (offset in disk && disk[offset] == data)
      ensures forall o :: o != offset ==> (Clean(o) <==> old(Clean(o)))
    {
      cache := cache[offset := data];
    }

    /** `flush_cache`: afterwards the disk is what clients see. */
    method FlushCache()
      requires Valid()
      modifies this`disk, this`flushList
      ensures Valid() && flushList == [] && disk == Flat(old(disk), cache) && Flat(disk, cache) == old(Flat(disk, cache))
    {
      ghost var before := disk;
      for i := 0 to |flushList|
        invariant flushList == old(flushList)
        invariant disk == Flushed(before, cache, flushList[..i])
      {
        assert flushList[..i + 1][..i] == flushList[..i];
        var o := flushList[i];
        if o in cache { disk := disk[o := cache[o]]; }
      }
      assert flushList[..|flushList|] == flushList;
      FlushIff(before, cache, flushList);
      flushList := [];
    }

    /** `drop_block`: clients notice exactly when the disk does not hold the block in its last version. */
    method DropBlock(offset: int)
      requires Valid()
      modifies this`cache
      ensures Valid() && offset !in cache
      ensures Flat(disk, cache) == old(Flat(disk, cache))
         <==> offset !in old(cache) || (offset in disk && disk[offset] == old(cache)[offset])
    {
      ghost var was := cache;
      cache := map o | o in cache && o != offset :: cache[o];
      if offset in was && !(offset in disk && disk[offset] == was[offset]) {
        assert Flat(disk, was)[offset] == was[offset];
        assert offset in Flat(disk, cache) ==> Flat(disk, cache)[offset] == disk[offset];
      }
    }
  }
}

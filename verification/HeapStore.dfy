/** The row heap over the block cache: which changes of an insert reach the disk. */
module HeapStore {
  import opened Prelude
  import opened HeapBlock
  import opened HeapFile
  import opened BlockCache

  /** Clients of the cache see the blocks of the heap. */
  ghost predicate Same(heap: Heap, file: Cache<Block>)
    reads heap, file
  {
    Flat(file.disk, file.cache) == heap.blocks && file.nextOffset == heap.nextOffset
  }

  /** Bring the last block into the cache. */
  method Fetch(heap: Heap, file: Cache<Block>)
    requires heap.Valid() && file.Valid() && Same(heap, file) && heap.dataOffset in heap.blocks
    modifies file`cache
    ensures file.Valid() && Same(heap, file) && heap.dataOffset in file.cache
  {
    var b := file.GetBlock(heap.dataOffset);
    assert b.Some?;
  }

  /** A new block is written out when it is made, and filled in the cache. */
  method NewAt(file: Cache<Block>, at: int, b: Block)
    requires file.Valid() && at < file.nextOffset
    modifies file
    ensures file.Bounded() && file.flushList == old(file.flushList) && file.nextOffset == old(file.nextOffset)
    ensures file.disk == old(file.disk)[at := EMPTY_BLOCK] && file.cache == old(file.cache)[at := b]
    ensures forall o :: o != at ==> file.Clean(o)
  {
    file.NewBlock(at, EMPTY_BLOCK);
    file.ValidIffClean();
    file.WriteOnly(at, b);
  }

  /** The last block is told about the new one, in the cache only. */
  method Relink(file: Cache<Block>, last: int, b: Block)
    requires file.Bounded() && last in file.cache && file.Clean(last) && b != file.cache[last]
    modifies file`cache
    ensures file.Bounded() && file.cache == old(file.cache)[last := b]
    ensures file.Clean(last) <==> last in file.flushList
    ensures forall o :: o != last ==> (file.Clean(o) <==> old(file.Clean(o)))
  {
    file.WriteOnly(last, b);
  }

  lemma OpenedSame(disk: map<int, Block>, cache: map<int, Block>, blocks: Blocks, last: int, at: int)
    requires Flat(disk, cache) == blocks && at !in blocks && (last in blocks ==> last in cache)
    ensures var after := Extended(blocks, last, at);
            at in after && (last in blocks ==> last in after && after[last] == blocks[last].(nextSib := at))
            && Flat(disk[at := EMPTY_BLOCK],
                    if last in blocks then cache[at := after[at]][last := after[last]] else cache[at := after[at]]) == after
  {
  }

  /** The file's side of a new block behind the last one, which is relinked but not put on the flush list. */
  method OpenFile(file: Cache<Block>, last: int, at: int, first: Block, relinked: Option<Block>, next: int, ghost blocks: Blocks)
    requires file.Valid() && Flat(file.disk, file.cache) == blocks && at !in blocks && file.nextOffset <= next && last != at < next
    requires relinked.Some? <==> last in blocks
    requires last in blocks ==> last in file.cache && blocks[last].nextSib != at && relinked.value == blocks[last].(nextSib := at)
    requires at in Extended(blocks, last, at) && first == Extended(blocks, last, at)[at]
    modifies file
    ensures file.Bounded() && file.nextOffset == next && file.flushList == old(file.flushList)
    ensures Flat(file.disk, file.cache) == Extended(blocks, last, at) && at in file.cache
    ensures forall o :: o != at && o != last ==> file.Clean(o)
    ensures file.Clean(last) <==> last in file.flushList || last !in blocks
  {
    OpenedSame(file.disk, file.cache, blocks, last, at);
    file.nextOffset := next;
    NewAt(file, at, first);
    if relinked.Some? { Relink(file, last, relinked.value); }
  }

  lemma NewOffset(heap: Heap)
    requires heap.Valid()
    ensures heap.nextOffset !in heap.blocks
  {
  }

  /** A new block behind the last one, in the heap and in the file. */
  method Open(heap: Heap, file: Cache<Block>, size: nat)
    requires heap.Valid() && file.Valid() && Same(heap, file) && ROW_HDR_SZ <= size <= BLOCK_SZ - DATA_HDR_SZ
    requires !heap.HasRoom(size) && (heap.dataOffset in heap.blocks ==> heap.dataOffset in file.cache)
    modifies heap, file
    ensures heap.Valid() && file.Bounded() && Same(heap, file) && heap.HasRoom(size)
    ensures heap.Live() == old(heap.Live()) && heap.dataOffset in file.cache
    ensures file.flushList == old(file.flushList) && heap.dataOffset != old(heap.dataOffset)
    ensures forall o :: o != heap.dataOffset && o != old(heap.dataOffset) ==> file.Clean(o)
    ensures file.Clean(old(heap.dataOffset)) <==>
              old(heap.dataOffset) in file.flushList || old(heap.dataOffset) !in old(heap.blocks)
  {
    var last, at := heap.dataOffset, heap.nextOffset;
    ghost var blocks := heap.blocks;
    heap.LastBlock();
    NewOffset(heap);
    OpenedSame(file.disk, file.cache, blocks, last, at);
    heap.MakeRoom(size);
    OpenFile(file, last, at, heap.blocks[at], if last >= 0 then Some(heap.blocks[last]) else None, heap.nextOffset, blocks);
  }

  /** The row is put into the last block, which is flushed. */
  method PutStored(heap: Heap, file: Cache<Block>, size: nat, body: seq<Byte>) returns (at: Place)
    requires heap.Valid() && file.Bounded() && Same(heap, file) && ROW_HDR_SZ <= size <= BLOCK_SZ - DATA_HDR_SZ
    requires heap.HasRoom(size) && heap.dataOffset in file.cache
    modifies heap, file
    ensures heap.Valid() && file.Bounded() && Same(heap, file) && heap.Live() == old(heap.Live()) + [at]
    ensures heap.dataOffset == old(heap.dataOffset) && file.Clean(heap.dataOffset)
    ensures forall o :: o != heap.dataOffset ==> (file.Clean(o) <==> old(file.Clean(o)))
  {
    at := heap.Insert(size, body);
    file.WriteOnly(heap.dataOffset, heap.blocks[heap.dataOffset]);
    ghost var cache := file.cache;
    file.FlushBlock(heap.dataOffset);
    assert file.cache == cache;
  }

  /**
   `tree::insert` of a row.  Nothing is left unflushed if and only if no block was opened behind
   another one, or that one was on the flush list already.
   */
  method InsertStored(heap: Heap, file: Cache<Block>, size: nat, body: seq<Byte>) returns (at: Place)
    requires heap.Valid() && file.Valid() && Same(heap, file) && ROW_HDR_SZ <= size <= BLOCK_SZ - DATA_HDR_SZ
    modifies heap, file
    ensures heap.Valid() && Same(heap, file) && heap.Live() == old(heap.Live()) + [at]
    ensures file.Valid() <==>
              old(heap.HasRoom(size)) || old(heap.dataOffset) !in old(heap.blocks) || old(heap.dataOffset) in old(file.flushList)
  {
    if heap.dataOffset in heap.blocks { Fetch(heap, file); }
    file.ValidIffClean();
    if !heap.HasRoom(size) { Open(heap, file, size); }
    at := PutStored(heap, file, size, body);
    file.ValidIffClean();
  }
}

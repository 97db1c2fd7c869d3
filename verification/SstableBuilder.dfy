/** From a memtable to an open sstable (mirdb-server/src/sstable_builder.rs). */
module SstableBuilders {
  import opened Bytes
  import opened Runs
  import opened BlockFormat
  import opened BlockBuilders
  import opened TableFormat
  import opened TableSizes
  import opened TableBuilders
  import opened TableReaders
  import opened Caches

  lemma NotZeroExtended(a: Key, k: Key)
    requires 0 !in k
    ensures k != a + [0]
  {
    assert (a + [0])[|a|] == 0;
  }

  /** The last key of a builder's block is the last key added. */
  lemma BuilderLast(tb: TableBuilder, all: Run)
    requires tb.Valid() && tb.Contents() == all && all != []
    ensures tb.dataBlock.lastKey == all[|all| - 1].key
  {
    hide Less, Flatten, Block, Body, Written, RestartOffsets, Truncated, SinceRestart, Bounds, Sorted, NonEmptyKeys;
    ContentsLast(tb.blocks, tb.indexBlock.entries, tb.dataBlock.entries);
  }

  /** The loop over the memtable. */
  method AddAll(tb: TableBuilder, run: Run)
    requires tb.Valid() && tb.Contents() == [] && Sorted(run) && NonEmptyKeys(run) && NulFree(run)
    modifies tb, tb.dataBlock, tb.indexBlock
    ensures tb.Valid() && tb.Contents() == run
    ensures tb.indexBlock == old(tb.indexBlock) && (tb.dataBlock == old(tb.dataBlock) || fresh(tb.dataBlock))
  {
    hide Less, TableBuilder.Valid, TableBuilder.Contents;
    var i := 0;
    while i < |run|
      modifies tb, tb.dataBlock, tb.indexBlock
      invariant 0 <= i <= |run| && tb.Valid() && tb.Contents() == run[..i]
      invariant tb.indexBlock == old(tb.indexBlock) && (tb.dataBlock == old(tb.dataBlock) || fresh(tb.dataBlock))
    {
      if i > 0 {
        BuilderLast(tb, run[..i]);
        NotZeroExtended(tb.dataBlock.lastKey, run[i].key);
      }
      tb.Add(run[i].key, run[i].value);
      assert run[..i + 1] == run[..i] + [run[i]];
      i := i + 1;
    }
    assert run[..i] == run;
  }

  /** Writes the entries of a memtable in order; an empty memtable gives no table. */
  method WriteSstable(codec: Codec, blockSize: nat, interval: nat, run: Run, meta: seq<byte>)
    returns (f: Option<TableFile>, ghost blocks: seq<Run>, ghost idx: Run)
    requires codec.Sound() && Tame(codec) && blockSize >= 8 && interval >= 1
    requires Sorted(run) && NonEmptyKeys(run) && NulFree(run) && Small(run)
    ensures f.None? <==> run == []
    ensures f.Some? ==> Flatten(blocks) == run && Represents(codec, f.value, blocks, idx, interval)
  {
    hide Less, Block, Body, Flatten, Written, Represents, Bounds, Small, Tame, ReadAt, TableBuilder.Valid;
    blocks, idx := [], [];
    if |run| == 0 {
      return None, [], [];
    }
    var tb := new TableBuilder(codec, blockSize, interval);
    AddAll(tb, run);
    var file, entries := tb.Flush(meta);
    blocks, idx := tb.blocks, entries;
    f := Some(file);
  }

  /** A memtable becomes an open table that holds exactly its entries. */
  method SkipListToSstable(codec: Codec, blockSize: nat, interval: nat, run: Run, meta: seq<byte>, cache: Cache)
    returns (reader: TableReader?)
    requires codec.Sound() && Tame(codec) && blockSize >= 8 && interval >= 1
    requires Sorted(run) && NonEmptyKeys(run) && NulFree(run) && Small(run)
    requires cache.Valid() && cache.id + 1 < TWO64
    modifies cache
    ensures reader == null <==> run == []
    ensures reader != null ==> fresh(reader) && reader.cache == cache && reader.Valid() && Flatten(reader.blocks) == run
    ensures cache.Valid() && cache.id <= old(cache.id) + 1 && Extends(old(cache.dirs), cache.dirs)
  {
    hide Less, Block, Body, Flatten, Represents, Small, Tame, Sorted, DirectoryOf;
    var file, blocks, idx := WriteSstable(codec, blockSize, interval, run, meta);
    if file.None? {
      return null;
    }
    reader := new TableReader(codec, file.value, cache, blocks, idx, interval);
  }

  /** Build, open, look up: for every key the answer is the memtable's. */
  method BuildThenGet(codec: Codec, blockSize: nat, interval: nat, run: Run, meta: seq<byte>, cache: Cache, key: Key)
    returns (r: Option<Value>)
    requires codec.Sound() && Tame(codec) && blockSize >= 8 && interval >= 1
    requires Sorted(run) && NonEmptyKeys(run) && NulFree(run) && Small(run)
    requires cache.Valid() && cache.id + 1 < TWO64
    modifies cache
    ensures r == Find(run, key)
  {
    hide Less, Block, Body, Flatten, Represents, Small, Tame, Sorted, DirectoryOf, LowerBound;
    var reader := SkipListToSstable(codec, blockSize, interval, run, meta, cache);
    if reader == null {
      return None;
    }
    r := reader.Get(key);
  }
}

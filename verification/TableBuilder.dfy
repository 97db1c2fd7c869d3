/** Writes an sstable from an increasing list of keys (sstable/src/table_builder.rs). */
module TableBuilders {
  import opened Bytes
  import opened Runs
  import opened Coding
  import opened Separators
  import opened BlockFormat
  import opened BlockBuilders
  import opened TableFormat
  import opened TableSizes

  /** The blocks already in the file, found through the index entries written for them. */
  ghost predicate Written(c: Codec, file: seq<byte>, blocks: seq<Run>, idx: Run, k: nat)
    requires k >= 1
  {
    && Separates(blocks, idx)
    && (forall b :: 0 <= b < |blocks| ==> ReadAt(c, file, DecodeHandle(idx[b].value)) == Some(Block(blocks[b], k)))
    && (forall b :: 0 <= b < |blocks| ==> OffsetOf(idx, b) < |file|)
    && (forall a, b :: 0 <= a < b < |blocks| ==> OffsetOf(idx, a) < OffsetOf(idx, b))
  }

  /** The file holds nothing but these blocks, one after the other. */
  ghost predicate Laid(c: Codec, file: seq<byte>, blocks: seq<Run>, idx: Run, k: nat)
    requires k >= 1
  {
    Written(c, file, blocks, idx, k) && Lean(c, blocks, idx, k) && |file| == FrameTotal(c, blocks, k)
  }

  /** The entries still in memory come after everything in the file. */
  ghost predicate Follows(blocks: seq<Run>, idx: Run, cur: Run) {
    && |idx| == |blocks|
    && (cur == [] ==> blocks == [])
    && (cur != [] && blocks != [] ==> Less(idx[|idx| - 1].key, cur[0].key))
  }

  ghost function Keys(es: Run): set<Key> {
    set e | e in es :: e.key
  }

  ghost predicate Bounds(all: Run, min: Option<Key>, max: Option<Key>, filter: set<Key>) {
    && filter == Keys(all)
    && min == (if all == [] then None else Some(all[0].key))
    && max == (if all == [] then None else Some(all[|all| - 1].key))
  }

  class TableBuilder {
    const codec: Codec
    const blockSize: nat
    const interval: nat
    var file: seq<byte>
    var offset: nat
    var totalSizeEstimate: nat
    var dataBlock: BlockBuilder
    var indexBlock: BlockBuilder
    var minKey: Option<Key>
    var maxKey: Option<Key>
    var filter: set<Key>
    ghost var blocks: seq<Run>

    ghost function Contents(): Run
      reads this, dataBlock
    {
      Flatten(blocks) + dataBlock.entries
    }

    ghost predicate Valid()
      reads this, dataBlock, indexBlock
    {
      && dataBlock != indexBlock && codec.Sound() && blockSize >= 8
      && dataBlock.Valid() && dataBlock.interval == interval
      && indexBlock.Valid() && indexBlock.interval == interval
      && offset == |file|
      && Laid(codec, file, blocks, indexBlock.entries, interval)
      && Follows(blocks, indexBlock.entries, dataBlock.entries)
      && Sorted(Contents()) && NonEmptyKeys(Contents())
      && Bounds(Contents(), minKey, maxKey, filter)
    }

    constructor (codec: Codec, blockSize: nat, interval: nat)
      requires codec.Sound() && blockSize >= 8 && interval >= 1
      ensures Valid() && Contents() == [] && blocks == [] && fresh(dataBlock) && fresh(indexBlock)
      ensures this.codec == codec && this.blockSize == blockSize && this.interval == interval && totalSizeEstimate == 0
    {
      this.codec, this.blockSize, this.interval := codec, blockSize, interval;
      file, offset, totalSizeEstimate := [], 0, 0;
      minKey, maxKey, filter := None, None, {};
      dataBlock := new BlockBuilder(interval);
      indexBlock := new BlockBuilder(interval);
      blocks := [];
    }

    /** Adds an entry above all earlier ones; the current block is written first exactly if it has grown
        beyond the block size. Where a block ends, the key may not be its predecessor with one
        NUL byte appended: no index key fits between those two. */
    method Add(k: Key, v: Value)
      requires Valid() && k != []
      requires Contents() != [] ==> Less(dataBlock.lastKey, k)
      requires dataBlock.SizeEstimate() > blockSize ==> k != dataBlock.lastKey + [0]
      modifies this, dataBlock, indexBlock
      ensures Valid() && Contents() == old(Contents()) + [Entry(k, v)]
      ensures indexBlock == old(indexBlock) && (dataBlock == old(dataBlock) || fresh(dataBlock))
      ensures totalSizeEstimate == old(totalSizeEstimate) + |k| + |v|
      ensures blocks == old(blocks) +
              if old(|Block(dataBlock.entries, interval)|) > blockSize then [old(dataBlock.entries)] else []
    {
      hide Less, Block, Body, Flatten, Laid, RestartOffsets, Truncated, SinceRestart, Sorted, NonEmptyKeys, Bounds;
      totalSizeEstimate := totalSizeEstimate + |k| + |v|;
      ghost var all := Contents();
      ContentsLast(blocks, indexBlock.entries, dataBlock.entries);
      ContentsGrow(all, Entry(k, v), minKey, maxKey, filter);
      if dataBlock.entries != [] { LessAsymmetric(dataBlock.lastKey, k); }
      dataBlock.EstimateIsLength();
      MakeRoom(k, v);
      Push(k, v, all);
    }

    /** Puts the entry in the current block and keeps the table's bounds. */
    method Push(k: Key, v: Value, ghost all: Run)
      requires dataBlock != indexBlock && codec.Sound() && blockSize >= 8 && offset == |file|
      requires dataBlock.Valid() && dataBlock.interval == interval && indexBlock.Valid() &&
               indexBlock.interval == interval
      requires dataBlock.entries != [] ==> !Less(k, dataBlock.lastKey)
      requires Laid(codec, file, blocks, indexBlock.entries, interval)
      requires Follows(blocks, indexBlock.entries, dataBlock.entries + [Entry(k, v)])
      requires Contents() == all && Sorted(all + [Entry(k, v)]) && NonEmptyKeys(all + [Entry(k, v)])
      requires Bounds(all + [Entry(k, v)], if minKey.None? then Some(k) else minKey, Some(k), filter + {k})
      modifies `minKey, `maxKey, `filter, dataBlock
      ensures Valid() && Contents() == all + [Entry(k, v)]
    {
      hide Less, Block, Body, Flatten, Laid, RestartOffsets, Truncated, SinceRestart, Sorted, NonEmptyKeys, Bounds;
      EmptyBody(dataBlock.entries, interval);
      ghost var cur := dataBlock.entries;
      dataBlock.Add(k, v);
      assert Contents() == all + [Entry(k, v)] by { ConcatAssoc(Flatten(blocks), cur, Entry(k, v)); }
      filter := filter + {k};
      if minKey.None? {
        minKey := Some(k);
      }
      maxKey := Some(k);
    }

    /** Writes the current block if it is full; what the table holds stays the same. */
    method MakeRoom(k: Key, ghost v: Value)
      requires Valid() && (Contents() != [] ==> Less(dataBlock.lastKey, k))
      requires dataBlock.SizeEstimate() > blockSize ==> k != dataBlock.lastKey + [0]
      modifies `file, `offset, `dataBlock, `blocks, dataBlock, indexBlock
      ensures dataBlock != indexBlock && indexBlock == old(indexBlock) &&
              (dataBlock == old(dataBlock) || fresh(dataBlock))
      ensures dataBlock.Valid() && dataBlock.interval == interval && indexBlock.Valid() && offset == |file|
      ensures Contents() == old(Contents())
      ensures dataBlock.entries != [] ==> dataBlock.entries == old(dataBlock.entries)
      ensures blocks == old(blocks) + if old(dataBlock.SizeEstimate()) > blockSize then [old(dataBlock.entries)] else []
      ensures Laid(codec, file, blocks, indexBlock.entries, interval)
      ensures Follows(blocks, indexBlock.entries, dataBlock.entries + [Entry(k, v)])
    {
      hide Less, Block, Body, Flatten, Laid, RestartOffsets, Truncated, SinceRestart, NonEmptyKeys, Bounds;
      EmptyBuilder(dataBlock);
      CurrentSorted(blocks, dataBlock.entries);
      ContentsLast(blocks, indexBlock.entries, dataBlock.entries);
      if dataBlock.SizeEstimate() > blockSize {
        FlattenPush(blocks, dataBlock.entries);
        ghost var all := Contents();
        WriteDataBlock(k);
        assert Flatten(blocks) + [] == all;
        LaidLength(codec, file, blocks, indexBlock.entries, interval);
      }
    }

    lemma EmptyBuilder(b: BlockBuilder)
      requires b.Valid()
      ensures b.entries == [] ==> b.SizeEstimate() == 8
    {
    }

    /** Writes the current block and its index entry, with a separator below `next`. */
    method WriteDataBlock(next: Key)
      requires dataBlock != indexBlock && codec.Sound()
      requires dataBlock.Valid() && dataBlock.interval == interval
      requires indexBlock.Valid() && indexBlock.interval == interval && offset == |file|
      requires Laid(codec, file, blocks, indexBlock.entries, interval)
      requires Follows(blocks, indexBlock.entries, dataBlock.entries)
      requires dataBlock.entries != [] && Sorted(dataBlock.entries) && Less(dataBlock.lastKey, next)
      modifies `file, `offset, `dataBlock, `blocks, dataBlock, indexBlock
      ensures dataBlock != indexBlock && indexBlock == old(indexBlock) && fresh(dataBlock)
      ensures dataBlock.Valid() && dataBlock.interval == interval && dataBlock.entries == []
      ensures indexBlock.Valid() && offset == |file|
      ensures blocks == old(blocks) + [old(dataBlock.entries)]
      ensures Laid(codec, file, blocks, indexBlock.entries, interval)
      ensures next != old(dataBlock.lastKey) + [0] ==> Less(indexBlock.entries[|blocks| - 1].key, next)
    {
      hide Less, Block, Body, Laid, Frame, EncodeHandle, RestartOffsets, Truncated, SinceRestart;
      ghost var es, idx := dataBlock.entries, indexBlock.entries;
      var sep := FindShortestSep(dataBlock.lastKey, next);
      NextIndexKey(blocks, idx, es, sep);
      var raw := dataBlock.Finish();
      var framed := Frame(codec, raw);
      var h := Handle(offset, |framed|);
      BlockLaid(codec, file, blocks, idx, interval, es, sep);
      file := file + framed;
      offset := h.offset + h.size;
      EmptyBody(idx, interval);
      indexBlock.Add(sep, EncodeHandle(h));
      dataBlock := new BlockBuilder(interval);
      blocks := blocks + [es];
    }

    /** Finishes the table. The serialized meta block is given; it goes between data and index. Entries
        that are small give a file that can be read back, and handles that fit the builder's buffer. */
    method Flush(meta: seq<byte>) returns (f: TableFile, ghost idx: Run)
      requires Valid() && Contents() != []
      modifies this, dataBlock, indexBlock
      ensures Flatten(blocks) == old(Contents())
      ensures f.bytes == file
      ensures Written(codec, f.bytes, blocks, idx, interval)
      ensures ReadAt(codec, f.bytes, f.index) == Some(Block(idx, interval))
      ensures Bounds(Flatten(blocks), Some(f.min), Some(f.max), f.filter)
      ensures Tame(codec) && Small(old(Contents())) ==>
                Represents(codec, f, blocks, idx, interval) && forall b :: 0 <= b < |blocks| ==> |idx[b].value| <= 16
    {
      hide Less, Block, ReadAt, Body, Written, Lean, Frame, RestartOffsets, Truncated, SinceRestart, Flatten, Keys,
          FrameTotal, Small, Tame;
      ghost var all := Contents();
      var succ := FindShortSucc(dataBlock.lastKey);
      CurrentSorted(blocks, dataBlock.entries);
      ContentsLast(blocks, indexBlock.entries, dataBlock.entries);
      WriteDataBlock(succ);
      FlattenPush(old(blocks), old(dataBlock.entries));
      idx := indexBlock.entries;
      WrittenKept(codec, file, blocks, idx, interval, meta);
      file := file + meta;
      var raw := indexBlock.Finish();
      var framed := Frame(codec, raw);
      ReadAppended(codec, file, Block(idx, interval));
      WrittenKept(codec, file, blocks, idx, interval, framed);
      f := TableFile(file + framed, Handle(|file|, |framed|), minKey.value, maxKey.value, filter);
      file := file + framed;
      offset := |file|;
      if Tame(codec) && Small(all) {
        SmallIsInRange(codec, blocks, idx, interval);
        Finished(codec, f, blocks, idx, interval);
      }
    }
  }

  lemma ContentsGrow(all: Run, e: Entry, min: Option<Key>, max: Option<Key>, filter: set<Key>)
    requires Sorted(all) && NonEmptyKeys(all) && Bounds(all, min, max, filter)
    requires e.key != [] && (all != [] ==> Less(all[|all| - 1].key, e.key))
    ensures Sorted(all + [e]) && NonEmptyKeys(all + [e])
    ensures Bounds(all + [e], if min.None? then Some(e.key) else min, Some(e.key), filter + {e.key})
  {
    hide Less;
    SortedPush(all, e);
    assert Keys(all + [e]) == Keys(all) + {e.key};
  }

  lemma ConcatAssoc(a: Run, b: Run, e: Entry)
    ensures a + (b + [e]) == a + b + [e]
  {
  }

  lemma Finished(c: Codec, f: TableFile, blocks: seq<Run>, idx: Run, k: nat)
    requires c.Sound() && k >= 1 && blocks != [] && Written(c, f.bytes, blocks, idx, k) && InRange(blocks, idx, k)
    requires ReadAt(c, f.bytes, f.index) == Some(Block(idx, k))
    requires Sorted(Flatten(blocks)) && NonEmptyKeys(Flatten(blocks))
    requires Bounds(Flatten(blocks), Some(f.min), Some(f.max), f.filter)
    ensures Represents(c, f, blocks, idx, k)
  {
    hide Less, Block, ReadAt, Body, Flatten;
    FilterHasKeys(Flatten(blocks));
  }

  lemma EmptyBody(es: Run, k: nat)
    requires k >= 1
    ensures Body(es, k) == [] <==> es == []
  {
    hide IsRestart, CommonPrefix;
  }

  lemma FilterHasKeys(all: Run)
    ensures forall i :: 0 <= i < |all| ==> all[i].key in Keys(all)
  {
    assert forall i :: 0 <= i < |all| ==> all[i] in all;
  }

  lemma FlattenPush(blocks: seq<Run>, es: Run)
    ensures Flatten(blocks + [es]) == Flatten(blocks) + es
  {
    assert (blocks + [es])[..|blocks|] == blocks;
  }

  lemma CurrentSorted(blocks: seq<Run>, cur: Run)
    requires Sorted(Flatten(blocks) + cur)
    ensures Sorted(cur)
  {
    hide Less, Flatten;
    var all := Flatten(blocks) + cur;
    SortedSlice(all, |Flatten(blocks)|, |all|);
    assert all[|Flatten(blocks)|..|all|] == cur;
  }

  /** The new separator is above the index key before it. */
  lemma NextIndexKey(blocks: seq<Run>, idx: Run, cur: Run, sep: Key)
    requires Follows(blocks, idx, cur) && cur != [] && Sorted(cur) && Less(cur[|cur| - 1].key, sep)
    ensures idx != [] ==> Less(idx[|idx| - 1].key, sep) && !Less(sep, idx[|idx| - 1].key)
  {
    if idx != [] {
      var prev, first, last := idx[|idx| - 1].key, cur[0].key, cur[|cur| - 1].key;
      if first != last { LessTransitive(prev, first, last); }
      LessTransitive(prev, last, sep);
      LessAsymmetric(prev, sep);
    }
  }

  lemma WrittenKept(c: Codec, file: seq<byte>, blocks: seq<Run>, idx: Run, k: nat, more: seq<byte>)
    requires k >= 1 && Written(c, file, blocks, idx, k)
    ensures Written(c, file + more, blocks, idx, k)
  {
    hide Less, Block, ReadAt;
    forall b | 0 <= b < |blocks|
      ensures ReadAt(c, file + more, DecodeHandle(idx[b].value)) == Some(Block(blocks[b], k))
    {
      ReadKept(c, file, more, DecodeHandle(idx[b].value));
    }
  }

  lemma LaidLength(c: Codec, file: seq<byte>, blocks: seq<Run>, idx: Run, k: nat)
    requires k >= 1 && Laid(c, file, blocks, idx, k)
    ensures |idx| == |blocks|
  {
  }

  lemma SeparatesPush(blocks: seq<Run>, idx: Run, es: Run, e: Entry)
    requires Separates(blocks, idx) && Follows(blocks, idx, es)
    requires es != [] && Less(es[|es| - 1].key, e.key)
    ensures Separates(blocks + [es], idx + [e])
  {
    hide Less;
    var bs: seq<Run> := blocks + [es];
    forall b | 0 <= b < |blocks| ensures Less((idx + [e])[b].key, bs[b + 1][0].key) {
      assert b + 1 < |blocks| ==> Less(idx[b].key, blocks[b + 1][0].key);
    }
  }

  /** Appending a framed block and its index entry. */
  lemma BlockWritten(c: Codec, file: seq<byte>, blocks: seq<Run>, idx: Run, k: nat, es: Run, sep: Key)
    requires k >= 1 && c.Sound() && Written(c, file, blocks, idx, k) && Follows(blocks, idx, es)
    requires es != [] && Less(es[|es| - 1].key, sep)
    ensures var framed := Frame(c, Block(es, k));
            Written(c, file + framed, blocks + [es], idx + [Entry(sep, EncodeHandle(Handle(|file|, |framed|)))], k)
  {
    hide Less, Block, ReadAt, Frame, Separates, DecodeHandle, EncodeHandle;
    var framed := Frame(c, Block(es, k));
    var h := Handle(|file|, |framed|);
    var e := Entry(sep, EncodeHandle(h));
    HandleRoundTrip(h);
    FrameNonEmpty(c, Block(es, k));
    ReadAppended(c, file, Block(es, k));
    WrittenKept(c, file, blocks, idx, k, framed);
    SeparatesPush(blocks, idx, es, e);
    var idx': Run := idx + [e];
    var bs: seq<Run> := blocks + [es];
    forall b | 0 <= b < |bs|
      ensures ReadAt(c, file + framed, DecodeHandle(idx'[b].value)) == Some(Block(bs[b], k))
      ensures OffsetOf(idx', b) == if b < |blocks| then OffsetOf(idx, b) else |file|
    {
      if b < |blocks| { assert idx'[b] == idx[b] && bs[b] == blocks[b]; } else { assert idx'[b] == e && bs[b] == es; }
    }
  }

  lemma BlockLaid(c: Codec, file: seq<byte>, blocks: seq<Run>, idx: Run, k: nat, es: Run, sep: Key)
    requires k >= 1 && c.Sound() && Laid(c, file, blocks, idx, k) && Follows(blocks, idx, es)
    requires es != [] && Less(es[|es| - 1].key, sep) && |sep| <= |es[|es| - 1].key| + 1
    ensures var framed := Frame(c, Block(es, k));
            Laid(c, file + framed, blocks + [es], idx + [Entry(sep, EncodeHandle(Handle(|file|, |framed|)))], k)
  {
    hide Less, Block, Frame, Written, Lean, FrameTotal, EncodeHandle, Follows;
    BlockWritten(c, file, blocks, idx, k, es, sep);
    LeanPush(c, blocks, idx, k, es, sep);
    FrameTotalPush(c, blocks, es, k);
  }

  lemma FrameNonEmpty(c: Codec, raw: seq<byte>)
    ensures |Frame(c, raw)| > 0
  {
  }

  /** The last entry of the contents is the last one in memory. */
  lemma ContentsLast(blocks: seq<Run>, idx: Run, cur: Run)
    requires Follows(blocks, idx, cur)
    ensures Flatten(blocks) + cur != [] ==>
            cur != [] && (Flatten(blocks) + cur)[|Flatten(blocks) + cur| - 1] == cur[|cur| - 1]
  {
  }
}

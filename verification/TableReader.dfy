/** Reading an sstable: the cached block reader, the two-level iterator and point lookups
    (sstable/src/table_reader.rs, sstable/src/table_iter.rs). */
module TableReaders {
  import opened Bytes
  import opened Runs
  import opened Cursors
  import opened Coding
  import opened BlockFormat
  import opened BlockIters
  import opened TableFormat
  import opened Caches

  /** Index offsets increase, so an offset names one block. */
  ghost predicate Indexed(blocks: seq<Run>, idx: Run) {
    |idx| == |blocks| && forall a, b :: 0 <= a < b < |blocks| ==> OffsetOf(idx, a) < OffsetOf(idx, b)
  }

  /** The blocks of a table by their offset. */
  ghost function DirectoryOf(blocks: seq<Run>, idx: Run, k: nat): Directory
    requires k >= 1 && Indexed(blocks, idx)
  {
    map b | 0 <= b < |blocks| :: OffsetOf(idx, b) := Block(blocks[b], k)
  }

  /** Where block `b` of a table is, and that it can be read. */
  lemma BlockFacts(c: Codec, f: TableFile, blocks: seq<Run>, idx: Run, k: nat, b: nat)
    requires Represents(c, f, blocks, idx, k) && b < |blocks|
    ensures Indexed(blocks, idx) && k >= 1 && OffsetOf(idx, b) < TWO64
    ensures ReadAt(c, f.bytes, DecodeHandle(idx[b].value)) == Some(Block(blocks[b], k))
    ensures OffsetOf(idx, b) in DirectoryOf(blocks, idx, k)
    ensures DirectoryOf(blocks, idx, k)[OffsetOf(idx, b)] == Block(blocks[b], k)
  {
    hide Less, Block, Body, ReadAt, Flatten, DecodeHandle;
  }

  lemma IndexFacts(c: Codec, f: TableFile, blocks: seq<Run>, idx: Run, k: nat)
    requires Represents(c, f, blocks, idx, k)
    ensures k >= 1 && blocks != [] && Indexed(blocks, idx)
    ensures ReadAt(c, f.bytes, f.index) == Some(Block(idx, k))
  {
    hide Less, Block, Body, ReadAt, Flatten, DecodeHandle;
  }

  /** A table's blocks and its index are well-formed blocks of sorted entries. */
  lemma TableFacts(c: Codec, f: TableFile, blocks: seq<Run>, idx: Run, k: nat)
    requires Represents(c, f, blocks, idx, k)
    ensures k >= 1 && blocks != [] && |idx| == |blocks|
    ensures Encodes(Block(idx, k), idx, k) && Sorted(idx) && Sorted(Flatten(blocks)) && Separates(blocks, idx)
    ensures forall b :: 0 <= b < |blocks| ==> Encodes(Block(blocks[b], k), blocks[b], k) && Sorted(blocks[b])
  {
    hide Less, Block, Body, ReadAt, Flatten, OffsetOf;
    forall b | 0 <= b < |blocks| ensures Encodes(Block(blocks[b], k), blocks[b], k) && Sorted(blocks[b]) {
      BlockSorted(blocks, b);
    }
    IndexSorted(blocks, idx);
  }

  lemma SortedIsOrdered(es: Run)
    requires Sorted(es)
    ensures Ordered(es)
  {
    forall i, j | 0 <= i < j < |es| ensures !Less(es[j].key, es[i].key) { LessAsymmetric(es[i].key, es[j].key); }
  }

  class TableReader {
    const codec: Codec
    const file: TableFile
    const cache: Cache
    const cacheId: nat
    const indexBlock: seq<byte>
    var seekMissCount: nat
    ghost const blocks: seq<Run>
    ghost const idx: Run
    ghost const k: nat

    /** What opening the file established for good. */
    ghost predicate Opened() {
      && Represents(codec, file, blocks, idx, k) && k >= 1 && Indexed(blocks, idx)
      && indexBlock == Block(idx, k) && cacheId < TWO64
    }

    /** The cache knows this table by its id. */
    ghost predicate Registered(dirs: map<nat, Directory>) {
      k >= 1 && Indexed(blocks, idx) && cacheId in dirs && dirs[cacheId] == DirectoryOf(blocks, idx, k)
    }

    ghost predicate Valid()
      reads this, cache
    {
      Opened() && cache.Valid() && Registered(cache.dirs)
    }

    /** Opens a table: reads its index block and takes a cache id of its own. */
    constructor (codec: Codec, file: TableFile, cache: Cache, ghost blocks: seq<Run>, ghost idx: Run, ghost k: nat)
      requires Represents(codec, file, blocks, idx, k)
      requires cache.Valid() && cache.id + 1 < TWO64
      modifies cache
      ensures Valid() && this.cache == cache && this.blocks == blocks && this.file == file
      ensures cache.id == old(cache.id) + 1 && cacheId !in old(cache.dirs) && Extends(old(cache.dirs), cache.dirs)
    {
      hide Represents, Block, ReadAt, DirectoryOf, Holds;
      IndexFacts(codec, file, blocks, idx, k);
      this.codec, this.file, this.cache := codec, file, cache;
      this.blocks, this.idx, this.k := blocks, idx, k;
      indexBlock := ReadAt(codec, file.bytes, file.index).value;
      var id := cache.NewCacheId(DirectoryOf(blocks, idx, k));
      cacheId := id;
      seekMissCount := 0;
    }

    /** The block a handle of the index points to, from the cache or from the file. */
    method ReadBlock(h: Handle, ghost b: nat) returns (block: seq<byte>)
      requires Valid() && b < |blocks| && h == DecodeHandle(idx[b].value)
      modifies cache`inner
      ensures Valid()
      ensures block == Block(blocks[b], k)
      ensures var key := CacheKey(cacheId, h.offset); key in cache.inner && cache.inner[key] == block
    {
      hide Represents, Block, ReadAt, CacheKey, DecodeHandle, DirectoryOf, Holds;
      BlockFacts(codec, file, blocks, idx, k, b);
      var key := CacheKey(cacheId, h.offset);
      var cached := cache.Get(key);
      if cached.Some? {
        block := cached.value;
        CachedBlock(cache.dirs, cacheId, h.offset, key, block);
        return;
      }
      block := ReadAt(codec, file.bytes, h).value;
      HeldBlock(cache.dirs, cacheId, h.offset);
      cache.Insert(key, block);
    }

    lemma HeldBlock(dirs: map<nat, Directory>, id: nat, off: nat)
      requires id in dirs && off in dirs[id] && off < TWO64
      ensures Holds(dirs, CacheKey(id, off), dirs[id][off])
    {
      hide CacheKey;
    }

    lemma CachedBlock(dirs: map<nat, Directory>, id: nat, off: nat, key: seq<byte>, block: seq<byte>)
      requires id in dirs && off in dirs[id] && id < TWO64 && off < TWO64 && (forall i :: i in dirs ==> i < TWO64)
      requires key == CacheKey(id, off) && Holds(dirs, key, block)
      ensures block == dirs[id][off]
    {
      var id', off' :| id' in dirs && off' in dirs[id'] && off' < TWO64 && key == CacheKey(id', off') &&
          block == dirs[id'][off'];
      CacheKeyInjective(id, off, id', off');
    }

    /** Point lookup: what was added under the key, and nothing for any other key. */
    method Get(key: Key) returns (r: Option<Value>)
      requires Valid()
      modifies `seekMissCount, cache`inner
      ensures Valid()
      ensures r == Find(Flatten(blocks), key)
      ensures seekMissCount == old(seekMissCount) +
              if r.None? && !Less(key, file.min) && !Less(file.max, key) then 1 else 0
    {
      hide Less, Block, Body, ReadAt, Flatten, LowerBound, Represents, DirectoryOf;
      TableRange(codec, file, blocks, idx, k, key);
      if Less(key, file.min) || Less(file.max, key) {
        return None;
      }
      if key !in file.filter {
        seekMissCount := seekMissCount + 1;
        return None;
      }
      var iter := new TableIter(this);
      var kv := iter.Seek(key);
      if kv.Some? {
        if kv.value.key == key {
          return Some(kv.value.value);
        }
      }
      seekMissCount := seekMissCount + 1;
      return None;
    }
  }

  /** Keys outside the range or the filter are not in the table. */
  lemma TableRange(c: Codec, f: TableFile, blocks: seq<Run>, idx: Run, k: nat, key: Key)
    requires Represents(c, f, blocks, idx, k)
    ensures Less(key, f.min) || Less(f.max, key) || key !in f.filter ==> Find(Flatten(blocks), key) == None
  {
    hide Less, Block, Body, ReadAt, Flatten, LowerBound, OffsetOf, SmallBlock, Separates;
    var all := Flatten(blocks);
    LessIrreflexive(key);
    if Less(key, f.min) {
      forall i | 0 <= i < |all| ensures all[i].key != key {
        if i > 0 { LessTransitive(key, all[0].key, all[i].key); }
      }
      FindNone(all, key);
    } else if Less(f.max, key) {
      forall i | 0 <= i < |all| ensures all[i].key != key {
        if i < |all| - 1 { LessTransitive(all[i].key, all[|all| - 1].key, key); }
      }
      FindNone(all, key);
    } else if key !in f.filter {
      FindNone(all, key);
    }
  }

  // ---- the two-level iterator ----

  /** Where the iterator is: the index cursor, the block it loaded if any, and the cursor in that block. */
  ghost predicate Inner(blocks: seq<Run>, idx: Run, k: nat, ist: BlockIterState, ip: int,
                        data: Option<seq<byte>>, dst: BlockIterState, cur: nat, pos: int)
    requires k >= 1
  {
    && |idx| == |blocks| && StateAt(ist, idx, k, ip)
    && (data.None? ==> ip == -1)
    && (data.Some? ==>
          && cur < |blocks| && data.value == Block(blocks[cur], k) && StateAt(dst, blocks[cur], k, pos)
          && (ip == cur || (ip == |blocks| && cur == |blocks| - 1)))
  }

  /** The entry the next `advance` goes to, counted over all blocks. */
  ghost function Upcoming(blocks: seq<Run>, data: Option<seq<byte>>, cur: nat, pos: int): int
    requires data.Some? ==> cur < |blocks| && -1 <= pos <= |blocks[cur]|
  {
    if data.None? then 0
    else if pos < |blocks[cur]| then Start(blocks, cur) + pos + 1
    else Start(blocks, cur + 1)
  }

  /** The iterator as one cursor over all entries. */
  ghost predicate Position(blocks: seq<Run>, ip: int, data: Option<seq<byte>>, cur: nat, pos: int, q: int)
    requires data.Some? ==> cur < |blocks|
  {
    if data.None? then q == -1
    else if 0 <= pos < |blocks[cur]| then q == Start(blocks, cur) + pos
    else pos == |blocks[cur]| && ip == |blocks| && cur == |blocks| - 1 && q == |Flatten(blocks)|
  }

  /** Where a sequence of moves leads on a list of `n` entries. */
  ghost function WalkTo(n: nat, moves: seq<bool>): int {
    if moves == [] then -1
    else
      var q := WalkTo(n, moves[..|moves| - 1]);
      if moves[|moves| - 1] then Forward(n, q) else Backward(n, q)
  }

  /** Going forward visits the entries in order and then stays at the end. */
  lemma {:induction false} WalkForward(n: nat, m: nat)
    ensures WalkTo(n, seq(m, _ => true)) == if m <= n then m - 1 else n
  {
    if m > 0 {
      WalkForward(n, m - 1);
      assert seq(m, _ => true)[..m - 1] == seq(m - 1, _ => true);
    }
  }

  class TableIter {
    const table: TableReader
    const indexIter: BlockIter
    var dataState: BlockIterState
    var dataBlock: Option<seq<byte>>
    ghost var ip: int
    ghost var cur: nat
    ghost var pos: int

    ghost predicate Linked()
      reads this, table, table.cache, indexIter
    {
      && table.Valid() && indexIter.block == table.indexBlock
      && indexIter.entries == table.idx && indexIter.interval == table.k
      && indexIter.state.restartsOffset == |Body(table.idx, table.k)|
    }

    /** Reset: no block is loaded and the index is read from its start, wherever it stood before. */
    ghost predicate Rewound()
      reads this, table, table.cache, indexIter
    {
      Linked() && dataBlock.None? && |table.idx| == |table.blocks| && Ready(indexIter.state, table.idx, table.k, 0)
    }

    ghost predicate Valid()
      reads this, table, table.cache, indexIter
    {
      && Linked()
      && Inner(table.blocks, table.idx, table.k, indexIter.state, ip, dataBlock, dataState, cur, pos)
    }

    /** The iterator is the cursor at position `q` of all the table's entries. */
    ghost predicate At(q: int)
      reads this, table, table.cache, indexIter
    {
      Valid() && Position(table.blocks, ip, dataBlock, cur, pos, q)
    }

    constructor (t: TableReader)
      requires t.Valid()
      ensures At(-1) && table == t && fresh(indexIter)
    {
      hide Block, Body, ReadAt, Represents, DirectoryOf;
      IndexFacts(t.codec, t.file, t.blocks, t.idx, t.k);
      FreshStateAt(t.idx, t.k);
      table := t;
      var off := RestartsOffset(t.indexBlock, t.codec, t.file, t.blocks, t.idx, t.k);
      indexIter := new BlockIter.WithState(t.indexBlock, NewState(off), t.idx, t.k);
      dataState := NewState(0);
      dataBlock := None;
      ip, cur, pos := -1, 0, -1;
    }

    /** To the next entry; after a reset that is the first one. */
    method Advance() returns (r: bool)
      requires Valid() || Rewound()
      modifies this, indexIter, table.cache`inner
      ensures At(Upcoming(table.blocks, old(dataBlock), old(cur), old(pos)))
      ensures r == (Upcoming(table.blocks, old(dataBlock), old(cur), old(pos)) < |Flatten(table.blocks)|)
      decreases if dataBlock.None? then |table.blocks| + 1 else |table.blocks| - cur
    {
      hide Block, Body, ReadAt, Represents, DirectoryOf, Flatten, Start, StateAt, Encodes, Sorted, Ready;
      ghost var bs := table.blocks;
      Facts();
      if dataBlock.Some? {
        BlockEnds(bs, cur);
        var more := AdvanceData();
        if more {
          return true;
        }
      }
      var more := AdvanceIndex();
      if !more {
        return false;
      }
      BlockEnds(bs, ip);
      LoadBlock(ip);
      r := Advance();
    }

    /** One entry on within the loaded block. */
    method AdvanceData() returns (more: bool)
      requires Valid() && dataBlock.Some?
      modifies `dataState, `pos
      ensures Valid() && -1 <= old(pos) <= |table.blocks[cur]|
      ensures pos == Forward(|table.blocks[cur]|, old(pos)) && more == (pos < |table.blocks[cur]|)
    {
      hide Block, Body, ReadAt, Represents, DirectoryOf, Flatten, Start, StateAt;
      ghost var es := table.blocks[cur];
      Facts();
      StateRange(dataState, es, table.k, pos);
      var it := new BlockIter.WithState(dataBlock.value, dataState, es, table.k);
      more := it.Next(pos);
      dataState := it.state;
      pos := Forward(|es|, pos);
    }

    /** One index entry on; after a reset to the first one. */
    method AdvanceIndex() returns (more: bool)
      requires Valid() || Rewound()
      modifies `ip, indexIter
      ensures Linked() && |table.idx| == |table.blocks|
      ensures ip == if dataBlock.None? then 0 else Forward(|table.blocks|, old(ip))
      ensures StateAt(indexIter.state, table.idx, table.k, ip) && more == (ip < |table.blocks|)
    {
      hide Block, Body, ReadAt, Represents, DirectoryOf, Flatten, Start, StateAt, Ready;
      Facts();
      if dataBlock.None? {
        if Valid() {
          StateRange(indexIter.state, table.idx, table.k, ip);
          AtIsReady(indexIter.state, table.idx, table.k, ip);
        }
        more := indexIter.Advance(0);
        ip := 0;
      } else {
        more := indexIter.Next(ip);
        ip := Forward(|table.blocks|, ip);
      }
      StateRange(indexIter.state, table.idx, table.k, ip);
    }

    /** `advance` as a cursor move. */
    method Next(ghost q: int) returns (r: bool)
      requires At(q)
      modifies this, indexIter, table.cache`inner
      ensures At(Forward(|Flatten(table.blocks)|, q))
      ensures r == (Forward(|Flatten(table.blocks)|, q) < |Flatten(table.blocks)|)
    {
      hide Block, Body, ReadAt, Represents, DirectoryOf, Flatten, Start, StateAt;
      Facts();
      if dataBlock.Some? {
        BlockEnds(table.blocks, cur);
        StateRange(dataState, table.blocks[cur], table.k, pos);
      }
      BlockEnds(table.blocks, 0);
      r := Advance();
    }

    /** Any sequence of moves, `true` forward and `false` back, from a fresh iterator. */
    method Walk(moves: seq<bool>)
      requires At(-1)
      modifies this, indexIter, table.cache`inner
      ensures At(WalkTo(|Flatten(table.blocks)|, moves))
    {
      hide Block, Body, ReadAt, Represents, DirectoryOf, Flatten, Start, StateAt, Valid;
      var i := 0;
      while i < |moves|
        modifies this, indexIter, table.cache`inner
        invariant 0 <= i <= |moves| && At(WalkTo(|Flatten(table.blocks)|, moves[..i]))
      {
        assert moves[..i + 1][..i] == moves[..i];
        if moves[i] {
          var _ := Next(WalkTo(|Flatten(table.blocks)|, moves[..i]));
        } else {
          var _ := Prev(WalkTo(|Flatten(table.blocks)|, moves[..i]));
        }
        i := i + 1;
      }
      assert moves[..i] == moves;
    }

    /** The facts about the table, in the terms of this iterator. */
    lemma Facts()
      requires Linked()
      ensures table.k >= 1 && table.blocks != [] && |table.idx| == |table.blocks|
      ensures indexIter.Valid() && Sorted(table.idx)
      ensures forall b :: 0 <= b < |table.blocks| ==>
                table.blocks[b] != [] && Encodes(Block(table.blocks[b], table.k), table.blocks[b], table.k) &&
                    Sorted(table.blocks[b])
      ensures Sorted(Flatten(table.blocks))
    {
      hide Block, Body, ReadAt, DirectoryOf, Flatten;
      TableFacts(table.codec, table.file, table.blocks, table.idx, table.k);
    }

    /** Loads the block of the current index entry and stands before its first entry. */
    method LoadBlock(ghost b: nat)
      requires Linked() && b < |table.blocks| == |table.idx| && StateAt(indexIter.state, table.idx, table.k, b)
      requires ip == b
      modifies `dataState, `dataBlock, `cur, `pos, table.cache`inner
      ensures Valid() && ip == old(ip) && cur == b && pos == -1 && dataBlock == Some(Block(table.blocks[b], table.k))
      ensures indexIter.state == old(indexIter.state)
    {
      hide Block, Body, ReadAt, Represents, DirectoryOf, StateAt, DecodeHandle;
      Facts();
      var kv := indexIter.CurrentKV(b);
      var h := DecodeHandle(kv.value.value);
      var block := table.ReadBlock(h, b);
      var off := BlockRestartsOffset(block, table.blocks[b], table.k);
      dataState := NewState(off);
      dataBlock := Some(block);
      cur, pos := b, -1;
      FreshStateAt(table.blocks[b], table.k);
    }

    method Prev(ghost q: int) returns (r: bool)
      requires At(q)
      modifies this, indexIter, table.cache`inner
      ensures At(Backward(|Flatten(table.blocks)|, q))
      ensures r == (Backward(|Flatten(table.blocks)|, q) >= 0)
    {
      hide Block, Body, ReadAt, Represents, DirectoryOf, Flatten, Start, StateAt;
      ghost var bs := table.blocks;
      Facts();
      StateRange(indexIter.state, table.idx, table.k, ip);
      if dataBlock.Some? {
        BlockEnds(bs, cur);
        var more := PrevData();
        if more {
          return true;
        }
      }
      var more := indexIter.Prev(ip);
      ip := Backward(|bs|, ip);
      StateRange(indexIter.state, table.idx, table.k, ip);
      if !more {
        Reset();
        return false;
      }
      BlockEnds(bs, ip);
      LoadLast(ip);
      return true;
    }

    /** One entry back within the loaded block. */
    method PrevData() returns (more: bool)
      requires Valid() && dataBlock.Some?
      modifies `dataState, `pos
      ensures Valid() && -1 <= old(pos) <= |table.blocks[cur]|
      ensures pos == Backward(|table.blocks[cur]|, old(pos)) && more == (pos >= 0)
    {
      hide Block, Body, ReadAt, Represents, DirectoryOf, Flatten, Start, StateAt;
      ghost var es := table.blocks[cur];
      Facts();
      StateRange(dataState, es, table.k, pos);
      var it := new BlockIter.WithState(dataBlock.value, dataState, es, table.k);
      more := it.Prev(pos);
      dataState := it.state;
      pos := Backward(|es|, pos);
    }

    /** Loads the block of the current index entry and stands on its last entry. */
    method LoadLast(ghost b: nat)
      requires Linked() && b < |table.blocks| == |table.idx| && StateAt(indexIter.state, table.idx, table.k, b) &&
               ip == b
      modifies `dataState, `dataBlock, `cur, `pos, table.cache`inner
      ensures Valid() && ip == b && cur == b && pos == |table.blocks[b]| - 1 >= 0 && dataBlock.Some?
    {
      hide Block, Body, ReadAt, Represents, DirectoryOf, StateAt;
      Facts();
      LoadBlock(b);
      var it := new BlockIter.WithState(dataBlock.value, dataState, table.blocks[b], table.k);
      StateRange(dataState, table.blocks[b], table.k, -1);
      it.SeekToLast();
      dataState := it.state;
      pos := |table.blocks[b]| - 1;
    }

    /** Back to the start from anywhere: the next `advance` lands on the first entry. Where the index
        cursor had not moved this is the fresh iterator again. */
    method Reset()
      requires Linked()
      modifies `dataState, `dataBlock, indexIter
      ensures Rewound()
      ensures old(StateAt(indexIter.state, table.idx, table.k, -1)) && ip == -1 ==> At(-1)
    {
      hide Block, Body, ReadAt, Represents, DirectoryOf;
      Facts();
      indexIter.state := indexIter.state.Reset();
      dataBlock := None;
      dataState := dataState.Reset();
      ResetIsReady(indexIter.state, table.idx, table.k);
    }

    /** The key and value of the entry the iterator is on; before the first and behind the last there is none. */
    method CurrentKV(ghost q: int) returns (r: Option<Entry>)
      requires At(q)
      ensures r == if 0 <= q < |Flatten(table.blocks)| then Some(Flatten(table.blocks)[q]) else None
    {
      hide Block, Body, ReadAt, Represents, DirectoryOf, Flatten, Start, StateAt;
      Facts();
      if dataBlock.None? {
        return None;
      }
      BlockEnds(table.blocks, cur);
      StateRange(dataState, table.blocks[cur], table.k, pos);
      var it := new BlockIter.WithState(dataBlock.value, dataState, table.blocks[cur], table.k);
      r := it.CurrentKV(pos);
      if pos < |table.blocks[cur]| { FlattenAt(table.blocks, cur, pos); }
    }

    /** Through the index to the block that may hold the key, then to the first entry not below it.
        It lands exactly when that block has such an entry; `LandsExactly` says for which keys. */
    method Seek(key: Key) returns (kv: Option<Entry>)
      requires Linked()
      modifies this, indexIter, table.cache`inner
      ensures Linked()
      ensures kv.Some? ==> At(LowerBound(Flatten(table.blocks), key))
      ensures kv.Some? ==> LowerBound(Flatten(table.blocks), key) < |Flatten(table.blocks)| &&
                           kv.value == Flatten(table.blocks)[LowerBound(Flatten(table.blocks), key)]
      ensures kv.Some? <==> Lands(table.blocks, table.idx, key)
      ensures kv.None? ==> Find(Flatten(table.blocks), key) == None
    {
      hide Block, Body, ReadAt, Represents, DirectoryOf, Flatten, Start, StateAt, LowerBound, Less, Find;
      ghost var bs := table.blocks;
      Facts();
      Reset();
      SortedIsOrdered(table.idx);
      indexIter.Seek(key);
      ip := LowerBound(table.idx, key);
      StateRange(indexIter.state, table.idx, table.k, ip);
      SeekFound(table.codec, table.file, bs, table.idx, table.k, key);
      var entry := indexIter.CurrentKV(ip);
      if entry.None? {
        return None;
      }
      LoadBlock(ip);
      kv := SeekData(key);
      if kv.Some? { FlattenAt(bs, cur, pos); }
    }

    /** To the first entry of the loaded block that is not below the key. */
    method SeekData(key: Key) returns (kv: Option<Entry>)
      requires Valid() && dataBlock.Some?
      modifies `dataState, `pos
      ensures Valid() && pos == LowerBound(table.blocks[cur], key)
      ensures kv == if pos < |table.blocks[cur]| then Some(table.blocks[cur][pos]) else None
    {
      hide Block, Body, ReadAt, Represents, DirectoryOf, Flatten, Start, StateAt, LowerBound, Less;
      ghost var es := table.blocks[cur];
      Facts();
      StateRange(dataState, es, table.k, pos);
      var it := new BlockIter.WithState(dataBlock.value, dataState, es, table.k);
      SortedIsOrdered(es);
      it.Seek(key);
      dataState := it.state;
      pos := LowerBound(es, key);
      kv := it.CurrentKV(pos);
    }
  }

  lemma StateRange(st: BlockIterState, es: Run, k: nat, p: int)
    requires k >= 1 && StateAt(st, es, k, p)
    ensures -1 <= p <= |es| && st.restartsOffset == |Body(es, k)|
  {
  }

  lemma ResetIsReady(st: BlockIterState, es: Run, k: nat)
    requires k >= 1 && es != [] && st.restartsOffset == |Body(es, k)| && st.nextOffset == 0 && st.currentRestartIdx == 0
    ensures Ready(st, es, k, 0)
  {
    hide Body, Restarts;
    OffEnds(es, k);
    SharedBound(es, k, 0);
  }

  lemma FreshStateAt(es: Run, k: nat)
    requires k >= 1
    ensures StateAt(NewState(|Body(es, k)|), es, k, -1)
  {
  }

  /** `restarts_offset` of a block: where the entries end. */
  method BlockRestartsOffset(block: seq<byte>, ghost es: Run, ghost k: nat) returns (off: nat)
    requires Encodes(block, es, k)
    ensures off == |Body(es, k)|
  {
    hide Body, IsRestart;
    RestartCountStored(es, k);
    var restarts := DecodeFixed32(block[|block| - 4..]);
    off := |block| - 4 - 4 * restarts;
  }

  method RestartsOffset(block: seq<byte>, ghost c: Codec, ghost f: TableFile, ghost blocks: seq<Run>, ghost idx: Run,
                        ghost k: nat)
    returns (off: nat)
    requires Represents(c, f, blocks, idx, k) && block == Block(idx, k)
    ensures k >= 1 && off == |Body(idx, k)|
  {
    hide Block, Body, ReadAt;
    TableFacts(c, f, blocks, idx, k);
    off := BlockRestartsOffset(block, idx, k);
  }

  lemma BlockEnds(blocks: seq<Run>, b: nat)
    requires b < |blocks| && blocks[b] != []
    ensures Start(blocks, b + 1) == Start(blocks, b) + |blocks[b]| <= |Flatten(blocks)|
    ensures Start(blocks, 0) == 0 && Start(blocks, |blocks|) == |Flatten(blocks)|
  {
    FlattenAt(blocks, b, 0);
    StartEnds(blocks);
  }

  /** The index seek picks the only block that can hold the key, and the lookup over all entries is the
      lookup in that block. */
  lemma SeekFound(c: Codec, f: TableFile, blocks: seq<Run>, idx: Run, k: nat, key: Key)
    requires Represents(c, f, blocks, idx, k)
    ensures var b := LowerBound(idx, key);
            && b <= |blocks|
            && (b == |blocks| ==> Find(Flatten(blocks), key) == None)
            && (b < |blocks| ==>
                  var p := LowerBound(blocks[b], key);
                  && LowerBound(Flatten(blocks), key) == Start(blocks, b) + p
                  && (p == |blocks[b]| ==> Find(Flatten(blocks), key) == None))
  {
    hide Block, Body, ReadAt, Less, Flatten, Start, OffsetOf, LowerBound, Find;
    TableFacts(c, f, blocks, idx, k);
    var b := LowerBound(idx, key);
    var all := Flatten(blocks);
    StartEnds(blocks);
    if b == |blocks| {
      forall i | 0 <= i < |all| ensures all[i].key != key {
        BelowBlock(blocks, idx, |blocks|, key, i);
        LessIrreflexive(key);
      }
      FindNone(all, key);
    } else {
      SeekInBlock(blocks, idx, b, key);
    }
  }

  /** Which block an entry is in. */
  lemma {:induction false} BlockOf(blocks: seq<Run>, i: nat) returns (b: nat, p: nat)
    requires i < |Flatten(blocks)|
    ensures b < |blocks| && p < |blocks[b]| && i == Start(blocks, b) + p && Flatten(blocks)[i] == blocks[b][p]
  {
    var n := |blocks| - 1;
    if i >= |Flatten(blocks[..n])| {
      b, p := n, i - |Flatten(blocks[..n])|;
    } else {
      b, p := BlockOf(blocks[..n], i);
      assert blocks[..n][..b] == blocks[..b];
    }
  }

  /** Entries of blocks whose separator is below the key are below the key. */
  lemma BelowBlock(blocks: seq<Run>, idx: Run, b: nat, key: Key, i: nat)
    requires Separates(blocks, idx) && Sorted(Flatten(blocks)) && b <= |blocks|
    requires forall a :: 0 <= a < b ==> Less(idx[a].key, key)
    requires i < Start(blocks, b) && i < |Flatten(blocks)|
    ensures Less(Flatten(blocks)[i].key, key)
  {
    hide Less, Flatten, Start;
    var a, p := BlockOf(blocks, i);
    if a >= b { StartGrows(blocks, b, a); }
    var es := blocks[a];
    var last := es[|es| - 1].key;
    FlattenAt(blocks, a, |es| - 1);
    assert es[p].key == last || Less(es[p].key, last);
    if es[p].key != last { LessTransitive(es[p].key, last, idx[a].key); }
    LessTransitive(es[p].key, idx[a].key, key);
  }

  lemma {:induction false} StartGrows(blocks: seq<Run>, a: nat, b: nat)
    requires a <= b <= |blocks|
    ensures Start(blocks, a) <= Start(blocks, b)
  {
    if a < b {
      StartGrows(blocks, a, b - 1);
      assert blocks[..b][..b - 1] == blocks[..b - 1];
    }
  }

  // ---- where a seek lands ----

  /** The block the index leads to has an entry not below the key. */
  ghost predicate Lands(blocks: seq<Run>, idx: Run, key: Key) {
    && |idx| == |blocks|
    && var b := LowerBound(idx, key);
       b < |blocks| && LowerBound(blocks[b], key) < |blocks[b]|
  }

  /** The key lies above the last key of block `b` but not above its separator. */
  ghost predicate InGap(blocks: seq<Run>, idx: Run, key: Key, b: nat) {
    && b < |blocks| == |idx| && blocks[b] != []
    && Less(blocks[b][|blocks[b]| - 1].key, key) && !Less(idx[b].key, key)
  }

  lemma NotBelowLast(es: Run, key: Key)
    requires Sorted(es) && es != []
    ensures LowerBound(es, key) < |es| <==> !Less(es[|es| - 1].key, key)
  {
    hide Less, LowerBound;
    var p := LowerBound(es, key);
    if p < |es| - 1 {
      LessTotal(key, es[p].key);
      if key != es[p].key { LessTransitive(key, es[p].key, es[|es| - 1].key); }
      LessAsymmetric(key, es[|es| - 1].key);
    }
  }

  /** A later block ends above every key that is not above an earlier separator. */
  lemma LaterBlockAbove(blocks: seq<Run>, idx: Run, a: nat, b: nat, key: Key)
    requires Separates(blocks, idx) && Sorted(idx) && (forall c :: 0 <= c < |blocks| ==> Sorted(blocks[c]))
    requires a < b < |blocks| && !Less(idx[a].key, key)
    ensures !Less(blocks[b][|blocks[b]| - 1].key, key)
  {
    hide Less;
    var es := blocks[b];
    var first, last := es[0].key, es[|es| - 1].key;
    LessTotal(key, idx[a].key);
    assert Less(idx[b - 1].key, blocks[b - 1 + 1][0].key);
    if a < b - 1 { LessTransitive(idx[a].key, idx[b - 1].key, first); }
    if first != last { LessTransitive(idx[a].key, first, last); }
    if key != idx[a].key { LessTransitive(key, idx[a].key, last); }
    LessAsymmetric(key, last);
  }

  /** A seek lands for every key except those beyond the last separator and those in the gap between a
      block's last key and its separator. */
  lemma LandsExactly(blocks: seq<Run>, idx: Run, key: Key)
    requires Separates(blocks, idx) && Sorted(idx) && blocks != []
    requires forall b :: 0 <= b < |blocks| ==> Sorted(blocks[b])
    ensures Lands(blocks, idx, key) <==>
              !Less(idx[|idx| - 1].key, key) && forall b :: 0 <= b < |blocks| ==> !InGap(blocks, idx, key, b)
  {
    hide Less, LowerBound, Sorted;
    var b := LowerBound(idx, key);
    NotBelowLast(idx, key);
    if b < |blocks| {
      NotBelowLast(blocks[b], key);
      if LowerBound(blocks[b], key) < |blocks[b]| {
        forall c | 0 <= c < |blocks| ensures !InGap(blocks, idx, key, c) {
          if c > b { LaterBlockAbove(blocks, idx, b, c, key); }
        }
      } else {
        assert InGap(blocks, idx, key, b);
      }
    }
  }

  /** In a gap the seek misses the entry it should land on: the next block's first one. */
  lemma GapMissesNextBlock(blocks: seq<Run>, idx: Run, b: nat, key: Key)
    requires Separates(blocks, idx) && Sorted(Flatten(blocks)) && NonEmptyKeys(Flatten(blocks))
    requires b + 1 < |blocks| && InGap(blocks, idx, key, b)
    ensures !Lands(blocks, idx, key)
    ensures LowerBound(Flatten(blocks), key) == Start(blocks, b + 1) < |Flatten(blocks)|
    ensures Flatten(blocks)[Start(blocks, b + 1)] == blocks[b + 1][0]
  {
    hide Less, LowerBound, Flatten, Start, Sorted, NonEmptyKeys;
    forall c | 0 <= c < |blocks| ensures Sorted(blocks[c]) { BlockSorted(blocks, c); }
    IndexSorted(blocks, idx);
    LandsExactly(blocks, idx, key);
    NextBlockAbove(blocks, idx, b, key);
    FlattenAt(blocks, b + 1, 0);
    BlockEnds(blocks, b);
    forall i | 0 <= i < Start(blocks, b + 1) ensures Less(Flatten(blocks)[i].key, key) {
      BelowGap(blocks, idx, b, key, i);
    }
    LowerBoundUnique(Flatten(blocks), key, Start(blocks, b + 1));
  }

  lemma BelowGap(blocks: seq<Run>, idx: Run, b: nat, key: Key, i: nat)
    requires Separates(blocks, idx) && Sorted(Flatten(blocks)) && InGap(blocks, idx, key, b)
    requires i < Start(blocks, b + 1) && i < |Flatten(blocks)|
    ensures Less(Flatten(blocks)[i].key, key)
  {
    hide Less, Flatten, Start;
    var all, es := Flatten(blocks), blocks[b];
    FlattenAt(blocks, b, |es| - 1);
    var last := Start(blocks, b) + |es| - 1;
    assert i == last || Less(all[i].key, all[last].key);
    if i != last { LessTransitive(all[i].key, all[last].key, key); }
  }

  /** Every separator is itself such a key, so every block but the last has one. */
  lemma SeparatorIsInGap(blocks: seq<Run>, idx: Run, b: nat)
    requires Separates(blocks, idx) && b < |blocks|
    ensures InGap(blocks, idx, idx[b].key, b)
  {
    LessIrreflexive(idx[b].key);
  }

  /** Were a separator equal to the next block's first key, which is what the code writes between a key and
      that key followed by NUL, a lookup of that key would go to the wrong block and miss it. */
  lemma EqualSeparatorLosesKey(blocks: seq<Run>, idx: Run, b: nat)
    requires |idx| == |blocks| && b + 1 < |blocks| && Sorted(idx) && Sorted(blocks[b])
    requires blocks[b] != [] && blocks[b + 1] != [] && idx[b].key == blocks[b + 1][0].key
    requires Less(blocks[b][|blocks[b]| - 1].key, idx[b].key)
    ensures !Lands(blocks, idx, blocks[b + 1][0].key)
  {
    hide Less, LowerBound, Sorted;
    var key := idx[b].key;
    FindAt(idx, b);
    NotBelowLast(blocks[b], key);
  }

  /** A block behind one whose separator is not below the key starts above the key. */
  lemma NextBlockAbove(blocks: seq<Run>, idx: Run, b: nat, key: Key)
    requires Separates(blocks, idx) && b + 1 < |blocks| && !Less(idx[b].key, key)
    ensures blocks[b + 1] != [] && !Less(blocks[b + 1][0].key, key) && blocks[b + 1][0].key != key
  {
    hide Less;
    var next := blocks[b + 1][0].key;
    LessTotal(key, idx[b].key);
    if key != idx[b].key { LessTransitive(key, idx[b].key, next); }
    LessAsymmetric(key, next);
    LessIrreflexive(key);
  }

  /** Up to the place of the key in its block everything is below it. */
  lemma BelowSeek(blocks: seq<Run>, idx: Run, b: nat, key: Key, p: nat, i: nat)
    requires Separates(blocks, idx) && Sorted(Flatten(blocks)) && b < |blocks| && b == LowerBound(idx, key)
    requires p == LowerBound(blocks[b], key) && i < Start(blocks, b) + p && i < |Flatten(blocks)|
    ensures Less(Flatten(blocks)[i].key, key)
  {
    hide Less, Flatten, Start, LowerBound, Separates, Sorted;
    if i < Start(blocks, b) { BelowBlock(blocks, idx, b, key, i); } else { FlattenAt(blocks, b, i - Start(blocks, b)); }
  }

  lemma SeekInBlock(blocks: seq<Run>, idx: Run, b: nat, key: Key)
    requires Separates(blocks, idx) && Sorted(Flatten(blocks)) && b < |blocks| && Sorted(blocks[b]) && Sorted(idx)
    requires b == LowerBound(idx, key)
    ensures var p := LowerBound(blocks[b], key);
            && LowerBound(Flatten(blocks), key) == Start(blocks, b) + p
            && (p == |blocks[b]| ==> Find(Flatten(blocks), key) == None)
  {
    hide Less, Flatten, Start, LowerBound, Sorted, Separates;
    var all, p, s := Flatten(blocks), LowerBound(blocks[b], key), Start(blocks, b);
    SeparatesHere(blocks, idx, b);
    BlockEnds(blocks, b);
    forall i | 0 <= i < s + p ensures Less(all[i].key, key) { BelowSeek(blocks, idx, b, key, p, i); }
    if p < |blocks[b]| {
      FlattenAt(blocks, b, p);
    } else if b + 1 < |blocks| {
      NextBlockAbove(blocks, idx, b, key);
      FlattenAt(blocks, b + 1, 0);
    } else {
      StartEnds(blocks);
    }
    LowerBoundUnique(all, key, s + p);
  }

  lemma SeparatesHere(blocks: seq<Run>, idx: Run, b: nat)
    requires Separates(blocks, idx) && b < |blocks|
    ensures |idx| == |blocks| && blocks[b] != []
  {
  }
}

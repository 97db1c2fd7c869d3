/** Major compaction on table files: merging open tables and writing the result to new ones
    (`size_compaction`, mirdb-server/src/data_manager.rs). */
module TableCompactions {
  import opened Bytes
  import opened Runs
  import opened Cursors
  import opened Mergers
  import opened TableFormat
  import opened TableSizes
  import opened TableBuilders
  import opened Caches
  import opened TableReaders
  import opened TableMergers
  import opened SstableBuilders
  import opened Compaction
  import Tables

  /** How tables are written. */
  datatype Options = Options(codec: Codec, blockSize: nat, interval: nat, sstMaxSize: nat, meta: seq<byte>) {
    ghost predicate Valid() {
      codec.Sound() && Tame(codec) && blockSize >= 8 && interval >= 1
    }
  }

  /** Finishes a table and opens it. */
  method CloseTable(tb: TableBuilder, meta: seq<byte>, cache: Cache, ghost run: Run) returns (reader: TableReader)
    requires tb.Valid() && tb.Contents() == run && run != [] && Tame(tb.codec) && Small(run)
    requires cache.Valid() && cache.id + 1 < TWO64
    modifies tb, tb.dataBlock, tb.indexBlock, cache
    ensures fresh(reader) && reader.cache == cache && reader.Opened() && Flatten(reader.blocks) == run
    ensures cache.Valid() && reader.Registered(cache.dirs)
    ensures cache.id == old(cache.id) + 1 && Extends(old(cache.dirs), cache.dirs)
  {
    hide Less, Flatten, Written, Represents, Bounds, Small, Tame, ReadAt, TableBuilder.Valid, DirectoryOf;
    var file, idx := tb.Flush(meta);
    reader := new TableReader(tb.codec, file, cache, tb.blocks, idx, tb.interval);
  }

  // ---- the tables written so far ----

  /** Open readers, one for each of these tables and holding exactly its entries. */
  ghost predicate Holding(readers: seq<TableReader>, cache: Cache, dirs: map<nat, Directory>, runs: seq<Run>) {
    && |readers| == |runs|
    && forall i :: 0 <= i < |readers| ==>
         && readers[i].cache == cache && readers[i].Opened() && readers[i].Registered(dirs)
         && Flatten(readers[i].blocks) == runs[i]
  }

  lemma HoldingExtends(readers: seq<TableReader>, cache: Cache, dirs: map<nat, Directory>, more: map<nat, Directory>,
                       runs: seq<Run>)
    requires Holding(readers, cache, dirs, runs) && Extends(dirs, more)
    ensures Holding(readers, cache, more, runs)
  {
    hide Flatten, TableReader.Opened, DirectoryOf, Indexed;
  }

  // ---- the table being written ----

  ghost predicate Building(tb: TableBuilder?, codec: Codec, run: Run)
    reads if tb == null then {} else {tb, tb.dataBlock, tb.indexBlock}
  {
    if tb == null then run == []
    else run != [] && tb.Valid() && tb.Contents() == run && tb.codec == codec && tb.totalSizeEstimate == RunSize(run)
  }

  ghost function Parts(tb: TableBuilder?): set<object>
    reads if tb == null then {} else {tb}
  {
    if tb == null then {} else var t: TableBuilder := tb; {t, t.dataBlock, t.indexBlock}
  }

  /** One more entry for the table being written, which is started if there is none. */
  method AddEntry(open: TableBuilder?, e: Entry, opt: Options, ghost run: Run) returns (tb: TableBuilder)
    requires opt.Valid() && Building(open, opt.codec, run) && e.key != [] && 0 !in e.key
    requires run != [] ==> Less(run[|run| - 1].key, e.key)
    modifies Parts(open)
    ensures Building(tb, opt.codec, run + [e])
    ensures forall x :: x in Parts(tb) ==> x in old(Parts(open)) || fresh(x)
  {
    hide Less, RunSize, TableBuilder.Valid, TableBuilder.Contents;
    RunSizePush(run, e);
    if open == null {
      tb := new TableBuilder(opt.codec, opt.blockSize, opt.interval);
      FeedNothing(0, 0);
    } else {
      tb := open;
      BuilderLast(tb, run);
    }
    NotZeroExtended(tb.dataBlock.lastKey, e.key);
    tb.Add(e.key, e.value);
  }

  // ---- what the merged stream allows ----

  ghost predicate AllNulFree(runs: seq<Run>) {
    forall a :: 0 <= a < |runs| ==> NulFree(runs[a])
  }

  lemma EmittedClean(cursors: seq<Cursor>, runs: seq<Run>, emitted: Run)
    requires Mergeable(runs) && MergerInv(cursors, runs, emitted) && AllNulFree(runs)
    ensures Sorted(emitted) && NonEmptyKeys(emitted) && NulFree(emitted)
  {
    hide Less, Find, Sorted;
    forall x | 0 <= x < |emitted| ensures emitted[x].key != [] && 0 !in emitted[x].key {
      var k := emitted[x].key;
      var j := FirstHolder(runs, k);
      FindIff(runs[j], k);
      var y :| 0 <= y < |runs[j]| && runs[j][y] == Entry(k, FindFirst(runs, k).value);
      assert NonEmptyKeys(runs[j]) && NulFree(runs[j]);
    }
  }

  /** The next entry goes behind the open piece, and the piece stays small. */
  lemma NextFits(before: Run, e: Entry, all: Run, limit: nat, first: nat)
    requires Sorted(before + [e]) && |before| < |all| && before + [e] == all[..|before| + 1] && Small(all)
    ensures var run := FeedAll(before, limit, first).open;
            (run != [] ==> Less(run[|run| - 1].key, e.key)) && Small(run + [e])
  {
    hide Less, FeedAll, Weight, Concat;
    var w := FeedAll(before, limit, first);
    FeedAllConcat(before, limit, first);
    var done := Concat(w.done);
    assert before + [e] == done + (w.open + [e]);
    assert all == all[..|before| + 1] + all[|before| + 1..];
    WeightConcat(before + [e], all[|before| + 1..], 32);
    WeightConcat(done, w.open + [e], 32);
    if w.open != [] {
      var n := |before|;
      assert (before + [e])[n - 1] == w.open[|w.open| - 1] && (before + [e])[n] == e;
    }
  }

  lemma OpenPieceSmall(emitted: Run, all: Run, limit: nat, first: nat)
    requires |emitted| <= |all| && emitted == all[..|emitted|] && Small(all)
    ensures Small(FeedAll(emitted, limit, first).open)
  {
    hide FeedAll, Weight, Concat;
    var w := FeedAll(emitted, limit, first);
    FeedAllConcat(emitted, limit, first);
    assert all == all[..|emitted|] + all[|emitted|..];
    WeightConcat(emitted, all[|emitted|..], 32);
    WeightConcat(Concat(w.done), w.open, 32);
  }

  // ---- the compaction ----

  /** Closes a table while a merger over other tables of the cache is at work. */
  method CloseBeside(merger: TableMerger, tb: TableBuilder, meta: seq<byte>, cache: Cache, ghost run: Run,
                     readers: seq<TableReader>, ghost runs: seq<Run>)
    returns (more: seq<TableReader>)
    requires merger.Valid() && merger.cache == cache
    requires Building(tb, tb.codec, run) && Tame(tb.codec) && Small(run)
    requires cache.Valid() && cache.id + 1 < TWO64 && Holding(readers, cache, cache.dirs, runs)
    modifies tb, tb.dataBlock, tb.indexBlock, cache
    ensures merger.Valid() && cache.Valid() && Holding(more, cache, cache.dirs, runs + [run])
    ensures cache.id == old(cache.id) + 1 && Extends(old(cache.dirs), cache.dirs)
  {
    hide Flatten, Small, Tame, TableBuilder.Valid, TableReader.Opened, Placed, MergerInv, Mergeable, Cache.Valid,
        DirectoryOf, Indexed;
    ghost var dirs := cache.dirs;
    var reader := CloseTable(tb, meta, cache, run);
    HoldingExtends(readers, cache, dirs, cache.dirs, runs);
    more := readers + [reader];
    forall a | 0 <= a < |merger.iters| ensures merger.iters[a].table.Registered(cache.dirs) {
      StaysRegistered(merger.iters[a].table, dirs, cache.dirs);
    }
  }

  lemma StaysRegistered(t: TableReader, dirs: map<nat, Directory>, more: map<nat, Directory>)
    requires t.Registered(dirs) && Extends(dirs, more)
    ensures t.Registered(more)
  {
    hide DirectoryOf, Indexed;
  }

  lemma {:induction false} PieceCount(es: Run, limit: nat, first: nat)
    ensures |FeedAll(es, limit, first).done| + (if FeedAll(es, limit, first).open == [] then 0 else 1) <= |es|
  {
    hide RunSize;
    if es != [] { PieceCount(es[..|es| - 1], limit, first); }
  }

  /** The pieces a stream was cut into so far, and the one still open. */
  function Cut(emitted: Run, opt: Options, first: nat): Writing {
    FeedAll(emitted, opt.sstMaxSize, first)
  }

  /** The compaction loop between two entries: every finished piece is an open table, the open piece is in
      the builder. */
  ghost predicate Compacting(merger: TableMerger, cache: Cache, opt: Options, first: nat, id: nat, tb: TableBuilder?,
                             outs: seq<TableReader>)
    reads merger, Moving(merger.iters), Files(merger.iters), merger.cache, cache
    reads if tb == null then {} else {tb, tb.dataBlock, tb.indexBlock}
  {
    && merger.Valid() && merger.cache == cache && cache.Valid()
    && AllNulFree(merger.runs) && Small(MergeRuns(merger.runs))
    && opt.Valid() && id + |MergeRuns(merger.runs)| < TWO64 && cache.id == id + |outs|
    && Holding(outs, cache, cache.dirs, Tables.RunsOf(Cut(merger.emitted, opt, first).done))
    && Building(tb, opt.codec, Cut(merger.emitted, opt, first).open)
  }

  lemma PartsAside(tb: TableBuilder?, merger: TableMerger)
    ensures forall x :: x in Parts(tb) ==>
            x !in Moving(merger.iters) && x !in Files(merger.iters) && x != merger && x != merger.cache
  {
  }

  /** What holds when an entry has been emitted. */
  lemma EmittedNext(cursors: seq<Cursor>, runs: seq<Run>, before: Run, e: Entry, opt: Options, first: nat)
    requires Mergeable(runs) && MergerInv(cursors, runs, before + [e]) && AllNulFree(runs) && Small(MergeRuns(runs))
    ensures e.key != [] && 0 !in e.key
    ensures var run := Cut(before, opt, first).open;
            (run != [] ==> Less(run[|run| - 1].key, e.key)) && Small(run + [e])
    ensures |Cut(before, opt, first).done| + 1 <= |MergeRuns(runs)|
  {
    hide Less, MergeRuns, Small, FeedAll, MergerInv, Mergeable;
    var all := MergeRuns(runs);
    EmittedClean(cursors, runs, before + [e]);
    EmittedPrefix(cursors, runs, before + [e]);
    assert (before + [e])[|before|] == e;
    NextFits(before, e, all, opt.sstMaxSize, first);
    PieceCount(before, opt.sstMaxSize, first);
  }

  lemma CutPush(before: Run, e: Entry, opt: Options, first: nat)
    ensures var w := Cut(before, opt, first);
            Cut(before + [e], opt, first) ==
            if RunSize(w.open + [e]) >= opt.sstMaxSize
            then Writing(w.done + [Tables.Table(first + |w.done|, w.open + [e])], []) else Writing(w.done, w.open + [e])
  {
    FeedAllPush(before, e, opt.sstMaxSize, first);
  }

  /** One round of the compaction loop. */
  method TakeEntry(merger: TableMerger, cache: Cache, opt: Options, ghost first: nat, ghost id: nat, tb: TableBuilder?,
                   outs: seq<TableReader>)
    returns (more: bool, open: TableBuilder?, done: seq<TableReader>)
    requires Compacting(merger, cache, opt, first, id, tb, outs)
    modifies merger, Moving(merger.iters), Parts(tb), cache
    ensures Compacting(merger, cache, opt, first, id, open, done) && Extends(old(cache.dirs), cache.dirs)
    ensures forall x :: x in Parts(open) ==> x in old(Parts(tb)) || fresh(x)
    ensures more ==> TotalPending(merger.cursors) < old(TotalPending(merger.cursors))
    ensures !more ==> merger.emitted == MergeRuns(merger.runs)
  {
    hide MergerInv, Mergeable, MergeRuns, TotalPending, Cut, Small, Tame, Less, RunSize, Holding, Building,
        TableMerger.Backed, Cache.Valid, AllNulFree;
    open, done := tb, outs;
    ghost var before := merger.emitted;
    ghost var w := Cut(before, opt, first);
    PartsAside(tb, merger);
    var kv := merger.Next();
    merger.BackedLength();
    more := kv.Some?;
    if !more {
      return;
    }
    var e := kv.value;
    EmittedNext(merger.cursors, merger.runs, before, e, opt, first);
    CutPush(before, e, opt, first);
    var t := AddEntry(tb, e, opt, w.open);
    open := t;
    PartsAside(t, merger);
    BuildingSize(t, opt.codec, w.open + [e]);
    if t.totalSizeEstimate < opt.sstMaxSize {
      return;
    }
    HoldingCount(outs, cache, cache.dirs, w.done);
    done := CloseBeside(merger, t, opt.meta, cache, w.open + [e], outs, Tables.RunsOf(w.done));
    open := null;
    assert Tables.RunsOf(w.done + [Tables.Table(first + |w.done|, w.open + [e])]) ==
        Tables.RunsOf(w.done) + [w.open + [e]];
    HoldingCount(done, cache, cache.dirs, w.done + [Tables.Table(first + |w.done|, w.open + [e])]);
    NothingBuilt(opt.codec);
  }

  lemma BuildingSize(tb: TableBuilder, codec: Codec, run: Run)
    requires Building(tb, codec, run)
    ensures tb.totalSizeEstimate == RunSize(run) && tb.codec == codec && run != []
  {
  }

  lemma NothingBuilt(codec: Codec)
    ensures Building(null, codec, [])
  {
  }

  lemma HoldingCount(outs: seq<TableReader>, cache: Cache, dirs: map<nat, Directory>, ts: seq<Tables.Table>)
    requires Holding(outs, cache, dirs, Tables.RunsOf(ts))
    ensures |outs| == |ts|
  {
  }

  /** Merges open tables into new ones: each new table is open, and holds exactly one piece of the merged
      stream, cut where a table has reached its size. */
  method CompactTables(tables: seq<TableReader>, cache: Cache, opt: Options, ghost first: nat)
                       returns (outs: seq<TableReader>)
    requires opt.Valid() && forall a :: 0 <= a < |tables| ==> tables[a].Valid() && tables[a].cache == cache
    requires AllNulFree(TableMergers.RunsOf(tables)) && Small(MergeRuns(TableMergers.RunsOf(tables)))
    requires cache.Valid() && cache.id + |MergeRuns(TableMergers.RunsOf(tables))| < TWO64
    modifies cache
    ensures cache.Valid() && Extends(old(cache.dirs), cache.dirs)
    ensures Holding(outs, cache, cache.dirs,
                    Tables.RunsOf(SplitTables(MergeRuns(TableMergers.RunsOf(tables)), opt.sstMaxSize, first)))
  {
    hide MergerInv, Mergeable, MergeRuns, TotalPending, Cut, Small, Less, RunSize, Holding, Building,
        TableMerger.Backed, Cache.Valid, AllNulFree, Options.Valid, SplitTables;
    var merger := new TableMerger(tables, cache);
    ghost var id := cache.id;
    outs := [];
    var tb: TableBuilder? := null;
    NothingCut(opt, first, cache, cache.dirs);
    var more := true;
    while more
      invariant fresh(merger) && fresh(Moving(merger.iters))
      invariant Compacting(merger, cache, opt, first, id, tb, outs) && Extends(old(cache.dirs), cache.dirs)
      invariant merger.runs == TableMergers.RunsOf(tables)
      invariant forall x :: x in Parts(tb) ==> fresh(x)
      invariant !more ==> merger.emitted == MergeRuns(merger.runs)
      decreases more, TotalPending(merger.cursors)
    {
      more, tb, outs := TakeEntry(merger, cache, opt, first, id, tb, outs);
    }
    outs := CloseLast(merger, cache, opt, first, id, tb, outs);
  }

  lemma NothingCut(opt: Options, first: nat, cache: Cache, dirs: map<nat, Directory>)
    ensures Cut([], opt, first) == Writing([], [])
    ensures Holding([], cache, dirs, Tables.RunsOf([])) && Building(null, opt.codec, [])
  {
  }

  /** The table still open when the stream ends. */
  method CloseLast(merger: TableMerger, cache: Cache, opt: Options, ghost first: nat, ghost id: nat, tb: TableBuilder?,
                   outs: seq<TableReader>)
    returns (done: seq<TableReader>)
    requires Compacting(merger, cache, opt, first, id, tb, outs) && merger.emitted == MergeRuns(merger.runs)
    modifies Parts(tb), cache
    ensures cache.Valid() && Extends(old(cache.dirs), cache.dirs)
    ensures Holding(done, cache, cache.dirs, Tables.RunsOf(SplitTables(MergeRuns(merger.runs), opt.sstMaxSize, first)))
  {
    hide MergerInv, Mergeable, MergeRuns, FeedAll, Small, Tame, Less, RunSize, Holding, Building, TableMerger.Backed,
        Cache.Valid, AllNulFree;
    done := outs;
    ghost var all := MergeRuns(merger.runs);
    ghost var w := Cut(all, opt, first);
    BuildingNull(tb, opt.codec, w.open);
    HoldingCount(outs, cache, cache.dirs, w.done);
    if tb != null {
      assert all == all[..|all|];
      OpenPieceSmall(all, all, opt.sstMaxSize, first);
      PieceCount(all, opt.sstMaxSize, first);
      BuildingSize(tb, opt.codec, w.open);
      done := CloseBeside(merger, tb, opt.meta, cache, w.open, outs, Tables.RunsOf(w.done));
      assert Tables.RunsOf(w.done + [Tables.Table(first + |w.done|, w.open)]) == Tables.RunsOf(w.done) + [w.open];
    }
  }

  lemma BuildingNull(tb: TableBuilder?, codec: Codec, run: Run)
    requires Building(tb, codec, run)
    ensures tb == null <==> run == []
  {
  }

  // ---- from memtables to a compacted level ----

  /** Flushes memtables to tables of one cache; those opened before stay open. */
  method FlushAll(runs: seq<Run>, cache: Cache, opt: Options) returns (tables: seq<TableReader>)
    requires opt.Valid() && cache.Valid() && cache.id + |runs| < TWO64
    requires forall a :: 0 <= a < |runs| ==>
             Sorted(runs[a]) && NonEmptyKeys(runs[a]) && NulFree(runs[a]) && Small(runs[a])
    modifies cache
    ensures cache.Valid() && cache.id <= old(cache.id) + |runs| && Extends(old(cache.dirs), cache.dirs)
    ensures Holding(tables, cache, cache.dirs, NonEmptySegs(runs))
  {
    hide Small, Tame, Less, NonEmptySegs, Holding, Cache.Valid, Sorted, NulFree, NonEmptyKeys, TableReader.Opened,
        TableReader.Registered, Flatten;
    NoneHeld(cache, cache.dirs);
    tables := [];
    var i := 0;
    while i < |runs|
      modifies cache
      invariant 0 <= i <= |runs| && cache.Valid() && cache.id <= old(cache.id) + i &&
                Extends(old(cache.dirs), cache.dirs)
      invariant Holding(tables, cache, cache.dirs, NonEmptySegs(runs[..i]))
    {
      ghost var dirs := cache.dirs;
      var reader := SkipListToSstable(opt.codec, opt.blockSize, opt.interval, runs[i], opt.meta, cache);
      HoldingExtends(tables, cache, dirs, cache.dirs, NonEmptySegs(runs[..i]));
      NonEmptyStep(runs, i);
      if reader != null {
        HoldingPush(tables, cache, cache.dirs, NonEmptySegs(runs[..i]), reader);
        tables := tables + [reader];
      }
      i := i + 1;
    }
    assert runs[..i] == runs;
  }

  lemma NoneHeld(cache: Cache, dirs: map<nat, Directory>)
    ensures NonEmptySegs([]) == [] && Holding([], cache, dirs, [])
  {
  }

  lemma HoldingPush(readers: seq<TableReader>, cache: Cache, dirs: map<nat, Directory>, runs: seq<Run>,
                    reader: TableReader)
    requires Holding(readers, cache, dirs, runs) && reader.cache == cache && reader.Opened() && reader.Registered(dirs)
    ensures Holding(readers + [reader], cache, dirs, runs + [Flatten(reader.blocks)])
  {
    hide Flatten, TableReader.Opened, TableReader.Registered;
  }

  /** Flush memtables on a new cache, open them, merge what the files hold: the merge of the memtables. */
  method FlushThenMerge(runs: seq<Run>, opt: Options) returns (out: Run)
    requires opt.Valid() && |runs| < TWO64
    requires forall a :: 0 <= a < |runs| ==>
             Sorted(runs[a]) && NonEmptyKeys(runs[a]) && NulFree(runs[a]) && Small(runs[a])
    ensures out == MergeRuns(runs)
  {
    hide Small, Less, NonEmptySegs, Cache.Valid, Sorted, NulFree, NonEmptyKeys, TableReader.Opened,
        TableReader.Registered, Flatten, MergeRuns, Find;
    var cache := new Cache();
    var tables := FlushAll(runs, cache, opt);
    out := MergeTables(tables, cache);
    assert TableMergers.RunsOf(tables) == NonEmptySegs(runs);
    NonEmptySegsSorted(runs);
    MergeRunsSorted(runs);
    MergeRunsSorted(NonEmptySegs(runs));
    forall k ensures Find(MergeRuns(NonEmptySegs(runs)), k) == Find(MergeRuns(runs), k) {
      NonEmptySegsFind(runs, k);
      MergeRunsFind(runs, k);
      MergeRunsFind(NonEmptySegs(runs), k);
    }
    SortedExtensional(MergeRuns(NonEmptySegs(runs)), MergeRuns(runs));
  }
}

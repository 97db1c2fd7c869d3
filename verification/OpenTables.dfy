/** Level lookups on open table files: what `SstableReader::get` does with the readers it holds
    (mirdb-server/src/sstable_reader.rs, sstable/src/table_reader.rs). */
module OpenTables {
  import opened Bytes
  import opened Runs
  import opened Tables
  import opened SstableReaders
  import opened TableFormat
  import opened Caches
  import opened TableReaders

  /** A table of the levels is open: its reader reads a file with exactly its entries. */
  ghost predicate Backs(open: map<nat, TableReader>, cache: Cache, dirs: map<nat, Directory>, t: Table) {
    && t.num in open && open[t.num].cache == cache && open[t.num].Opened() && open[t.num].Registered(dirs)
    && Flatten(open[t.num].blocks) == t.run
  }

  ghost predicate AllBacked(open: map<nat, TableReader>, cache: Cache, dirs: map<nat, Directory>, ts: seq<Table>) {
    forall i :: 0 <= i < |ts| ==> Backs(open, cache, dirs, ts[i])
  }

  /** One table, through its file. */
  method GetFrom(open: map<nat, TableReader>, cache: Cache, t: Table, k: Key) returns (r: Option<Value>)
    requires cache.Valid() && Backs(open, cache, cache.dirs, t)
    modifies open.Values`seekMissCount, cache`inner
    ensures cache.Valid() && r == Find(t.run, k)
  {
    hide TableReader.Opened, TableReader.Registered, Cache.Valid, Flatten, Find;
    r := open[t.num].Get(k);
  }

  /** The first table that has the key answers. */
  method FirstOpenHit(open: map<nat, TableReader>, cache: Cache, ts: seq<Table>, k: Key) returns (r: Option<Value>)
    requires cache.Valid() && AllBacked(open, cache, cache.dirs, ts)
    modifies open.Values`seekMissCount, cache`inner
    ensures cache.Valid() && r == TablesFind(ts, k)
  {
    hide TablesFind, Find, Backs, Cache.Valid;
    var i := 0;
    while i < |ts|
      modifies open.Values`seekMissCount, cache`inner
      invariant 0 <= i <= |ts| && cache.Valid()
      invariant TablesFind(ts, k) == TablesFind(ts[i..], k)
    {
      assert ts[i..] == [ts[i]] + ts[i + 1..];
      TablesFindConcat([ts[i]], ts[i + 1..], k);
      TablesFindOne(ts[i], k);
      r := GetFrom(open, cache, ts[i], k);
      if r.Some? {
        return;
      }
      i := i + 1;
    }
    assert ts[i..] == [];
    TablesFindNone([], k);
    r := None;
  }

  lemma {:induction false} CoveringBacked(open: map<nat, TableReader>, cache: Cache, dirs: map<nat, Directory>,
                                          ts: seq<Table>, k: Key)
    requires NonEmptyRuns(ts) && AllBacked(open, cache, dirs, ts)
    ensures AllBacked(open, cache, dirs, Covering(ts, k))
  {
    hide Backs, Less;
    if ts != [] { CoveringBacked(open, cache, dirs, ts[1..], k); }
  }

  /** All levels, newest first: the binary search picks the tables, their files answer. */
  method Get(readers: SstableReader, open: map<nat, TableReader>, cache: Cache, k: Key) returns (r: Option<Value>)
    requires |readers.readers| == readers.maxLevel && LevelsOk(readers.readers) && cache.Valid()
    requires forall l :: 0 <= l < readers.maxLevel ==> AllBacked(open, cache, cache.dirs, readers.readers[l])
    modifies open.Values`seekMissCount, cache`inner
    ensures cache.Valid() && r == LevelsFind(readers.readers, 0, k)
  {
    hide TablesFind, Covering, Backs, Cache.Valid, Reverse;
    ghost var levels := readers.readers;
    var i := 0;
    while i < readers.maxLevel
      modifies open.Values`seekMissCount, cache`inner
      invariant 0 <= i <= readers.maxLevel && cache.Valid()
      invariant LevelsFind(levels, 0, k) == LevelsFind(levels, i, k)
    {
      var found := readers.SearchReaders(i, k);
      SearchOrderValid(i, levels[i]);
      CoveringFind(SearchOrder(i, levels[i]), k);
      assert AllBacked(open, cache, cache.dirs, SearchOrder(i, levels[i]));
      CoveringBacked(open, cache, cache.dirs, SearchOrder(i, levels[i]), k);
      r := FirstOpenHit(open, cache, found, k);
      if r.Some? {
        return;
      }
      i := i + 1;
    }
    r := None;
  }
}

/** The merger over table files: the iterators it really moves (mirdb-server/src/merger.rs). */
module TableMergers {
  import opened Bytes
  import opened Runs
  import opened Cursors
  import opened Mergers
  import opened BlockFormat
  import opened TableFormat
  import opened Caches
  import opened TableReaders

  /** The iterator's own fields are those of an abstract cursor over the table's entries. */
  ghost predicate Placed(it: TableIter, c: Cursor)
    reads it, it.indexIter
  {
    var t := it.table;
    && t.k >= 1
    && it.indexIter.block == t.indexBlock && it.indexIter.entries == t.idx && it.indexIter.interval == t.k
    && it.indexIter.state.restartsOffset == |Body(t.idx, t.k)|
    && Inner(t.blocks, t.idx, t.k, it.indexIter.state, it.ip, it.dataBlock, it.dataState, it.cur, it.pos)
    && Position(t.blocks, it.ip, it.dataBlock, it.cur, it.pos, c.pos) && c.run == Flatten(t.blocks)
  }

  lemma PlacedIsAt(it: TableIter, c: Cursor)
    ensures it.table.Valid() && Placed(it, c) <==> it.At(c.pos) && c.run == Flatten(it.table.blocks)
  {
    hide Represents, Indexed, DirectoryOf, Block, Body, Inner, Flatten, Cache.Valid;
  }

  lemma PlacedRange(it: TableIter, c: Cursor)
    requires Placed(it, c)
    ensures c.Valid()
  {
    hide Body, Flatten, Start;
    if it.dataBlock.Some? && 0 <= it.pos < |it.table.blocks[it.cur]| { FlattenAt(it.table.blocks, it.cur, it.pos); }
  }

  ghost predicate Separate(iters: seq<TableIter>, cache: Cache) {
    && (forall a :: 0 <= a < |iters| ==> iters[a].table.cache == cache)
    && (forall a, b :: 0 <= a < b < |iters| ==> iters[a] != iters[b] && iters[a].indexIter != iters[b].indexIter)
  }

  ghost function Moving(iters: seq<TableIter>): set<object> {
    (set a | 0 <= a < |iters| :: iters[a]) + (set a | 0 <= a < |iters| :: iters[a].indexIter)
  }

  lemma MovingPush(iters: seq<TableIter>, it: TableIter)
    ensures Moving(iters + [it]) == Moving(iters) + {it, it.indexIter}
  {
    var all := iters + [it];
    assert forall a :: 0 <= a < |iters| ==> all[a] == iters[a];
    assert all[|iters|] == it;
    forall x | x in Moving(iters) + {it, it.indexIter} ensures x in Moving(all) {
      if x in Moving(iters) {
        var a :| 0 <= a < |iters| && (iters[a] == x || iters[a].indexIter == x);
        assert all[a] == iters[a];
      }
    }
  }

  ghost function Files(iters: seq<TableIter>): set<object> {
    set a | 0 <= a < |iters| :: iters[a].table
  }

  ghost function RunsOf(tables: seq<TableReader>): (rs: seq<Run>)
    ensures |rs| == |tables| && forall a :: 0 <= a < |tables| ==> rs[a] == Flatten(tables[a].blocks)
  {
    seq(|tables|, a requires 0 <= a < |tables| => Flatten(tables[a].blocks))
  }

  lemma TablesMerge(tables: seq<TableReader>)
    requires forall a :: 0 <= a < |tables| ==> tables[a].Valid()
    ensures Mergeable(RunsOf(tables))
  {
    hide Flatten;
    forall a | 0 <= a < |tables| ensures Sorted(Flatten(tables[a].blocks)) && NonEmptyKeys(Flatten(tables[a].blocks)) {
      TableEntries(tables[a]);
    }
  }

  lemma TableEntries(t: TableReader)
    requires t.Valid()
    ensures Sorted(Flatten(t.blocks)) && NonEmptyKeys(Flatten(t.blocks))
  {
    hide Flatten;
  }

  method OpenIters(tables: seq<TableReader>, ghost cache: Cache) returns (iters: seq<TableIter>)
    requires forall a :: 0 <= a < |tables| ==> tables[a].Valid() && tables[a].cache == cache
    ensures |iters| == |tables| && Separate(iters, cache) && fresh(Moving(iters))
    ensures forall a :: 0 <= a < |tables| ==>
            iters[a].table == tables[a] && Placed(iters[a], Cursor(Flatten(tables[a].blocks), -1))
  {
    hide Flatten, Placed, TableReader.Valid, TableIter.At;
    iters := [];
    var a := 0;
    while a < |tables|
      invariant 0 <= a == |iters| <= |tables| && Separate(iters, cache) && fresh(Moving(iters))
      invariant forall b :: 0 <= b < a ==>
                iters[b].table == tables[b] && Placed(iters[b], Cursor(Flatten(tables[b].blocks), -1))
    {
      var it := new TableIter(tables[a]);
      PlacedIsAt(it, Cursor(Flatten(tables[a].blocks), -1));
      MovingPush(iters, it);
      iters := iters + [it];
      a := a + 1;
    }
  }

  class TableMerger {
    const iters: seq<TableIter>
    const cache: Cache
    var i: Option<nat>
    ghost var cursors: seq<Cursor>
    ghost const runs: seq<Run>
    ghost var emitted: Run

    ghost predicate Backed()
      reads `cursors, Moving(iters), Files(iters), cache
    {
      && Separate(iters, cache) && cache.Valid() && |cursors| == |iters|
      && forall a :: 0 <= a < |iters| ==> iters[a].table.Valid() && Placed(iters[a], cursors[a])
    }

    ghost predicate Valid()
      reads this, Moving(iters), Files(iters), cache
    {
      Backed() && Mergeable(runs) && MergerInv(cursors, runs, emitted)
    }

    /** A merger over open tables that share a cache, earlier tables first. */
    constructor (tables: seq<TableReader>, cache: Cache)
      requires cache.Valid() && forall a :: 0 <= a < |tables| ==> tables[a].Valid() && tables[a].cache == cache
      ensures Valid() && fresh(Moving(iters)) && Files(iters) == (set a | 0 <= a < |tables| :: tables[a] as object)
      ensures this.cache == cache && runs == RunsOf(tables) && emitted == []
    {
      hide Flatten, Placed, TableReader.Valid;
      var its := OpenIters(tables, cache);
      iters, this.cache := its, cache;
      i := None;
      cursors := seq(|tables|, a requires 0 <= a < |tables| => Cursor(Flatten(tables[a].blocks), -1));
      runs := RunsOf(tables);
      emitted := [];
      TablesMerge(tables);
    }

    /** One iterator forward; its cursor goes along, the others stay. */
    method Forth(a: nat) returns (more: bool)
      requires Backed() && a < |iters|
      modifies `cursors, iters[a], iters[a].indexIter, cache`inner
      ensures Backed() && cursors == old(cursors)[a := old(cursors)[a].Advance()]
      ensures more == cursors[a].OnEntry()
    {
      hide Flatten, Placed, TableIter.At, Cache.Valid, TableReader.Opened, TableReader.Registered;
      PlacedIsAt(iters[a], cursors[a]);
      PlacedRange(iters[a], cursors[a]);
      more := iters[a].Next(cursors[a].pos);
      cursors := cursors[a := cursors[a].Advance()];
      PlacedIsAt(iters[a], cursors[a]);
    }

    /** One iterator back. */
    method Back(a: nat)
      requires Backed() && a < |iters|
      modifies `cursors, iters[a], iters[a].indexIter, cache`inner
      ensures Backed() && cursors == old(cursors)[a := old(cursors)[a].Prev()]
    {
      hide Flatten, Placed, TableIter.At, Cache.Valid, TableReader.Opened, TableReader.Registered;
      PlacedIsAt(iters[a], cursors[a]);
      var _ := iters[a].Prev(cursors[a].pos);
      cursors := cursors[a := cursors[a].Prev()];
      PlacedIsAt(iters[a], cursors[a]);
    }

    /** The entry an iterator is on. */
    method Current(a: nat) returns (r: Option<Entry>)
      requires Backed() && a < |iters|
      ensures Backed()
      ensures r == if cursors[a].OnEntry() then Some(cursors[a].run[cursors[a].pos]) else None
    {
      hide Flatten, Placed, TableIter.At, Cache.Valid, TableReader.Opened, TableReader.Registered;
      PlacedIsAt(iters[a], cursors[a]);
      r := iters[a].CurrentKV(cursors[a].pos);
    }

    /** One input of a pass. */
    method Pass(j: nat, pk: Option<Key>, pi: Option<nat>, ghost was: seq<Cursor>)
                returns (nextK: Option<Key>, nextI: Option<nat>)
      requires Backed() && Mergeable(runs) && j < |iters| && PassInv(was, cursors, runs, j, pk, pi)
      modifies `cursors, Moving(iters), cache`inner
      ensures Backed() && PassInv(was, cursors, runs, j + 1, nextK, nextI)
    {
      hide Backed, PassInv, Mergeable, Less;
      ghost var before := cursors;
      BackedLength();
      PassFacts(was, before, runs, j, pk, pi);
      InMoving(iters, j);
      nextK, nextI := pk, pi;
      var more := Forth(j);
      BackedLength();
      if !more {
        PassExhausted(was, before, runs, j, pk, pi);
        return;
      }
      var kv := Current(j);
      var nk := kv.value.key;
      KeyIsCurrent(runs, j, cursors[j]);
      if pk.Some? {
        if Less(nk, pk.value) {
          InMoving(iters, pi.value);
          Back(pi.value);
          PassBetter(was, before, runs, j, pk.value, pi.value);
          nextK, nextI := Some(nk), Some(j);
        } else if Less(pk.value, nk) {
          Back(j);
          PassWorse(was, before, runs, j, pk.value, pi.value);
        } else {
          PassTie(was, before, runs, j, pk.value, pi.value);
        }
      } else {
        PassFirst(was, before, runs, j);
        nextK, nextI := Some(nk), Some(j);
      }
    }

    lemma BackedLength()
      requires Backed()
      ensures |cursors| == |iters| && cache.Valid()
    {
    }

    /** The merger is none of the objects it moves. */
    lemma Aside()
      ensures this !in Moving(iters) && this !in Files(iters)
    {
    }

    /** `advance` on the iterators: each is moved, the losers are moved back, as on abstract cursors. */
    method Advance() returns (found: bool)
      requires Valid()
      modifies `i, `cursors, `emitted, Moving(iters), cache`inner
      ensures Valid()
      ensures !found ==> emitted == old(emitted) == MergeRuns(runs) && i == None
      ensures found ==> |emitted| == |old(emitted)| + 1 && old(emitted) == emitted[..|old(emitted)|]
      ensures found ==> i.Some? && i.value < |cursors| && cursors[i.value].OnEntry()
      ensures found ==> cursors[i.value].run[cursors[i.value].pos] == emitted[|old(emitted)|]
      ensures found ==> TotalPending(cursors) < old(TotalPending(cursors))
    {
      hide Backed, PassInv, MergerInv, Mergeable, MergeRuns, TotalPending, Less;
      var pk: Option<Key> := None;
      var pi: Option<nat> := None;
      ghost var was := cursors;
      PassStart(was, runs, emitted);
      BackedLength();
      var j := 0;
      while j < |iters|
        modifies `cursors, Moving(iters), cache`inner
        invariant Backed() && 0 <= j <= |iters| && PassInv(was, cursors, runs, j, pk, pi)
      {
        pk, pi := Pass(j, pk, pi, was);
        j := j + 1;
      }
      Aside();
      i := pi;
      found := pk.Some?;
      BackedLength();
      PassFacts(was, cursors, runs, j, pk, pi);
      if found {
        PassEmits(was, cursors, runs, pk.value, pi.value, emitted);
        PassDrops(was, cursors, runs, pk.value, pi.value);
        emitted := emitted + [runs[pi.value][cursors[pi.value].pos]];
      } else {
        PassDone(was, cursors, runs, emitted);
      }
    }

    /** One merged entry, or none when all tables are used up. */
    method Next() returns (r: Option<Entry>)
      requires Valid()
      modifies `i, `cursors, `emitted, Moving(iters), cache`inner
      ensures Valid()
      ensures r.Some? ==> emitted == old(emitted) + [r.value]
      ensures r.None? ==> emitted == old(emitted) == MergeRuns(runs)
      ensures r.Some? ==> TotalPending(cursors) < old(TotalPending(cursors))
    {
      hide Backed, MergerInv, Mergeable, MergeRuns, TotalPending;
      Aside();
      var found := Advance();
      BackedLength();
      if !found {
        r := None;
      } else {
        r := Current(i.value);
      }
    }
  }

  /** Reading a merger over open tables to its end gives the merge of what the tables hold. */
  method MergeTables(tables: seq<TableReader>, cache: Cache) returns (out: Run)
    requires cache.Valid() && forall a :: 0 <= a < |tables| ==> tables[a].Valid() && tables[a].cache == cache
    modifies cache`inner
    ensures out == MergeRuns(RunsOf(tables))
  {
    hide MergerInv, Mergeable, MergeRuns, TotalPending, RunsOf;
    var merger := new TableMerger(tables, cache);
    out := [];
    while true
      modifies merger, Moving(merger.iters), cache`inner
      invariant merger.Valid() && merger.cache == cache && out == merger.emitted
      decreases TotalPending(merger.cursors)
    {
      var kv := merger.Next();
      if kv.None? {
        break;
      }
      out := out + [kv.value];
    }
  }

  lemma InMoving(iters: seq<TableIter>, a: nat)
    requires a < |iters|
    ensures iters[a] in Moving(iters) && iters[a].indexIter in Moving(iters)
  {
  }

  lemma PassFacts(was: seq<Cursor>, now: seq<Cursor>, runs: seq<Run>, i: nat, pk: Option<Key>, pi: Option<nat>)
    requires PassInv(was, now, runs, i, pk, pi)
    ensures |was| == |now| == |runs| && pk.Some? == pi.Some? && (pi.Some? ==> pi.value < i <= |runs|)
    ensures forall a :: 0 <= a < |runs| ==> now[a].run == runs[a]
    ensures pi.Some? ==> now[pi.value].OnEntry()
  {
  }

  lemma PassStart(was: seq<Cursor>, runs: seq<Run>, emitted: Run)
    requires MergerInv(was, runs, emitted)
    ensures PassInv(was, was, runs, 0, None, None)
  {
  }

  lemma PassDrops(was: seq<Cursor>, now: seq<Cursor>, runs: seq<Run>, pk: Key, pi: nat)
    requires PassInv(was, now, runs, |runs|, Some(pk), Some(pi))
    ensures TotalPending(now) < TotalPending(was)
  {
    hide TotalPending;
    PendingDrops(was, now, runs, pi);
  }

  lemma KeyIsCurrent(runs: seq<Run>, j: nat, c: Cursor)
    requires Mergeable(runs) && j < |runs| && c.run == runs[j] && c.OnEntry()
    ensures c.CurrentK() == Some(c.run[c.pos].key)
  {
  }
}

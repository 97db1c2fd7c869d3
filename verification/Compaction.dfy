/** Major compaction: choosing inputs, merging them into new tables, and swapping them into the
    levels (`size_compaction` and `get_other_readers`, mirdb-server/src/data_manager.rs). */
module Compaction {
  import opened Bytes
  import opened Runs
  import opened Mergers
  import opened Tables
  import opened SstableReaders

  // ---- cutting the merged stream into tables ----

  function EntrySize(e: Entry): nat {
    |e.key| + |e.value|
  }

  function RunSize(es: Run): nat {
    if es == [] then 0 else RunSize(es[..|es| - 1]) + EntrySize(es[|es| - 1])
  }

  /** Finished tables and the entries of the table being built. */
  datatype Writing = Writing(done: seq<Table>, open: Run)

  /** One more entry: the table is closed once it reaches the size limit. */
  function Feed(w: Writing, e: Entry, limit: nat, first: nat): Writing {
    var run := w.open + [e];
    if RunSize(run) >= limit then Writing(w.done + [Table(first + |w.done|, run)], []) else Writing(w.done, run)
  }

  function FeedAll(es: Run, limit: nat, first: nat): Writing {
    if es == [] then Writing([], []) else Feed(FeedAll(es[..|es| - 1], limit, first), es[|es| - 1], limit, first)
  }

  /** The tables written for a stream, numbered from `first`. */
  function SplitTables(es: Run, limit: nat, first: nat): seq<Table> {
    var w := FeedAll(es, limit, first);
    if w.open == [] then w.done else w.done + [Table(first + |w.done|, w.open)]
  }

  function Concat(ts: seq<Table>): Run {
    if ts == [] then [] else Concat(ts[..|ts| - 1]) + ts[|ts| - 1].run
  }

  ghost predicate Numbered(ts: seq<Table>, first: nat) {
    forall i :: 0 <= i < |ts| ==> ts[i].num == first + i && ts[i].run != []
  }

  lemma ConcatPush(ts: seq<Table>, t: Table)
    ensures Concat(ts + [t]) == Concat(ts) + t.run
  {
    assert (ts + [t])[..|ts|] == ts;
  }

  lemma NothingConcat()
    ensures Concat([]) == []
  {
  }

  lemma FeedConcat(w: Writing, e: Entry, limit: nat, first: nat)
    requires Numbered(w.done, first)
    ensures Concat(Feed(w, e, limit, first).done) + Feed(w, e, limit, first).open == Concat(w.done) + w.open + [e]
    ensures Numbered(Feed(w, e, limit, first).done, first)
  {
    hide Concat, RunSize;
    ConcatPush(w.done, Table(first + |w.done|, w.open + [e]));
    assert Concat(w.done) + (w.open + [e]) == Concat(w.done) + w.open + [e];
  }

  lemma {:induction false} FeedAllConcat(es: Run, limit: nat, first: nat)
    ensures Concat(FeedAll(es, limit, first).done) + FeedAll(es, limit, first).open == es
    ensures Numbered(FeedAll(es, limit, first).done, first)
  {
    hide Feed, Concat, RunSize;
    FeedNothing(limit, first);
    NothingConcat();
    if es != [] {
      FeedAllConcat(es[..|es| - 1], limit, first);
      FeedConcat(FeedAll(es[..|es| - 1], limit, first), es[|es| - 1], limit, first);
      assert es == es[..|es| - 1] + [es[|es| - 1]];
    }
  }

  lemma FeedAllPush(es: Run, e: Entry, limit: nat, first: nat)
    ensures FeedAll(es + [e], limit, first) == Feed(FeedAll(es, limit, first), e, limit, first)
  {
    hide Feed;
    assert (es + [e])[..|es|] == es;
  }

  lemma FeedNothing(limit: nat, first: nat)
    ensures FeedAll([], limit, first) == Writing([], []) && RunSize([]) == 0
  {
  }

  lemma RunSizePush(es: Run, e: Entry)
    ensures RunSize(es + [e]) == RunSize(es) + EntrySize(e)
  {
    assert (es + [e])[..|es|] == es;
  }

  /** The written tables are non-empty, numbered in order, and concatenate to the stream. */
  lemma SplitTablesConcat(es: Run, limit: nat, first: nat)
    ensures Concat(SplitTables(es, limit, first)) == es
    ensures Numbered(SplitTables(es, limit, first), first)
  {
    hide FeedAll, Concat;
    FeedAllConcat(es, limit, first);
    var w := FeedAll(es, limit, first);
    ConcatPush(w.done, Table(first + |w.done|, w.open));
  }

  /** A table reaches the limit with its last entry at the earliest. */
  ghost predicate NotFullBefore(run: Run, limit: nat) {
    forall n :: 0 < n < |run| ==> RunSize(run[..n]) < limit
  }

  /** The finished tables were closed by the entry that filled them; the open one is not full. */
  ghost predicate CutInTime(w: Writing, limit: nat) {
    && (forall i :: 0 <= i < |w.done| ==> NotFullBefore(w.done[i].run, limit) && RunSize(w.done[i].run) >= limit)
    && NotFullBefore(w.open, limit) && (w.open != [] ==> RunSize(w.open) < limit)
  }

  lemma FeedCuts(w: Writing, e: Entry, limit: nat, first: nat)
    requires CutInTime(w, limit)
    ensures CutInTime(Feed(w, e, limit, first), limit)
  {
    hide RunSize;
    var run := w.open + [e];
    forall n | 0 < n < |run| ensures RunSize(run[..n]) < limit {
      assert run[..n] == w.open[..n];
      if n == |w.open| { assert w.open[..n] == w.open; }
    }
    assert NotFullBefore(run, limit);
  }

  lemma {:induction false} FeedAllCuts(es: Run, limit: nat, first: nat)
    ensures CutInTime(FeedAll(es, limit, first), limit)
  {
    hide Feed, RunSize;
    if es == [] {
      FeedNothing(limit, first);
    } else {
      FeedAllCuts(es[..|es| - 1], limit, first);
      FeedCuts(FeedAll(es[..|es| - 1], limit, first), es[|es| - 1], limit, first);
    }
  }

  /** Where the stream is cut: every table but the last has reached the limit, and none had reached it
      before its last entry. */
  lemma SplitTablesCut(es: Run, limit: nat, first: nat)
    ensures var ts := SplitTables(es, limit, first);
            forall i :: 0 <= i < |ts| ==>
              && (i < |ts| - 1 ==> RunSize(ts[i].run) >= limit)
              && forall n :: 0 < n < |ts[i].run| ==> RunSize(ts[i].run[..n]) < limit
  {
    hide FeedAll, RunSize;
    FeedAllCuts(es, limit, first);
    var ts := SplitTables(es, limit, first);
    assert forall i :: 0 <= i < |ts| ==> NotFullBefore(ts[i].run, limit);
  }

  /** Pieces of a sorted stream form an ordered level that looks up like the stream. */
  lemma {:induction false} PiecesOfSorted(ts: seq<Table>, k: Key)
    requires NonEmptyRuns(ts) && Sorted(Concat(ts)) && NonEmptyKeys(Concat(ts))
    ensures LevelOk(ts) && TablesFind(ts, k) == Find(Concat(ts), k)
  {
    hide Less, LowerBound, Find, Sorted, NonEmptyKeys, TablesFind, Concat, LevelOk;
    if ts == [] {
      NoTables(k);
    } else {
      var front, t := ts[..|ts| - 1], ts[|ts| - 1];
      var es := Concat(front);
      assert ts == front + [t];
      ConcatPush(front, t);
      FindConcat(es, t.run, k);
      NonEmptyParts(es, t.run);
      PiecesOfSorted(front, k);
      TablesFindConcat(front, [t], k);
      TablesFindOne(t, k);
      forall i | 0 <= i < |front| ensures Less(front[i].Max(), t.Min()) {
        LastInConcat(front, i);
        BeforeInConcat(es, t.run, front[i].Max());
      }
      LevelPush(front, t);
    }
  }

  lemma LevelPush(ts: seq<Table>, t: Table)
    requires LevelOk(ts) && t.Valid() && forall i :: 0 <= i < |ts| ==> Less(ts[i].Max(), t.Min())
    ensures LevelOk(ts + [t])
  {
    hide Less, Sorted, NonEmptyKeys;
  }

  lemma NoTables(k: Key)
    ensures TablesFind([], k) == Find([], k) && Concat([]) == [] && LevelOk([])
  {
    TablesFindNone([], k);
    FindNone([], k);
  }

  lemma NonEmptyParts(a: Run, b: Run)
    requires NonEmptyKeys(a + b)
    ensures NonEmptyKeys(a) && NonEmptyKeys(b)
  {
    assert forall i :: 0 <= i < |a| ==> a[i] == (a + b)[i];
    assert forall i :: 0 <= i < |b| ==> b[i] == (a + b)[|a| + i];
  }

  lemma BeforeInConcat(a: Run, b: Run, k: Key)
    requires Sorted(a + b) && b != [] && exists x :: 0 <= x < |a| && a[x].key == k
    ensures Less(k, b[0].key)
  {
    hide Less;
    var x :| 0 <= x < |a| && a[x].key == k;
    assert (a + b)[x] == a[x] && (a + b)[|a|] == b[0];
  }

  lemma {:induction false} LastInConcat(ts: seq<Table>, i: nat)
    requires NonEmptyRuns(ts) && i < |ts|
    ensures exists x :: 0 <= x < |Concat(ts)| && Concat(ts)[x].key == ts[i].Max()
  {
    var front, t := ts[..|ts| - 1], ts[|ts| - 1];
    if i == |ts| - 1 {
      assert Concat(ts)[|Concat(ts)| - 1].key == t.Max();
    } else {
      LastInConcat(front, i);
      var x :| 0 <= x < |Concat(front)| && Concat(front)[x].key == ts[i].Max();
      assert Concat(ts)[x].key == ts[i].Max();
    }
  }

  /** The compaction loop: read the merger until it is empty, closing tables that are full. */
  method WriteMerged(runs: seq<Run>, limit: nat, first: nat) returns (tables: seq<Table>)
    requires Mergeable(runs)
    ensures tables == SplitTables(MergeRuns(runs), limit, first)
  {
    hide FeedAll, RunSize, MergeRuns, Mergeable, MergerInv;
    var merger := new Merger(runs);
    FeedNothing(limit, first);
    tables := [];
    var open: Option<Run> := None;
    var size := 0;
    while true
      invariant merger.Valid() && fresh(merger) && merger.runs == runs
      invariant FeedAll(merger.emitted, limit, first) == Writing(tables, if open.Some? then open.value else [])
      invariant open.Some? ==> open.value != [] && size == RunSize(open.value)
      decreases TotalPending(merger.iters)
    {
      ghost var before := merger.emitted;
      var kv := merger.Next();
      if kv.None? {
        break;
      }
      FeedAllPush(before, kv.value, limit, first);
      if open.None? {
        open := Some([]);
        size := 0;
      }
      RunSizePush(open.value, kv.value);
      open := Some(open.value + [kv.value]);
      size := size + EntrySize(kv.value);
      if size < limit {
        continue;
      }
      tables := tables + [Table(first + |tables|, open.value)];
      open := None;
    }
    if open.Some? {
      tables := tables + [Table(first + |tables|, open.value)];
    }
  }

  // ---- choosing the inputs ----

  /** Tables of a level above 0 whose largest key is beyond the last compaction point. */
  function BeyondKey(ts: seq<Table>, last: Option<Key>): seq<Table>
    requires NonEmptyRuns(ts)
  {
    if ts == [] then []
    else BeyondKey(ts[..|ts| - 1], last)
         + if last.None? || Less(last.value, ts[|ts| - 1].Max()) then [ts[|ts| - 1]] else []
  }

  /** The inputs from the compacted level: all of level 0, newest first; above it those beyond the
      last compaction point, or the first table if there are none. */
  function Inputs0(level: nat, ts: seq<Table>, last: Option<Key>): seq<Table>
    requires ts != [] && NonEmptyRuns(ts)
  {
    if level == 0 then Reverse(ts)
    else
      var chosen := BeyondKey(ts, last);
      if chosen == [] then [ts[0]] else chosen
  }

  /** Smallest and largest key of the inputs, as the fold over them computes it. */
  function RangeMin(ts: seq<Table>): Key
    requires ts != [] && NonEmptyRuns(ts)
  {
    if |ts| == 1 then ts[0].Min() else MinKey(RangeMin(ts[..|ts| - 1]), ts[|ts| - 1].Min())
  }

  function RangeMax(ts: seq<Table>): Key
    requires ts != [] && NonEmptyRuns(ts)
  {
    if |ts| == 1 then ts[0].Max() else MaxKey(RangeMax(ts[..|ts| - 1]), ts[|ts| - 1].Max())
  }

  lemma {:induction false} RangeCovers(ts: seq<Table>)
    requires ts != [] && NonEmptyRuns(ts)
    ensures forall i :: 0 <= i < |ts| ==> !Less(ts[i].Min(), RangeMin(ts)) && !Less(RangeMax(ts), ts[i].Max())
  {
    hide Less;
    var n := |ts| - 1;
    LessIrreflexive(ts[n].Min());
    LessIrreflexive(ts[n].Max());
    if n > 0 {
      RangeCovers(ts[..n]);
      var lo, hi := RangeMin(ts[..n]), RangeMax(ts[..n]);
      LessAsymmetric(ts[n].Min(), lo);
      LessAsymmetric(hi, ts[n].Max());
      forall i | 0 <= i < n ensures !Less(ts[i].Min(), RangeMin(ts)) && !Less(RangeMax(ts), ts[i].Max()) {
        assert ts[..n][i] == ts[i];
        NotBelowChain(ts[i].Min(), lo, ts[n].Min());
        NotBelowChain(ts[n].Max(), hi, ts[i].Max());
      }
    }
  }

  /** From b <= a and c < b follows c < a, said with the complements. */
  lemma NotBelowChain(a: Key, b: Key, c: Key)
    ensures !Less(a, b) && Less(c, b) ==> !Less(a, c)
    ensures !Less(b, c) && Less(b, a) ==> !Less(a, c)
  {
    LessTotal(a, b);
    LessTotal(b, c);
    LessTotal(a, c);
    LessIsStrictTotalOrder();
  }

  /** `get_other_readers`: scans until a table starts beyond the range, keeping those not ending before it. */
  function OtherReaders(lo: Key, hi: Key, ts: seq<Table>): seq<Table>
    requires NonEmptyRuns(ts)
  {
    if ts == [] || Less(hi, ts[0].Min()) then []
    else (if Less(ts[0].Max(), lo) then [] else [ts[0]]) + OtherReaders(lo, hi, ts[1..])
  }

  ghost predicate Overlaps(t: Table, lo: Key, hi: Key)
    requires t.run != []
  {
    !Less(hi, t.Min()) && !Less(t.Max(), lo)
  }

  /** On an ordered level the scan finds exactly the overlapping tables, still in order. */
  lemma {:induction false} OtherReadersExact(lo: Key, hi: Key, ts: seq<Table>)
    requires LevelOk(ts)
    ensures LevelOk(OtherReaders(lo, hi, ts))
    ensures forall t :: t in OtherReaders(lo, hi, ts) <==> t in ts && t.run != [] && Overlaps(t, lo, hi)
  {
    hide Less;
    if ts == [] {
    } else if Less(hi, ts[0].Min()) {
      forall t | t in ts ensures t.run != [] && Less(hi, t.Min()) { AllBeyond(ts, hi, t); }
    } else {
      OtherReadersExact(lo, hi, ts[1..]);
      var rest := OtherReaders(lo, hi, ts[1..]);
      assert ts == [ts[0]] + ts[1..];
      forall i | 0 <= i < |rest| ensures Before(ts[0], rest[i]) {
        assert rest[i] in ts[1..];
      }
    }
  }

  lemma AllBeyond(ts: seq<Table>, hi: Key, t: Table)
    requires LevelOk(ts) && t in ts && Less(hi, ts[0].Min())
    ensures t.run != [] && Less(hi, t.Min())
  {
    hide Less;
    var i :| 0 <= i < |ts| && ts[i] == t;
    if i > 0 {
      MinAtMostMax(ts[0]);
      assert Before(ts[0], ts[i]);
      LessChain(ts[0].Min(), ts[0].Max(), t.Min());
      LessTransitive(hi, ts[0].Min(), t.Min());
    }
  }

  function Nums(ts: seq<Table>): set<nat> {
    set t | t in ts :: t.num
  }

  /** A compaction between its snapshot and its commit. */
  datatype Plan = Plan(level: nat, inputs0: seq<Table>, inputs1: seq<Table>, outputs: seq<Table>)

  /** What `size_compaction` decides under the read lock. */
  function MakePlan(levels: seq<seq<Table>>, level: nat, last: Option<Key>, limit: nat, first: nat): Plan
    requires level + 1 < |levels| && levels[level] != []
    requires NonEmptyRuns(levels[level]) && NonEmptyRuns(levels[level + 1])
    requires NonEmptyRuns(Inputs0(level, levels[level], last)) && Inputs0(level, levels[level], last) != []
  {
    var in0 := Inputs0(level, levels[level], last);
    var in1 := OtherReaders(RangeMin(in0), RangeMax(in0), levels[level + 1]);
    Plan(level, in0, in1, SplitTables(MergeRuns(RunsOf(in0 + in1)), limit, first))
  }

  /** What it does to the levels under the write lock. */
  function Commit(levels: seq<seq<Table>>, p: Plan): seq<seq<Table>>
    requires p.level + 1 < |levels| && NonEmptyRuns(p.outputs) && NonEmptyRuns(levels[p.level + 1])
  {
    RetainMembers(levels[p.level + 1], Nums(p.inputs1));
    AddTables(RemoveTables(RemoveTables(levels, p.level, Nums(p.inputs0)), p.level + 1, Nums(p.inputs1)),
              p.level + 1, p.outputs)
  }

  ghost predicate UniqueNums(ts: seq<Table>) {
    forall i, j :: 0 <= i < j < |ts| ==> ts[i].num != ts[j].num
  }

  /** The inputs still stand in the levels the way the snapshot saw them. Level 0 may have grown. */
  ghost predicate Fits(levels: seq<seq<Table>>, p: Plan) {
    && p.level + 1 < |levels| && LevelsOk(levels)
    && UniqueNums(levels[p.level]) && UniqueNums(levels[p.level + 1])
    && p.inputs0 != [] && AllValid(p.inputs0)
    && (if p.level == 0
        then |p.inputs0| <= |levels[0]| && levels[0][..|p.inputs0|] == Reverse(p.inputs0)
        else LevelOk(p.inputs0) && forall t :: t in p.inputs0 ==> t in levels[p.level])
    && LevelOk(p.inputs1)
    && (forall t :: t in p.inputs1 <==>
          t in levels[p.level + 1] && t.run != [] && Overlaps(t, RangeMin(p.inputs0), RangeMax(p.inputs0)))
    && Concat(p.outputs) == MergeRuns(RunsOf(p.inputs0 + p.inputs1)) && NonEmptyRuns(p.outputs)
  }

  lemma {:induction false} BeyondKeyOk(ts: seq<Table>, last: Option<Key>)
    requires LevelOk(ts)
    ensures LevelOk(BeyondKey(ts, last)) && forall t :: t in BeyondKey(ts, last) ==> t in ts
  {
    hide Less;
    if ts != [] {
      var n := |ts| - 1;
      BeyondKeyOk(ts[..n], last);
      assert ts == ts[..n] + [ts[n]];
      var front := BeyondKey(ts[..n], last);
      forall i | 0 <= i < |front| ensures Before(front[i], ts[n]) {
        assert front[i] in ts[..n];
      }
    }
  }

  lemma Inputs0Ok(levels: seq<seq<Table>>, level: nat, last: Option<Key>)
    requires level < |levels| && LevelsOk(levels) && levels[level] != []
    ensures AllValid(Inputs0(level, levels[level], last)) && Inputs0(level, levels[level], last) != []
    ensures level > 0 ==> LevelOk(Inputs0(level, levels[level], last))
    ensures level > 0 ==> forall t :: t in Inputs0(level, levels[level], last) ==> t in levels[level]
  {
    if level > 0 { BeyondKeyOk(levels[level], last); }
  }

  /** A fresh plan fits the levels it was made from. */
  lemma PlanFits(levels: seq<seq<Table>>, level: nat, last: Option<Key>, limit: nat, first: nat)
    requires level + 1 < |levels| && LevelsOk(levels) && levels[level] != []
    requires UniqueNums(levels[level]) && UniqueNums(levels[level + 1])
    ensures NonEmptyRuns(Inputs0(level, levels[level], last)) && Inputs0(level, levels[level], last) != []
    ensures Fits(levels, MakePlan(levels, level, last, limit, first))
    ensures Numbered(MakePlan(levels, level, last, limit, first).outputs, first)
  {
    hide Less, MergeRuns, SplitTables, RangeMin, RangeMax, BeyondKey, OtherReaders, Concat, Reverse, RunsOf;
    Inputs0Ok(levels, level, last);
    var in0 := Inputs0(level, levels[level], last);
    OtherReadersExact(RangeMin(in0), RangeMax(in0), levels[level + 1]);
    var p := MakePlan(levels, level, last, limit, first);
    SplitTablesConcat(MergeRuns(RunsOf(p.inputs0 + p.inputs1)), limit, first);
    if level == 0 { ReverseTwice(levels[0]); }
  }

  lemma ReverseTwice(ts: seq<Table>)
    ensures ts[..|Reverse(ts)|] == Reverse(Reverse(ts))
  {
  }

  /** A fitting plan still fits when level 0 gains a table on top. */
  lemma FitsGrownLevel0(levels: seq<seq<Table>>, p: Plan, t: Table)
    requires Fits(levels, p) && t.Valid()
    requires forall i :: 0 <= i < |levels[0]| ==> levels[0][i].num != t.num
    ensures Fits(levels[0 := levels[0] + [t]], p)
  {
    hide Less, MergeRuns;
    var grown := levels[0 := levels[0] + [t]];
    assert forall l :: 0 < l < |levels| ==> grown[l] == levels[l];
    if p.level == 0 {
      assert grown[0][..|p.inputs0|] == levels[0][..|p.inputs0|];
    }
  }

  // ---- what the merge holds ----

  lemma MergedFind(p: Plan, k: Key)
    requires AllValid(p.inputs0) && AllValid(p.inputs1) && NonEmptyRuns(p.outputs)
    requires Concat(p.outputs) == MergeRuns(RunsOf(p.inputs0 + p.inputs1))
    ensures LevelOk(p.outputs)
    ensures TablesFind(p.outputs, k) ==
            if TablesFind(p.inputs0, k).Some? then TablesFind(p.inputs0, k) else TablesFind(p.inputs1, k)
  {
    hide Less, LowerBound, Find, MergeRuns, Concat;
    var runs := RunsOf(p.inputs0 + p.inputs1);
    assert Mergeable(runs);
    MergeRunsSorted(runs);
    MergeRunsFind(runs, k);
    MergedKeysNonEmpty(runs);
    PiecesOfSorted(p.outputs, k);
    TablesFindConcat(p.inputs0, p.inputs1, k);
  }

  lemma MergedKeysNonEmpty(runs: seq<Run>)
    requires Mergeable(runs)
    ensures NonEmptyKeys(MergeRuns(runs))
  {
    hide Less, LowerBound, Find, MergeRuns;
    MergeRunsSorted(runs);
    var es := MergeRuns(runs);
    forall i | 0 <= i < |es| ensures es[i].key != [] {
      FindAt(es, i);
      MergeRunsFind(runs, es[i].key);
      var j := FirstHolder(runs, es[i].key);
      FindIff(runs[j], es[i].key);
      assert Entry(es[i].key, Find(runs[j], es[i].key).value) in runs[j];
    }
  }

  /** A table of the target level that is not an input is on one side of all the inputs. */
  lemma RestApart(p: Plan, levels: seq<seq<Table>>, r: Table, k: Key)
    requires Fits(levels, p) && r in levels[p.level + 1] && r !in p.inputs1
    requires TablesFind(p.inputs0 + p.inputs1, k).Some?
    ensures Less(RangeMax(p.inputs0), r.Min()) ==> Less(k, r.Min())
    ensures Less(r.Max(), RangeMin(p.inputs0)) ==> Less(r.Max(), k)
  {
    hide Less, LowerBound, Find, MergeRuns;
    var lo, hi := RangeMin(p.inputs0), RangeMax(p.inputs0);
    var t := TablesFindHolder(p.inputs0 + p.inputs1, k);
    FoundIsCovered(t, k);
    if t in p.inputs0 {
      RangeCovers(p.inputs0);
      BelowNot(k, t.Max(), hi, r.Min());
      AboveNot(r.Max(), lo, t.Min(), k);
    } else {
      assert t in p.inputs1;
      assert Before(t, r) || Before(r, t);
      MinAtMostMax(r);
      MinAtMostMax(t);
      LessIsStrictTotalOrder();
    }
  }

  /** k <= a <= b < c gives k < c. */
  lemma BelowNot(k: Key, a: Key, b: Key, c: Key)
    requires !Less(a, k) && !Less(b, a)
    ensures Less(b, c) ==> Less(k, c)
  {
    LessIsStrictTotalOrder();
  }

  /** c < b <= a <= k gives c < k. */
  lemma AboveNot(c: Key, b: Key, a: Key, k: Key)
    requires !Less(a, b) && !Less(k, a)
    ensures Less(c, b) ==> Less(c, k)
  {
    LessIsStrictTotalOrder();
  }

  /** Hence it is disjoint from every output. */
  lemma OutputApart(p: Plan, levels: seq<seq<Table>>, r: Table, o: Table)
    requires Fits(levels, p) && r in levels[p.level + 1] && r !in p.inputs1 && o in p.outputs
    ensures r.Valid() && o.Valid() && (Before(o, r) || Before(r, o))
  {
    hide Less, LowerBound, Find, MergeRuns, Concat;
    MergedFind(p, []);
    forall k | Find(o.run, k).Some? ensures TablesFind(p.inputs0 + p.inputs1, k).Some? {
      MergedFind(p, k);
      LevelFindMember(p.outputs, o, k);
      TablesFindConcat(p.inputs0, p.inputs1, k);
    }
    FindAt(o.run, 0);
    FindAt(o.run, |o.run| - 1);
    RestApart(p, levels, r, o.Min());
    RestApart(p, levels, r, o.Max());
  }

  // ---- the commit ----

  /** Adding a table that is apart from a level keeps the level ordered. */
  lemma AddTableOk(levels: seq<seq<Table>>, level: nat, t: Table)
    requires 0 < level < |levels| && LevelOk(levels[level]) && t.Valid()
    requires forall u :: u in levels[level] ==> Before(t, u) || Before(u, t)
    ensures LevelOk(AddTable(levels, level, t)[level])
    ensures forall u :: u in AddTable(levels, level, t)[level] <==> u in levels[level] || u == t
  {
    hide Less, SortReaders, InsertByMin;
    LevelMinSorted(levels[level]);
    SortReadersPush(levels[level], t);
    SortReadersIdentity(levels[level]);
    InsertByMinMembers(levels[level], t);
    InsertByMinOk(levels[level], t);
  }

  /** So does adding mutually ordered tables. */
  lemma {:induction false} AddTablesOk(levels: seq<seq<Table>>, level: nat, ts: seq<Table>)
    requires 0 < level < |levels| && LevelOk(levels[level]) && LevelOk(ts)
    requires forall r, o :: r in levels[level] && o in ts ==> Before(o, r) || Before(r, o)
    ensures LevelOk(AddTables(levels, level, ts)[level])
    ensures forall t :: t in AddTables(levels, level, ts)[level] <==> t in levels[level] || t in ts
    ensures forall l :: 0 <= l < |levels| && l != level ==> AddTables(levels, level, ts)[l] == levels[l]
  {
    hide Less, SortReaders, InsertByMin, Sorted, NonEmptyKeys;
    if ts != [] {
      var front, t := ts[..|ts| - 1], ts[|ts| - 1];
      assert ts == front + [t];
      AddTablesOk(levels, level, front);
      var mid := AddTables(levels, level, front);
      forall u | u in mid[level] ensures Before(t, u) || Before(u, t) {
        if u in front { MemberBefore(ts, u); }
      }
      AddTableOk(mid, level, t);
    }
  }

  /** The last table of an ordered level lies behind the others. */
  lemma MemberBefore(ts: seq<Table>, u: Table)
    requires LevelOk(ts) && ts != [] && u in ts[..|ts| - 1]
    ensures u.run != [] && Before(u, ts[|ts| - 1])
  {
    var i :| 0 <= i < |ts| - 1 && ts[i] == u;
    assert Before(ts[i], ts[|ts| - 1]);
  }

  lemma LevelMinSorted(ts: seq<Table>)
    requires LevelOk(ts)
    ensures MinSorted(ts)
  {
    forall i, j | 0 <= i < j < |ts| ensures !Less(ts[j].Min(), ts[i].Min()) {
      MinAtMostMax(ts[i]);
      LessChain(ts[i].Min(), ts[i].Max(), ts[j].Min());
      LessAsymmetric(ts[i].Min(), ts[j].Min());
    }
  }

  lemma {:induction false} RetainOk(ts: seq<Table>, nums: set<nat>)
    requires LevelOk(ts)
    ensures LevelOk(Retain(ts, nums))
  {
    hide Less;
    if ts != [] {
      var n := |ts| - 1;
      RetainOk(ts[..n], nums);
      RetainMembers(ts[..n], nums);
      var front := Retain(ts[..n], nums);
      forall i | 0 <= i < |front| ensures Before(front[i], ts[n]) {
        assert front[i] in ts[..n];
      }
    }
  }

  /** With unique numbers, removing by number removes exactly those tables. */
  lemma RetainExact(ts: seq<Table>, gone: seq<Table>)
    requires UniqueNums(ts) && forall t :: t in gone ==> t in ts
    ensures forall t :: t in Retain(ts, Nums(gone)) <==> t in ts && t !in gone
  {
    RetainMembers(ts, Nums(gone));
    forall t | t in ts && t.num in Nums(gone) ensures t in gone {
      var u :| u in gone && u.num == t.num;
      assert u == t;
    }
  }

  lemma {:induction false} RetainPrefix(a: seq<Table>, b: seq<Table>, nums: set<nat>)
    requires forall t :: t in a ==> t.num in nums
    requires forall t :: t in b ==> t.num !in nums
    ensures Retain(a + b, nums) == b
  {
    hide Retain;
    if b != [] {
      var front, t := b[..|b| - 1], b[|b| - 1];
      RetainPrefix(a, front, nums);
      assert b == front + [t] && a + b == (a + front) + [t];
      RetainPush(a + front, t, nums);
    } else if a != [] {
      var front, t := a[..|a| - 1], a[|a| - 1];
      RetainPrefix(front, b, nums);
      assert a == front + [t] && a + b == (front + b) + [t];
      RetainPush(front + b, t, nums);
    } else {
      assert a + b == [];
      RetainEmpty(nums);
    }
  }

  /** The target level after the commit: the tables that were not inputs, and the outputs. */
  lemma TargetLevel(levels: seq<seq<Table>>, p: Plan)
    requires Fits(levels, p)
    ensures LevelOk(Commit(levels, p)[p.level + 1])
    ensures forall t :: t in Commit(levels, p)[p.level + 1] <==>
              (t in levels[p.level + 1] && t !in p.inputs1) || t in p.outputs
    ensures |Commit(levels, p)| == |levels|
    ensures Commit(levels, p)[p.level] == Retain(levels[p.level], Nums(p.inputs0))
    ensures forall l :: 0 <= l < |levels| && l != p.level && l != p.level + 1 ==> Commit(levels, p)[l] == levels[l]
  {
    hide Less, MergeRuns, Retain, AddTables, Concat;
    var up := p.level + 1;
    var mid := RemoveTables(RemoveTables(levels, p.level, Nums(p.inputs0)), up, Nums(p.inputs1));
    RetainOk(levels[up], Nums(p.inputs1));
    RetainExact(levels[up], p.inputs1);
    MergedFind(p, []);
    forall r, o | r in mid[up] && o in p.outputs ensures Before(o, r) || Before(r, o) {
      OutputApart(p, levels, r, o);
    }
    AddTablesOk(mid, up, p.outputs);
  }

  /** Lookup in the target level after the commit. */
  lemma TargetFind(levels: seq<seq<Table>>, p: Plan, k: Key)
    requires Fits(levels, p)
    ensures TablesFind(Commit(levels, p)[p.level + 1], k) ==
            if TablesFind(p.inputs0, k).Some? then TablesFind(p.inputs0, k) else TablesFind(levels[p.level + 1], k)
  {
    hide Less, MergeRuns, Commit, Concat, Find, TablesFind;
    TargetLevel(levels, p);
    MergedFind(p, k);
    var now, was := Commit(levels, p)[p.level + 1], levels[p.level + 1];
    if TablesFind(p.outputs, k).Some? {
      var o := TablesFindHolder(p.outputs, k);
      LevelFindMember(now, o, k);
      if TablesFind(p.inputs0, k).None? {
        var t := TablesFindHolder(p.inputs1, k);
        LevelFindMember(was, t, k);
      }
    } else if TablesFind(was, k).Some? {
      var t := TablesFindHolder(was, k);
      assert t !in p.inputs1 by {
        if t in p.inputs1 { LevelFindMember(p.inputs1, t, k); }
      }
      LevelFindMember(now, t, k);
    } else if TablesFind(now, k).Some? {
      var t := TablesFindHolder(now, k);
      if t in p.outputs { LevelFindMember(p.outputs, t, k); } else { LevelFindMember(was, t, k); }
    }
  }

  /** Lookup in the compacted level before the commit: what stays there, else the inputs. */
  lemma SourceFind(levels: seq<seq<Table>>, p: Plan, k: Key)
    requires Fits(levels, p)
    ensures AllValid(Commit(levels, p)[p.level]) && (p.level > 0 ==> LevelOk(Commit(levels, p)[p.level]))
    ensures var rest := TablesFind(SearchOrder(p.level, Commit(levels, p)[p.level]), k);
            TablesFind(SearchOrder(p.level, levels[p.level]), k) ==
            if rest.Some? then rest else TablesFind(p.inputs0, k)
  {
    hide Less, MergeRuns, Commit, Concat, Find, TablesFind;
    TargetLevel(levels, p);
    var was := levels[p.level];
    if p.level == 0 {
      var n := |p.inputs0|;
      var newer := was[n..];
      assert was == Reverse(p.inputs0) + newer;
      NewerKept(was, p.inputs0);
      assert Commit(levels, p)[0] == newer;
      assert Reverse(was) == Reverse(newer) + p.inputs0;
      TablesFindConcat(Reverse(newer), p.inputs0, k);
    } else {
      RetainOk(was, Nums(p.inputs0));
      RetainExact(was, p.inputs0);
      var rest := Retain(was, Nums(p.inputs0));
      SplitLevelFind(was, rest, p.inputs0, k);
    }
  }

  lemma NewerKept(was: seq<Table>, inputs: seq<Table>)
    requires UniqueNums(was) && |inputs| <= |was| && was[..|inputs|] == Reverse(inputs)
    ensures Retain(was, Nums(inputs)) == was[|inputs|..]
  {
    hide Retain, Nums;
    var n := |inputs|;
    assert was == was[..n] + was[n..];
    InputNums(was, inputs);
    RetainPrefix(was[..n], was[n..], Nums(inputs));
  }

  lemma InputNums(was: seq<Table>, inputs: seq<Table>)
    requires UniqueNums(was) && |inputs| <= |was| && was[..|inputs|] == Reverse(inputs)
    ensures forall t :: t in was[..|inputs|] ==> t.num in Nums(inputs)
    ensures forall t :: t in was[|inputs|..] ==> t.num !in Nums(inputs)
  {
    var n := |inputs|;
    forall i | 0 <= i < n ensures was[i] in inputs {
      assert was[..n][i] == inputs[n - 1 - i];
    }
    forall i, j | 0 <= i < n <= j < |was| ensures inputs[i].num != was[j].num {
      assert was[..n][n - 1 - i] == inputs[i];
    }
  }

  /** An ordered level split into two parts. */
  lemma SplitLevelFind(ts: seq<Table>, a: seq<Table>, b: seq<Table>, k: Key)
    requires LevelOk(ts) && LevelOk(a) && LevelOk(b)
    requires forall t :: t in ts <==> t in a || t in b
    ensures TablesFind(ts, k) == if TablesFind(a, k).Some? then TablesFind(a, k) else TablesFind(b, k)
  {
    hide Less, Find, TablesFind;
    if TablesFind(a, k).Some? {
      var t := TablesFindHolder(a, k);
      LevelFindMember(ts, t, k);
    } else if TablesFind(b, k).Some? {
      var t := TablesFindHolder(b, k);
      LevelFindMember(ts, t, k);
    } else if TablesFind(ts, k).Some? {
      var t := TablesFindHolder(ts, k);
      if t in a { LevelFindMember(a, t, k); } else { LevelFindMember(b, t, k); }
    }
  }

  lemma {:induction false} LevelsFindSuffix(a: seq<seq<Table>>, b: seq<seq<Table>>, from: nat, k: Key)
    requires from <= |a| == |b| && forall l :: from <= l < |a| ==> a[l] == b[l]
    ensures LevelsFind(a, from, k) == LevelsFind(b, from, k)
    decreases |a| - from
  {
    if from < |a| { LevelsFindSuffix(a, b, from + 1, k); }
  }

  lemma {:induction false} LevelsFindAbove(a: seq<seq<Table>>, b: seq<seq<Table>>, at: nat, from: nat, k: Key)
    requires from <= at <= |a| == |b| && forall l :: 0 <= l < at ==> a[l] == b[l]
    requires LevelsFind(a, at, k) == LevelsFind(b, at, k)
    ensures LevelsFind(a, from, k) == LevelsFind(b, from, k)
    decreases at - from
  {
    if from < at { LevelsFindAbove(a, b, at, from + 1, k); }
  }

  /** Committing a compaction changes no lookup, for every key. */
  lemma CommitPreservesLookups(levels: seq<seq<Table>>, p: Plan, k: Key)
    requires Fits(levels, p)
    ensures |Commit(levels, p)| == |levels|
    ensures LevelsFind(Commit(levels, p), 0, k) == LevelsFind(levels, 0, k)
  {
    hide Less, MergeRuns, Commit, Concat, Find, TablesFind;
    TargetLevel(levels, p);
    var now := Commit(levels, p);
    LevelsFindSuffix(now, levels, p.level + 2, k);
    TargetFind(levels, p, k);
    SourceFind(levels, p, k);
    LevelsFindAbove(now, levels, p.level, 0, k);
  }

  /** And it keeps every level above 0 sorted by minimum key with disjoint ranges. */
  lemma CommitKeepsLevels(levels: seq<seq<Table>>, p: Plan)
    requires Fits(levels, p)
    ensures LevelsOk(Commit(levels, p))
  {
    hide Less, MergeRuns, Commit, Concat, Find, TablesFind, Retain, LevelOk, Overlaps, RangeMin, RangeMax, RunsOf,
        Reverse, UniqueNums, Nums;
    TargetLevel(levels, p);
    SourceFind(levels, p, []);
    OrderedIsValid(Commit(levels, p)[p.level + 1]);
  }

  lemma OrderedIsValid(ts: seq<Table>)
    requires LevelOk(ts)
    ensures AllValid(ts)
  {
  }

  // ---- which tables a compaction moves ----

  /** Above level 0 a table is passed over when its largest key is not beyond the last compaction point. */
  predicate PassedOver(level: nat, last: Option<Key>, t: Table)
    requires t.run != []
  {
    level > 0 && last.Some? && !Less(last.value, t.Max())
  }

  /** The tables that go down: all of level 0; above it those not passed over, or the first table if all are. */
  ghost predicate GoesDown(level: nat, ts: seq<Table>, last: Option<Key>, t: Table)
    requires NonEmptyRuns(ts)
  {
    && t in ts
    && (!PassedOver(level, last, t) || (t == ts[0] && forall u :: u in ts ==> PassedOver(level, last, u)))
  }

  /** The tables of the level below that are rewritten: those reaching into the range of the ones going down. */
  ghost predicate Rewritten(level: nat, ts: seq<Table>, last: Option<Key>, t: Table)
    requires NonEmptyRuns(ts) && t.run != []
  {
    exists u, v :: GoesDown(level, ts, last, u) && GoesDown(level, ts, last, v) && !Less(t.Max(), u.Min()) &&
                   !Less(v.Max(), t.Min())
  }

  lemma {:induction false} BeyondKeyExact(ts: seq<Table>, last: Option<Key>, t: Table)
    requires NonEmptyRuns(ts)
    ensures t in BeyondKey(ts, last) <==> t in ts && (last.None? || Less(last.value, t.Max()))
  {
    hide Less;
    if ts != [] {
      var n := |ts| - 1;
      BeyondKeyExact(ts[..n], last, t);
      assert ts == ts[..n] + [ts[n]];
    }
  }

  lemma Inputs0Exact(level: nat, ts: seq<Table>, last: Option<Key>, t: Table)
    requires ts != [] && NonEmptyRuns(ts)
    ensures t in Inputs0(level, ts, last) <==> GoesDown(level, ts, last, t)
  {
    hide Less, BeyondKey;
    if level == 0 {
      assert forall i :: 0 <= i < |ts| ==> Reverse(ts)[|ts| - 1 - i] == ts[i];
    } else {
      forall u ensures u in BeyondKey(ts, last) <==> u in ts && !PassedOver(level, last, u) {
        BeyondKeyExact(ts, last, u);
      }
      if BeyondKey(ts, last) != [] {
        assert BeyondKey(ts, last)[0] in BeyondKey(ts, last);
      }
    }
  }

  /** Both ends of the inputs' range are keys of inputs. */
  lemma {:induction false} RangeAttained(ts: seq<Table>)
    requires ts != [] && NonEmptyRuns(ts)
    ensures exists u, v :: u in ts && v in ts && u.Min() == RangeMin(ts) && v.Max() == RangeMax(ts)
  {
    hide Less;
    var n := |ts| - 1;
    assert ts[n] in ts;
    if n > 0 {
      RangeAttained(ts[..n]);
      var u, v :| u in ts[..n] && v in ts[..n] && u.Min() == RangeMin(ts[..n]) && v.Max() == RangeMax(ts[..n]);
      var lo := if RangeMin(ts) == u.Min() then u else ts[n];
      var hi := if RangeMax(ts) == v.Max() then v else ts[n];
      assert lo in ts && hi in ts;
    }
  }

  /** So overlapping the range means to reach between two inputs. */
  lemma OverlapsExact(ts: seq<Table>, t: Table)
    requires ts != [] && NonEmptyRuns(ts) && t.run != []
    ensures Overlaps(t, RangeMin(ts), RangeMax(ts)) <==>
            exists u, v :: u in ts && v in ts && !Less(t.Max(), u.Min()) && !Less(v.Max(), t.Min())
  {
    hide Less, RangeMin, RangeMax;
    RangeCovers(ts);
    RangeAttained(ts);
    forall u, v | u in ts && v in ts && !Less(t.Max(), u.Min()) && !Less(v.Max(), t.Min())
      ensures Overlaps(t, RangeMin(ts), RangeMax(ts))
    {
      LessChain3(RangeMin(ts), u.Min(), t.Max());
      LessChain3(t.Min(), v.Max(), RangeMax(ts));
    }
  }

  /** From a <= b <= c follows a <= c. */
  lemma LessChain3(a: Key, b: Key, c: Key)
    requires !Less(b, a) && !Less(c, b)
    ensures !Less(c, a)
  {
    LessIsStrictTotalOrder();
  }

  /** What the commit of a plan does to the tables that were there, when level 0 may have grown since the
      plan was made: the chosen ones leave their level and nothing else does, the ones they meet leave the
      level below, everything above and further down stays. */
  lemma CommitMoves(was: seq<seq<Table>>, now: seq<seq<Table>>, level: nat, last: Option<Key>, p: Plan)
    requires level + 1 < |was| == |now| && NonEmptyRuns(was[level]) && was[level] != []
    requires p.level == level && p.inputs0 == Inputs0(level, was[level], last) && Fits(now, p)
    requires if level == 0 then was[0] <= now[0] else now[level] == was[level]
    requires forall t, o :: t in now[level + 1] && o in p.outputs ==> t.num != o.num
    ensures level == 0 ==> Commit(now, p)[0] == now[0][|was[0]|..]
    ensures forall t :: t in Commit(now, p)[level] <==> t in now[level] && !GoesDown(level, was[level], last, t)
    ensures NonEmptyRuns(now[level + 1])
    ensures forall t :: t in now[level + 1] ==>
              (t in Commit(now, p)[level + 1] <==> !Rewritten(level, was[level], last, t))
    ensures |Commit(now, p)| == |now|
    ensures forall l :: 0 <= l < |now| && l != level && l != level + 1 ==> Commit(now, p)[l] == now[l]
  {
    hide Less, Commit, MergeRuns, Concat, RangeMin, RangeMax, Inputs0, GoesDown, Overlaps, Retain, Nums;
    var ins := p.inputs0;
    TargetLevel(now, p);
    forall t ensures t in ins <==> GoesDown(level, was[level], last, t) { Inputs0Exact(level, was[level], last, t); }
    SourceMoves(now, p);
    if level == 0 { AllOfLevel0(was[0], last); }
    forall t | t in now[level + 1]
      ensures t.run != [] && (t in Commit(now, p)[level + 1] <==> !Rewritten(level, was[level], last, t))
    {
      var i :| 0 <= i < |now[level + 1]| && now[level + 1][i] == t;
      OverlapsExact(ins, t);
    }
  }

  lemma AllOfLevel0(ts: seq<Table>, last: Option<Key>)
    requires ts != [] && NonEmptyRuns(ts)
    ensures |Inputs0(0, ts, last)| == |ts|
  {
  }

  /** The inputs leave their level; in level 0 that is its beginning. */
  lemma SourceMoves(levels: seq<seq<Table>>, p: Plan)
    requires Fits(levels, p)
    ensures var rest := Retain(levels[p.level], Nums(p.inputs0));
            && (forall t :: t in rest <==> t in levels[p.level] && t !in p.inputs0)
            && (p.level == 0 ==> rest == levels[0][|p.inputs0|..])
  {
    hide Less, Retain, MergeRuns, Concat, RangeMin, RangeMax, Nums;
    if p.level == 0 {
      NewerKept(levels[0], p.inputs0);
      forall t | t in p.inputs0 ensures t in levels[0] {
        var i :| 0 <= i < |p.inputs0| && p.inputs0[i] == t;
        assert levels[0][..|p.inputs0|][|p.inputs0| - 1 - i] == t;
      }
    }
    RetainExact(levels[p.level], p.inputs0);
  }

  // ---- two compactions of the same tables ----

  /** Adding tables to a level keeps those that are there and adds the others, ordered or not. */
  lemma {:induction false} AddTablesMembers(levels: seq<seq<Table>>, level: nat, ts: seq<Table>)
    requires level < |levels| && NonEmptyRuns(ts) && NonEmptyRuns(levels[level])
    ensures forall t :: t in AddTables(levels, level, ts)[level] <==> t in levels[level] || t in ts
  {
    hide SortReaders;
    if ts != [] {
      var front, t := ts[..|ts| - 1], ts[|ts| - 1];
      assert ts == front + [t];
      AddTablesMembers(levels, level, front);
      SortReadersSorted(AddTables(levels, level, front)[level] + [t]);
    }
  }

  lemma NotBeforeSameMin(t: Table, u: Table)
    requires t.Valid() && u.run != [] && t.Min() == u.Min()
    ensures !Before(t, u)
  {
    MinAtMostMax(t);
    LessAsymmetric(t.Max(), t.Min());
    LessIrreflexive(t.Min());
  }

  /** Two tables with the same smallest key do not fit in one ordered level. */
  lemma SameMinIsNoLevel(ts: seq<Table>, t: Table, u: Table)
    requires t in ts && u in ts && t != u && t.run != [] && u.run != [] && t.Min() == u.Min()
    ensures !LevelOk(ts)
  {
    hide Less;
    if LevelOk(ts) {
      var i :| 0 <= i < |ts| && ts[i] == t;
      var j :| 0 <= j < |ts| && ts[j] == u;
      NotBeforeSameMin(t, u);
      NotBeforeSameMin(u, t);
      assert false;
    }
  }

  /** When two compactions plan on the same levels and both commit, whatever the level and the inputs, the
      level below ends up with overlapping tables. */
  lemma SecondCommitOverlaps(levels: seq<seq<Table>>, p: Plan, q: Plan)
    requires Fits(levels, p) && Fits(levels, q) && p.level == q.level && p.inputs0 == q.inputs0 &&
             p.inputs1 == q.inputs1
    requires forall t, o :: t in levels[p.level + 1] && o in p.outputs ==> t.num != o.num
    requires forall o, r :: o in p.outputs && r in q.outputs ==> o.num != r.num
    ensures |Commit(levels, p)| == |levels| && NonEmptyRuns(Commit(levels, p)[p.level + 1])
    ensures !LevelOk(Commit(Commit(levels, p), q)[p.level + 1])
  {
    hide Less, Commit, MergeRuns, Concat, RangeMin, RangeMax, Retain, AddTables;
    TargetLevel(levels, p);
    var mid, up := Commit(levels, p), p.level + 1;
    FirstOutputs(levels, p, q);
    var o, r := p.outputs[0], q.outputs[0];
    assert o in mid[up] && o.num !in Nums(q.inputs1);
    CommitAdds(mid, q, o);
    CommitAdds(mid, q, r);
    SameMinIsNoLevel(Commit(mid, q)[up], o, r);
  }

  /** A commit, whether its plan still fits or not, leaves what it does not remove and adds its outputs. */
  lemma CommitAdds(levels: seq<seq<Table>>, p: Plan, t: Table)
    requires p.level + 1 < |levels| && NonEmptyRuns(p.outputs) && NonEmptyRuns(levels[p.level + 1])
    requires t in p.outputs || (t in levels[p.level + 1] && t.num !in Nums(p.inputs1))
    ensures |Commit(levels, p)| == |levels| && t in Commit(levels, p)[p.level + 1]
  {
    hide Retain, AddTables, Nums;
    RetainMembers(levels[p.level + 1], Nums(p.inputs1));
    AddTablesMembers(RemoveTables(RemoveTables(levels, p.level, Nums(p.inputs0)), p.level + 1, Nums(p.inputs1)),
                     p.level + 1, p.outputs);
  }

  /** Both have outputs, and they begin with the same key. */
  lemma FirstOutputs(levels: seq<seq<Table>>, p: Plan, q: Plan)
    requires Fits(levels, p) && Fits(levels, q) && p.level == q.level && p.inputs0 == q.inputs0 &&
             p.inputs1 == q.inputs1
    ensures p.outputs != [] && q.outputs != [] && p.outputs[0].run != [] && q.outputs[0].run != []
    ensures p.outputs[0].Min() == q.outputs[0].Min()
  {
    hide Less, MergeRuns, Concat, RangeMin, RangeMax, Find, TablesFind;
    var k := p.inputs0[0].Min();
    FindAt(p.inputs0[0].run, 0);
    TablesFindNone(p.inputs0, k);
    MergedFind(p, k);
    MergedFind(q, k);
    NoTables(k);
    assert TablesFind([], k).None? by { TablesFindNone([], k); }
    ConcatHead(p.outputs);
    ConcatHead(q.outputs);
  }

  lemma {:induction false} ConcatHead(ts: seq<Table>)
    requires NonEmptyRuns(ts)
    ensures ts != [] ==> Concat(ts) != [] && Concat(ts)[0].key == ts[0].Min()
  {
    if |ts| > 1 { ConcatHead(ts[..|ts| - 1]); }
    if |ts| == 1 { assert Concat(ts[..0]) == []; }
  }
}

/** The storage engine's operations (mirdb-server/src/data_manager.rs), each a sequence of steps of
    the engine's state machine on the objects it keeps. */
module DataManagers {
  import opened Bytes
  import opened Runs
  import opened Mergers
  import opened Tables
  import opened SstableReaders
  import opened Compaction
  import opened Engine
  import opened Coding
  import Wals

  // ---- files and the manifest ----

  ghost predicate Unlisted(manifest: seq<seq<nat>>, num: nat) {
    forall l :: 0 <= l < |manifest| ==> num !in manifest[l]
  }

  lemma WriteFileKeeps(maxLevel: nat, files: map<nat, Run>, manifest: seq<seq<nat>>, readers: seq<seq<Table>>,
                       num: nat, run: Run)
    requires Consistent(maxLevel, files, manifest, readers) && Unlisted(manifest, num)
    ensures Consistent(maxLevel, files[num := run], manifest, readers)
  {
    hide SortReaders;
    forall l | 0 <= l < maxLevel ensures Loads(files[num := run], FileMetas(manifest, l), l, readers[l]) {
      var ns := FileMetas(manifest, l);
      assert Loads(files, ns, l, readers[l]);
      assert forall i :: 0 <= i < |ns| ==> ns[i] in ns;
      assert Open(files[num := run], ns) == Open(files, ns);
    }
  }

  /** The manifest lists a level's open tables and nothing else. */
  lemma ManifestNums(maxLevel: nat, files: map<nat, Run>, manifest: seq<seq<nat>>, readers: seq<seq<Table>>, l: nat)
    requires Consistent(maxLevel, files, manifest, readers) && l < maxLevel
    ensures forall t :: t in readers[l] ==> t.num in FileMetas(manifest, l)
    ensures forall n :: n in FileMetas(manifest, l) ==> exists t :: t in readers[l] && t.num == n
  {
    hide SortReaders;
    var ns := FileMetas(manifest, l);
    assert Loads(files, ns, l, readers[l]);
    var ts := Open(files, ns);
    if l > 0 { SortReadersSorted(ts); }
    forall n | n in ns ensures exists t :: t in readers[l] && t.num == n {
      var i :| 0 <= i < |ns| && ns[i] == n;
      assert ts[i] in ts;
    }
  }

  /** A file number no open table carries is free. */
  lemma FreeNumber(maxLevel: nat, files: map<nat, Run>, manifest: seq<seq<nat>>, readers: seq<seq<Table>>, num: nat)
    requires Consistent(maxLevel, files, manifest, readers)
    requires forall l, t :: 0 <= l < maxLevel && t in readers[l] ==> t.num != num
    ensures Unlisted(manifest, num)
  {
    hide Consistent;
    assert |manifest| <= maxLevel by { ManifestShort(maxLevel, files, manifest, readers); }
    forall l | 0 <= l < |manifest| ensures num !in manifest[l] {
      ManifestNums(maxLevel, files, manifest, readers, l);
      assert FileMetas(manifest, l) == manifest[l];
      ManifestShort(maxLevel, files, manifest, readers);
    }
  }

  lemma ManifestShort(maxLevel: nat, files: map<nat, Run>, manifest: seq<seq<nat>>, readers: seq<seq<Table>>)
    requires Consistent(maxLevel, files, manifest, readers)
    ensures |manifest| <= maxLevel == |readers|
  {
  }

  /** The readers are determined by the manifest and the files. */
  lemma LoadIsUnique(maxLevel: nat, files: map<nat, Run>, manifest: seq<seq<nat>>, a: seq<seq<Table>>,
                     b: seq<seq<Table>>)
    requires Consistent(maxLevel, files, manifest, a) && Consistent(maxLevel, files, manifest, b)
    ensures a == b
  {
    hide SortReaders;
    forall l | 0 <= l < maxLevel ensures a[l] == b[l] {
      assert Loads(files, FileMetas(manifest, l), l, a[l]) && Loads(files, FileMetas(manifest, l), l, b[l]);
    }
  }

  lemma {:induction false} NumBoundTight(ts: seq<Table>)
    ensures NumBound(ts) == 0 || exists t :: t in ts && t.num == NumBound(ts) - 1
  {
    if ts != [] {
      NumBoundTight(ts[1..]);
      assert ts == [ts[0]] + ts[1..];
      if ts[0].num < NumBound(ts[1..]) {
        var t :| t in ts[1..] && t.num == NumBound(ts[1..]) - 1;
        assert t in ts;
      }
    }
  }

  lemma {:induction false} FileBoundTight(levels: seq<seq<Table>>)
    ensures FileBound(levels) == 0 ||
            exists l, t :: 0 <= l < |levels| && t in levels[l] && t.num == FileBound(levels) - 1
  {
    if levels != [] {
      FileBoundTight(levels[1..]);
      NumBoundTight(levels[0]);
      if NumBound(levels[0]) < FileBound(levels[1..]) {
        var l, t :| 0 <= l < |levels[1..]| && t in levels[1..][l] && t.num == FileBound(levels[1..]) - 1;
        assert t in levels[l + 1];
      } else if NumBound(levels[0]) > 0 {
        var t :| t in levels[0] && t.num == NumBound(levels[0]) - 1;
      }
    }
  }

  /** The manifest's next file number is one above the largest number in use. */
  lemma NextIsFileBound(maxLevel: nat, files: map<nat, Run>, manifest: seq<seq<nat>>, readers: seq<seq<Table>>, n: nat)
    requires Consistent(maxLevel, files, manifest, readers)
    requires forall l :: 0 <= l < |manifest| ==> AllBelow(manifest[l], n)
    requires n == 0 || exists l :: 0 <= l < |manifest| && n - 1 in manifest[l]
    ensures n == FileBound(readers)
  {
    hide FileBound, Consistent, AllBelow;
    ManifestShort(maxLevel, files, manifest, readers);
    FileBoundTight(readers);
    var b := FileBound(readers);
    if b > 0 {
      var l, t :| 0 <= l < |readers| && t in readers[l] && t.num == b - 1;
      BoundedByManifest(maxLevel, files, manifest, readers, l, t, n);
    }
    if n > 0 {
      var l :| 0 <= l < |manifest| && n - 1 in manifest[l];
      ManifestNums(maxLevel, files, manifest, readers, l);
      assert n - 1 in FileMetas(manifest, l);
    }
  }

  lemma BoundedByManifest(maxLevel: nat, files: map<nat, Run>, manifest: seq<seq<nat>>, readers: seq<seq<Table>>,
                          l: nat, t: Table, n: nat)
    requires Consistent(maxLevel, files, manifest, readers) && l < maxLevel && t in readers[l]
    requires forall m :: 0 <= m < |manifest| ==> AllBelow(manifest[m], n)
    ensures t.num < n
  {
    hide Consistent;
    ManifestNums(maxLevel, files, manifest, readers, l);
  }

  // ---- the engine ----

  class DataManager {
    const snappy: Snappy
    const memTableMaxSize: nat
    const sstMaxSize: nat
    var mem: Run
    var imm: seq<Run>
    const readers: SstableReader
    var wal: seq<seq<Entry>>
    var nextFileNumber: nat
    /** The finished writes. */
    ghost var spec: map<Key, Value>

    /** The engine between two operations: nothing in flight. */
    ghost function View(): State
      reads this, readers
    {
      State(mem, imm, readers.readers, wal, None, Resting, None, nextFileNumber, Running)
    }

    ghost predicate Valid()
      reads this, readers
    {
      readers.Valid() && Inv(View(), Spec(spec, spec))
    }

    /** A new store in an empty work directory. */
    constructor (snappy: Snappy, memTableMaxSize: nat, sstMaxSize: nat, maxLevel: nat)
      requires maxLevel > 0
      ensures Valid() && spec == map[] && fresh(readers)
    {
      this.snappy, this.memTableMaxSize, this.sstMaxSize := snappy, memTableMaxSize, sstMaxSize;
      mem, imm, wal := [], [], [];
      spec := map[];
      nextFileNumber := 0;
      readers := new SstableReader(maxLevel, [], map[]);
      new;
      hide Inv;
      EmptyLoads(maxLevel, readers.readers);
      InitInv(maxLevel);
      assert View() == Init(maxLevel);
    }

    /** The value of a key: its latest write. */
    method Get(k: Key) returns (r: Option<Value>)
      requires Valid()
      ensures r == MapGet(spec, k)
    {
      hide Find, LevelsFind, Shape, Paired, Absorbed, Survives, Consistent;
      assert Serves(View(), spec);
      r := Find(mem, k);
      if r.None? {
        r := FindFrozen(imm, k);
      }
      if r.None? {
        InvShape(View(), Spec(spec, spec));
        ManifestShort(readers.maxLevel, readers.files, readers.manifest, readers.readers);
        r := readers.Get(k);
      }
    }

    /** One write: logged, applied, and frozen with its log segment once the segment is full. It returns
        the value it overwrote in the memtable. */
    method Insert(k: Key, v: Value) returns (previous: Option<Value>)
      requires Valid() && k != []
      modifies this`mem, this`imm, this`wal, this`spec
      ensures Valid() && spec == old(spec)[k := v]
      ensures previous == Find(old(mem), k)
      ensures var s := Next(old(View()), Log(Entry(k, v)));
              View() == Next(s, Apply(|Wals.SegBytes(snappy, s.wal[|s.wal| - 1])| >= memTableMaxSize))
    {
      hide Inv, Find;
      ghost var s0, p0 := View(), Spec(spec, spec);
      var e := Entry(k, v);
      if wal == [] {
        wal := [[]];
      }
      var n := |wal| - 1;
      wal := wal[n := wal[n] + [e]];
      LogInv(s0, p0, e);
      ghost var s1 := Next(s0, Log(e));
      assert [] + [e] == [e];
      assert wal == s1.wal;
      previous := Find(mem, k);
      mem := Runs.Insert(mem, k, v);
      var freeze := |Wals.SegBytes(snappy, wal[n])| >= memTableMaxSize;
      if freeze {
        imm := [mem] + imm;
        mem := [];
        wal := wal + [[]];
      }
      spec := spec[k := v];
      ApplyInv(s1, SpecNext(p0, Log(e)), freeze);
      assert View() == Next(s1, Apply(freeze));
    }

    /** Writes an sstable file under a new number. */
    method BuildTable(run: Run) returns (t: Table)
      requires readers.Valid() && run != []
      requires forall l, t :: 0 <= l < |readers.readers| && t in readers.readers[l] ==> t.num < nextFileNumber
      modifies this`nextFileNumber, readers`files
      ensures readers.Valid() && nextFileNumber == old(nextFileNumber) + 1
      ensures readers.files == old(readers.files)[t.num := run]
      ensures t == Table(old(nextFileNumber), run) && FreshFile(readers.files, readers.manifest, t)
    {
      var num := nextFileNumber;
      nextFileNumber := nextFileNumber + 1;
      FreeNumber(readers.maxLevel, readers.files, readers.manifest, readers.readers, num);
      WriteFileKeeps(readers.maxLevel, readers.files, readers.manifest, readers.readers, num, run);
      readers.files := readers.files[num := run];
      t := Table(num, run);
    }

    /** Flushes the tables frozen so far, oldest first, each with its log segment; then pops them. */
    method MinorCompaction()
      requires Valid()
      modifies this`imm, this`wal, this`nextFileNumber, readers
      ensures Valid()
      ensures imm == [] && mem == old(mem)
    {
      hide Inv, Consistent;
      var c := |imm|;
      if c == 0 {
        return;
      }
      ghost var p := Spec(spec, spec);
      MinorStartInv(View(), p);
      ghost var s := Next(View(), MinorStart);
      var i := 0;
      while i < c
        invariant 0 <= i <= c == |imm|
        invariant Inv(s, p) && readers.Valid()
        invariant s == View().(minor := Flushing(c, i, i))
        invariant mem == old(mem) && spec == old(spec)
      {
        s := FlushOne(i, c, s, p);
        i := i + 1;
      }
      StepsAreOpen(s, p, 0, None, 0);
      PopInv(s, p);
      s := Next(s, Pop);
      i := 0;
      while i < c
        invariant 0 <= i <= c && |imm| == c - i
        invariant s == View().(imm := []) && readers.Valid()
      {
        imm := imm[..|imm| - 1];
        i := i + 1;
      }
    }

    /** Moves a level's chosen tables down: reads them and the tables they overlap below, writes the
        merged stream to new tables, then swaps them in. */
    method SizeCompaction(level: nat, last: Option<Key>)
      requires Valid() && (level + 1 < readers.maxLevel ==> readers.readers[level] != [])
      modifies this`nextFileNumber, readers
      ensures Valid()
      ensures level + 1 < readers.maxLevel ==>
                var snapshot := MajorSnapshot(level, last, sstMaxSize);
                && Enabled(old(View()), snapshot) && Enabled(Next(old(View()), snapshot), MajorCommit)
                && View() == Next(Next(old(View()), snapshot), MajorCommit)
      ensures level + 1 < readers.maxLevel ==>
                Moved(old(readers.readers), old(readers.readers), readers.readers, level, last)
      ensures level == 0 && 1 < readers.maxLevel ==> readers.readers[0] == []
    {
      hide Inv, Consistent, Fits, MergeRuns, SplitTables, RangeMin, RangeMax, Inputs0, OtherReaders, Commit, Mergeable,
          UniqueNums, OutputsApart, Moved, Rewritten, GoesDown;
      if level + 1 >= readers.maxLevel {
        return;
      }
      ghost var s, p := View(), Spec(spec, spec);
      ManifestShort(readers.maxLevel, readers.files, readers.manifest, readers.readers);
      StepsAreOpen(s, p, level, last, sstMaxSize);
      SnapshotInv(s, p, level, last, sstMaxSize);
      ghost var s1 := Next(s, MajorSnapshot(level, last, sstMaxSize));
      StepsAreOpen(s1, p, level, last, sstMaxSize);
      CommitInv(s1, p);
      CommitMoved(s, s1, p, level, last, sstMaxSize);
      MovesAllOfLevel0(s.levels, Next(s1, MajorCommit).levels, level, last);
      InvJob(s1, p);
      var inputs0 := Inputs0(level, readers.readers[level], last);
      var inputs1 := OtherReaders(RangeMin(inputs0), RangeMax(inputs0), readers.readers[level + 1]);
      ghost var plan := s1.job.value;
      InputsMerge(s.levels, plan);
      var outputs := WriteMerged(RunsOf(inputs0 + inputs1), sstMaxSize, nextFileNumber);
      assert plan == Plan(level, inputs0, inputs1, outputs);
      nextFileNumber := nextFileNumber + |outputs|;
      Install(Plan(level, inputs0, inputs1, outputs));
    }

    /** Writes the files of the new tables, then makes the three changes of the commit. */
    method Install(plan: Plan)
      requires readers.Valid() && Fits(readers.readers, plan) && UniqueNums(plan.outputs)
      requires OutputsApart(readers.readers, plan.outputs)
      modifies readers
      ensures readers.Valid() && readers.readers == Commit(old(readers.readers), plan)
    {
      hide Consistent, Fits, OutputsApart, UniqueNums, AddTables, RemoveTables, Nums;
      WriteFiles(plan.outputs);
      InputsListed(readers.readers, plan);
      ghost var olds := readers.readers;
      RemoveInputs(plan);
      RemovedApart(olds, plan);
      OutputsFresh(readers.maxLevel, readers.files, readers.manifest, readers.readers, plan.outputs);
      ManifestShort(readers.maxLevel, readers.files, readers.manifest, readers.readers);
      AddReadersUnique(plan.outputs);
      readers.AddReaders(plan.level + 1, plan.outputs);
    }

    lemma AddReadersUnique(ts: seq<Table>)
      requires UniqueNums(ts)
      ensures forall i, j :: 0 <= i < j < |ts| ==> ts[i].num != ts[j].num
    {
    }

    /** Takes the inputs out of both levels; the files of the outputs stay. */
    method RemoveInputs(plan: Plan)
      requires readers.Valid() && Fits(readers.readers, plan) && OutputsApart(readers.readers, plan.outputs)
      requires forall i :: 0 <= i < |plan.outputs| ==>
               plan.outputs[i].num in readers.files && readers.files[plan.outputs[i].num] == plan.outputs[i].run
      modifies readers
      ensures readers.Valid() && plan.level + 1 < |old(readers.readers)|
      ensures readers.readers ==
              RemoveTables(RemoveTables(old(readers.readers), plan.level, Nums(plan.inputs0)),
                           plan.level + 1, Nums(plan.inputs1))
      ensures forall i :: 0 <= i < |plan.outputs| ==>
              plan.outputs[i].num in readers.files && readers.files[plan.outputs[i].num] == plan.outputs[i].run
    {
      hide Consistent, Fits, Retain;
      InputsListed(readers.readers, plan);
      ManifestShort(readers.maxLevel, readers.files, readers.manifest, readers.readers);
      ManifestNums(readers.maxLevel, readers.files, readers.manifest, readers.readers, plan.level);
      readers.RemoveByFileNames(plan.level, Nums(plan.inputs0));
      ManifestNums(readers.maxLevel, readers.files, readers.manifest, readers.readers, plan.level + 1);
      readers.RemoveByFileNames(plan.level + 1, Nums(plan.inputs1));
      assert forall i :: 0 <= i < |plan.outputs| ==> plan.outputs[i] in plan.outputs;
    }

    method WriteFiles(ts: seq<Table>)
      requires readers.Valid() && UniqueNums(ts) && OutputsApart(readers.readers, ts)
      modifies readers`files
      ensures readers.Valid()
      ensures forall i :: 0 <= i < |ts| ==> ts[i].num in readers.files && readers.files[ts[i].num] == ts[i].run
    {
      hide Consistent;
      ManifestShort(readers.maxLevel, readers.files, readers.manifest, readers.readers);
      var i := 0;
      while i < |ts|
        invariant 0 <= i <= |ts| && readers.Valid()
        invariant forall j :: 0 <= j < i ==> ts[j].num in readers.files && readers.files[ts[j].num] == ts[j].run
      {
        FreeNumber(readers.maxLevel, readers.files, readers.manifest, readers.readers, ts[i].num);
        WriteFileKeeps(readers.maxLevel, readers.files, readers.manifest, readers.readers, ts[i].num, ts[i].run);
        readers.files := readers.files[ts[i].num := ts[i].run];
        i := i + 1;
      }
    }

    /** The process stops and starts again on the same work directory: what was in memory is gone. */
    method Restart()
      requires Valid()
      modifies this, readers
      ensures Valid() && spec == old(spec)
      ensures mem == [] && imm == [] && wal == []
    {
      hide Inv, Consistent, FileBound;
      ghost var s, p, levels := View(), Spec(spec, spec), readers.readers;
      CrashInv(s, p);
      mem, imm := [], [];
      Reload(readers);
      nextFileNumber := readers.NextFileNumber();
      NextIsFileBound(readers.maxLevel, readers.files, readers.manifest, readers.readers, nextFileNumber);
      wal := OpenLog(wal);
      assert View().(phase := Redoing(false)) == Next(s, Crash);
      Redo();
    }

    /** Turns every log segment into a level-0 table, then deletes the segments. */
    method Redo()
      requires readers.Valid() && Inv(View().(phase := Redoing(false)), Spec(spec, spec))
      modifies this`wal, this`nextFileNumber, readers
      ensures Valid() && wal == []
    {
      hide Inv, Consistent, Replay, NumsOk, FreshFile, AddTables, NonEmptyRuns;
      ghost var s, p := View().(phase := Redoing(false)), Spec(spec, spec);
      InvRedoing(s, p);
      if wal != [] {
        StepsAreOpen(s, p, 0, None, 0);
        RedoAddInv(s, p);
        ManifestShort(readers.maxLevel, readers.files, readers.manifest, readers.readers);
        var tables := BuildSegments();
        readers.AddReaders(0, tables);
        s := Next(s, RedoAdd);
        while wal != []
          invariant readers.Valid() && Inv(s, p) && s == View().(phase := Redoing(true))
          decreases |wal|
        {
          RedoDeleteInv(s, p);
          s := Next(s, RedoDelete);
          wal := wal[1..];
        }
      }
      RedoDoneInv(s, p);
      assert View() == Next(s, RedoDone);
    }

    /** One table file per segment, numbered in the order of the segments. */
    method BuildSegments() returns (tables: seq<Table>)
      requires readers.Valid() && NumsOk(readers.readers, nextFileNumber)
      requires forall i :: 0 <= i < |wal| ==> Replay(wal[i]) != []
      modifies this`nextFileNumber, readers`files
      ensures readers.Valid() && nextFileNumber == old(nextFileNumber) + |wal|
      ensures tables == RedoTables(wal, old(nextFileNumber))
      ensures forall i :: 0 <= i < |tables| ==> FreshFile(readers.files, readers.manifest, tables[i])
    {
      hide Consistent, Replay;
      ghost var first := nextFileNumber;
      tables := [];
      var i := 0;
      while i < |wal|
        invariant 0 <= i == |tables| <= |wal| && readers.Valid() && nextFileNumber == first + i
        invariant forall j :: 0 <= j < i ==> tables[j] == Table(first + j, Replay(wal[j]))
        invariant forall j :: 0 <= j < i ==> FreshFile(readers.files, readers.manifest, tables[j])
      {
        var run := ToSkipList(wal[i]);
        var t := BuildTable(run);
        tables := tables + [t];
        i := i + 1;
      }
    }

    /** One round of the flush loop. */
    method FlushOne(i: nat, c: nat, ghost s: State, ghost p: Spec) returns (ghost t: State)
      requires readers.Valid() && Inv(s, p) && i < c && s == View().(minor := Flushing(c, i, i))
      modifies this`wal, this`nextFileNumber, readers
      ensures readers.Valid() && Inv(t, p)
      ensures t == View().(minor := Flushing(c, i + 1, i + 1))
    {
      hide Consistent, SortReaders, Inv;
      StepsAreOpen(s, p, 0, None, 0);
      InvShape(s, p);
      ManifestShort(readers.maxLevel, readers.files, readers.manifest, readers.readers);
      FlushAddInv(s, p);
      ghost var s1 := Next(s, FlushAdd);
      var memtable := imm[|imm| - 1 - i];
      if memtable == [] {
        nextFileNumber := nextFileNumber + 1;
      } else {
        var t := BuildTable(memtable);
        readers.AddReader(0, t);
      }
      assert s1 == View().(minor := Flushing(c, i + 1, i));
      FlushConsumeInv(s1, p);
      if wal != [] {
        wal := wal[1..];
      }
      t := Next(s1, FlushConsume);
    }
  }

  /** The memtable a log segment stands for. */
  method ToSkipList(seg: seq<Entry>) returns (run: Run)
    ensures run == Replay(seg)
  {
    hide Replay;
    ReplayEmpty();
    run := [];
    var i := 0;
    while i < |seg|
      invariant 0 <= i <= |seg| && run == Replay(seg[..i])
    {
      ReplayPush(seg[..i], seg[i]);
      assert seg[..i + 1] == seg[..i] + [seg[i]];
      run := Runs.Insert(run, seg[i].key, seg[i].value);
      i := i + 1;
    }
    assert seg[..i] == seg;
  }

  /** The segments that hold something; empty files are removed. */
  method OpenLog(segs: seq<seq<Entry>>) returns (wal: seq<seq<Entry>>)
    ensures wal == NonEmptySegs(segs)
  {
    wal := [];
    var i := 0;
    while i < |segs|
      invariant 0 <= i <= |segs| && wal == NonEmptySegs(segs[..i])
    {
      assert segs[..i + 1][..i] == segs[..i];
      if segs[i] != [] {
        wal := wal + [segs[i]];
      }
      i := i + 1;
    }
    assert segs[..i] == segs;
  }

  lemma MovesAllOfLevel0(was: seq<seq<Table>>, after: seq<seq<Table>>, level: nat, last: Option<Key>)
    requires Moved(was, was, after, level, last)
    ensures level == 0 ==> after != [] && after[0] == []
  {
  }

  lemma InputsMerge(levels: seq<seq<Table>>, plan: Plan)
    requires Fits(levels, plan)
    ensures Mergeable(RunsOf(plan.inputs0 + plan.inputs1))
  {
    hide Less, MergeRuns, Concat, RangeMin, RangeMax;
  }

  lemma InputsListed(levels: seq<seq<Table>>, plan: Plan)
    requires Fits(levels, plan)
    ensures plan.level + 1 < |levels| && NonEmptyRuns(plan.outputs)
    ensures NonEmptyRuns(levels[plan.level + 1])
    ensures forall t :: t in plan.inputs0 ==> t in levels[plan.level]
    ensures forall t :: t in plan.inputs1 ==> t in levels[plan.level + 1]
  {
    hide Less, MergeRuns, Concat, RangeMin, RangeMax, Overlaps;
    if plan.level == 0 {
      var n := |plan.inputs0|;
      forall i | 0 <= i < n ensures plan.inputs0[i] in levels[0] {
        assert levels[0][..n][n - 1 - i] == plan.inputs0[i];
      }
    }
  }

  lemma RemovedApart(levels: seq<seq<Table>>, plan: Plan)
    requires plan.level + 1 < |levels| && OutputsApart(levels, plan.outputs)
    ensures OutputsApart(RemoveTables(RemoveTables(levels, plan.level, Nums(plan.inputs0)),
                                      plan.level + 1, Nums(plan.inputs1)), plan.outputs)
  {
    hide Retain, Nums;
    RetainMembers(levels[plan.level], Nums(plan.inputs0));
    RetainMembers(levels[plan.level + 1], Nums(plan.inputs1));
  }

  /** Written files that no open table carries are ready to be added. */
  lemma OutputsFresh(maxLevel: nat, files: map<nat, Run>, manifest: seq<seq<nat>>, readers: seq<seq<Table>>,
                     ts: seq<Table>)
    requires Consistent(maxLevel, files, manifest, readers) && OutputsApart(readers, ts) && NonEmptyRuns(ts)
    requires forall i :: 0 <= i < |ts| ==> ts[i].num in files && files[ts[i].num] == ts[i].run
    ensures forall i :: 0 <= i < |ts| ==> FreshFile(files, manifest, ts[i])
  {
    hide Consistent;
    ManifestShort(maxLevel, files, manifest, readers);
    forall i | 0 <= i < |ts| ensures FreshFile(files, manifest, ts[i]) {
      assert ts[i] in ts;
      FreeNumber(maxLevel, files, manifest, readers, ts[i].num);
    }
  }

  /** Reads the manifest again: the same tables come back in the same order. */
  method Reload(readers: SstableReader)
    requires readers.Valid()
    modifies readers`readers
    ensures readers.Valid() && readers.readers == old(readers.readers)
  {
    hide SortReaders;
    ghost var was := readers.readers;
    assert forall l :: 0 <= l < readers.maxLevel ==> Loads(readers.files, FileMetas(readers.manifest, l), l, was[l]);
    readers.readers := [];
    readers.Load();
    LoadIsUnique(readers.maxLevel, readers.files, readers.manifest, was, readers.readers);
  }

  lemma InvRedoing(s: State, p: Spec)
    requires Inv(s, p) && s.phase.Redoing?
    ensures s.levels != [] && NumsOk(s.levels, s.nextFile)
    ensures forall i :: 0 <= i < |s.wal| ==> Replay(s.wal[i]) != []
  {
    hide Replay;
    forall i | 0 <= i < |s.wal| ensures Replay(s.wal[i]) != [] { ReplayOk(s.wal[i]); }
  }

  lemma InvShape(s: State, p: Spec)
    requires Inv(s, p)
    ensures s.levels != [] && LevelsOk(s.levels) && NumsOk(s.levels, s.nextFile)
    ensures s.minor.Flushing? ==> s.minor.count <= |s.imm|
  {
  }

  method FindFrozen(tables: seq<Run>, k: Key) returns (r: Option<Value>)
    ensures r == FindFirst(tables, k)
  {
    hide Find;
    var i := 0;
    while i < |tables|
      invariant 0 <= i <= |tables|
      invariant FindFirst(tables, k) == FindFirst(tables[i..], k)
    {
      r := Find(tables[i], k);
      if r.Some? {
        return;
      }
      assert tables[i..][1..] == tables[i + 1..];
      i := i + 1;
    }
    return None;
  }

  lemma EmptyLoads(maxLevel: nat, levels: seq<seq<Table>>)
    requires Consistent(maxLevel, map[], [], levels)
    ensures levels == seq(maxLevel, _ => [])
  {
    hide SortReaders;
    forall l | 0 <= l < maxLevel ensures levels[l] == [] {
      assert Loads(map[], FileMetas([], l), l, levels[l]);
      RetainEmpty({});
    }
  }
}

/** The set of open sstables and the manifest that records it
    (mirdb-server/src/sstable_reader.rs, mirdb-server/src/manifest.rs). */
module SstableReaders {
  import opened Bytes
  import opened Runs
  import opened Tables

  // ---- sorting by minimum key ----

  /** A stable sort by minimum key. */
  function SortReaders(ts: seq<Table>): (r: seq<Table>)
    requires NonEmptyRuns(ts)
    ensures NonEmptyRuns(r) && |r| == |ts|
  {
    if ts == [] then [] else InsertByMin(SortReaders(ts[..|ts| - 1]), ts[|ts| - 1])
  }

  /** Minimum keys do not decrease. */
  ghost predicate MinSorted(ts: seq<Table>) {
    NonEmptyRuns(ts) && forall i, j :: 0 <= i < j < |ts| ==> !Less(ts[j].Min(), ts[i].Min())
  }

  lemma {:induction false} InsertByMinSorted(ts: seq<Table>, t: Table)
    requires MinSorted(ts) && t.run != []
    ensures MinSorted(InsertByMin(ts, t))
  {
    InsertByMinMembers(ts, t);
    if ts != [] {
      var n := |ts| - 1;
      if Less(t.Min(), ts[n].Min()) {
        InsertByMinSorted(ts[..n], t);
        InsertByMinMembers(ts[..n], t);
        LessAsymmetric(t.Min(), ts[n].Min());
        assert forall u :: u in InsertByMin(ts[..n], t) ==> !Less(ts[n].Min(), u.Min());
      } else {
        forall i | 0 <= i < n ensures !Less(t.Min(), ts[i].Min()) {
          LessTotal(ts[i].Min(), ts[n].Min());
          if Less(t.Min(), ts[i].Min()) && ts[i].Min() != ts[n].Min() {
            LessTransitive(t.Min(), ts[i].Min(), ts[n].Min());
          }
        }
      }
    }
  }

  lemma {:induction false} SortReadersSorted(ts: seq<Table>)
    requires NonEmptyRuns(ts)
    ensures MinSorted(SortReaders(ts))
    ensures forall t :: t in SortReaders(ts) <==> t in ts
  {
    if ts != [] {
      var n := |ts| - 1;
      SortReadersSorted(ts[..n]);
      InsertByMinSorted(SortReaders(ts[..n]), ts[n]);
      InsertByMinMembers(SortReaders(ts[..n]), ts[n]);
      assert ts == ts[..n] + [ts[n]];
    }
  }

  /** Sorting leaves a sorted level as it is. */
  lemma {:induction false} SortReadersIdentity(ts: seq<Table>)
    requires MinSorted(ts)
    ensures SortReaders(ts) == ts
  {
    if ts != [] {
      var n := |ts| - 1;
      SortReadersIdentity(ts[..n]);
      assert n > 0 ==> !Less(ts[n].Min(), ts[n - 1].Min());
      assert ts == ts[..n] + [ts[n]];
    }
  }

  /** Pushing on a level that is the sort of some list, then sorting, is sorting the longer list. */
  lemma SortPushed(base: seq<Table>, t: Table)
    requires NonEmptyRuns(base) && t.run != []
    ensures SortReaders(SortReaders(base) + [t]) == SortReaders(base + [t])
  {
    hide SortReaders;
    SortReadersSorted(base);
    SortReadersIdentity(SortReaders(base));
    SortReadersPush(SortReaders(base), t);
    SortReadersPush(base, t);
  }

  // ---- removing by file number ----

  /** `retain` of the tables that are not named. */
  function Retain(ts: seq<Table>, nums: set<nat>): seq<Table> {
    if ts == [] then []
    else Retain(ts[..|ts| - 1], nums) + if ts[|ts| - 1].num in nums then [] else [ts[|ts| - 1]]
  }

  lemma {:induction false} RetainMembers(ts: seq<Table>, nums: set<nat>)
    ensures forall t :: t in Retain(ts, nums) <==> t in ts && t.num !in nums
    ensures NonEmptyRuns(ts) ==> NonEmptyRuns(Retain(ts, nums))
  {
    if ts != [] {
      RetainMembers(ts[..|ts| - 1], nums);
      assert ts == ts[..|ts| - 1] + [ts[|ts| - 1]];
    }
  }

  lemma RetainEmpty(nums: set<nat>)
    ensures Retain([], nums) == [] && SortReaders([]) == []
  {
  }

  lemma RetainPush(ts: seq<Table>, t: Table, nums: set<nat>)
    ensures Retain(ts + [t], nums) == if t.num in nums then Retain(ts, nums) else Retain(ts, nums) + [t]
  {
    assert (ts + [t])[..|ts|] == ts;
  }

  function RetainNums(ns: seq<nat>, nums: set<nat>): seq<nat> {
    if ns == [] then []
    else RetainNums(ns[..|ns| - 1], nums) + if ns[|ns| - 1] in nums then [] else [ns[|ns| - 1]]
  }

  /** Removing tables commutes with putting one in its place. */
  lemma {:induction false} InsertByMinRetain(ts: seq<Table>, t: Table, nums: set<nat>)
    requires MinSorted(ts) && t.run != []
    ensures NonEmptyRuns(Retain(ts, nums))
    ensures Retain(InsertByMin(ts, t), nums) ==
            if t.num in nums then Retain(ts, nums) else InsertByMin(Retain(ts, nums), t)
  {
    hide Less, InsertByMin, Retain;
    RetainMembers(ts, nums);
    if ts == [] || !Less(t.Min(), ts[|ts| - 1].Min()) {
      InsertByMinSteps(ts, t);
      RetainPush(ts, t, nums);
      InsertBehind(ts, t, nums);
    } else {
      var front, u := ts[..|ts| - 1], ts[|ts| - 1];
      assert ts == front + [u];
      InsertByMinRetain(front, t, nums);
      InsertByMinSteps(ts, t);
      RetainPush(InsertByMin(front, t), u, nums);
      RetainPush(front, u, nums);
      var kept := Retain(front, nums);
      assert (kept + [u])[..|kept|] == kept;
      InsertByMinSteps(kept + [u], t);
    }
  }

  lemma InsertByMinSteps(ts: seq<Table>, t: Table)
    requires NonEmptyRuns(ts) && t.run != []
    ensures InsertByMin(ts, t) ==
            if ts == [] || !Less(t.Min(), ts[|ts| - 1].Min()) then ts + [t]
            else InsertByMin(ts[..|ts| - 1], t) + [ts[|ts| - 1]]
  {
  }

  lemma InsertBehind(ts: seq<Table>, t: Table, nums: set<nat>)
    requires MinSorted(ts) && t.run != []
    requires ts != [] ==> !Less(t.Min(), ts[|ts| - 1].Min())
    ensures NonEmptyRuns(Retain(ts, nums)) && InsertByMin(Retain(ts, nums), t) == Retain(ts, nums) + [t]
  {
    hide Less;
    var kept := Retain(ts, nums);
    RetainMembers(ts, nums);
    if kept != [] {
      var u := kept[|kept| - 1];
      assert u in ts;
      var i :| 0 <= i < |ts| && ts[i] == u;
      LessTotal(u.Min(), ts[|ts| - 1].Min());
      if Less(t.Min(), u.Min()) && i < |ts| - 1 && u.Min() != ts[|ts| - 1].Min() {
        LessTransitive(t.Min(), u.Min(), ts[|ts| - 1].Min());
      }
    }
  }

  lemma SortReadersPush(ts: seq<Table>, t: Table)
    requires NonEmptyRuns(ts) && t.run != []
    ensures SortReaders(ts + [t]) == InsertByMin(SortReaders(ts), t)
  {
    hide InsertByMin;
    assert (ts + [t])[..|ts|] == ts;
  }

  /** Removing tables commutes with sorting. */
  lemma {:induction false} SortRetain(ts: seq<Table>, nums: set<nat>)
    requires NonEmptyRuns(ts)
    ensures NonEmptyRuns(Retain(ts, nums))
    ensures Retain(SortReaders(ts), nums) == SortReaders(Retain(ts, nums))
  {
    hide InsertByMin, Less, SortReaders, Retain;
    RetainMembers(ts, nums);
    if ts == [] {
      RetainEmpty(nums);
    } else {
      var front, t := ts[..|ts| - 1], ts[|ts| - 1];
      assert ts == front + [t];
      SortRetain(front, nums);
      SortReadersSorted(front);
      InsertByMinRetain(SortReaders(front), t, nums);
      RetainPush(front, t, nums);
      SortReadersPush(front, t);
      SortReadersPush(Retain(front, nums), t);
    }
  }

  // ---- searching a level ----

  /** The linear range filter. */
  function Covering(ts: seq<Table>, k: Key): seq<Table>
    requires NonEmptyRuns(ts)
  {
    if ts == [] then [] else (if ts[0].Covers(k) then [ts[0]] else []) + Covering(ts[1..], k)
  }

  lemma CoveringStep(ts: seq<Table>, k: Key)
    requires NonEmptyRuns(ts) && ts != []
    ensures Covering(ts, k) == (if ts[0].Covers(k) then [ts[0]] else []) + Covering(ts[1..], k)
  {
  }

  lemma {:induction false} CoveringConcat(a: seq<Table>, b: seq<Table>, k: Key)
    requires NonEmptyRuns(a) && NonEmptyRuns(b)
    ensures Covering(a + b, k) == Covering(a, k) + Covering(b, k)
  {
    hide Less, Covering, Table.Covers;
    if a == [] {
      assert a + b == b;
      CoveringEmpty(k);
    } else {
      assert (a + b)[0] == a[0] && (a + b)[1..] == a[1..] + b;
      CoveringStep(a, k);
      CoveringStep(a + b, k);
      CoveringConcat(a[1..], b, k);
    }
  }

  lemma CoveringEmpty(k: Key)
    ensures Covering([], k) == []
  {
  }

  lemma {:induction false} CoveringNone(ts: seq<Table>, k: Key)
    requires NonEmptyRuns(ts) && forall i :: 0 <= i < |ts| ==> !ts[i].Covers(k)
    ensures Covering(ts, k) == []
  {
    if ts != [] { CoveringNone(ts[1..], k); }
  }

  lemma TablesFindOne(t: Table, k: Key)
    ensures TablesFind([t], k) == Find(t.run, k)
  {
    assert RunsOf([t]) == [t.run];
    assert FindFirst(RunsOf([t])[1..], k) == None;
  }

  /** Tables outside whose range a key lies cannot hold it, so a search may skip them. */
  lemma {:induction false} CoveringFind(ts: seq<Table>, k: Key)
    requires AllValid(ts)
    ensures TablesFind(Covering(ts, k), k) == TablesFind(ts, k)
  {
    hide Less, Find, RunsOf;
    if ts != [] {
      CoveringFind(ts[1..], k);
      var head := if ts[0].Covers(k) then [ts[0]] else [];
      TablesFindConcat([ts[0]], ts[1..], k);
      TablesFindConcat(head, Covering(ts[1..], k), k);
      assert ts == [ts[0]] + ts[1..];
      TablesFindOne(ts[0], k);
      TablesFindNone([], k);
      if Find(ts[0].run, k).Some? { FoundIsCovered(ts[0], k); }
    }
  }

  // ---- the manifest as a list of files ----

  /** The tables a list of file numbers stands for. */
  function Open(files: map<nat, Run>, nums: seq<nat>): (ts: seq<Table>)
    requires forall i :: 0 <= i < |nums| ==> nums[i] in files
    ensures |ts| == |nums|
    ensures forall i :: 0 <= i < |nums| ==> ts[i] == Table(nums[i], files[nums[i]])
  {
    seq(|nums|, i requires 0 <= i < |nums| => Table(nums[i], files[nums[i]]))
  }

  /** The files a manifest lists for a level; a manifest may be shorter than the levels. */
  function FileMetas(manifest: seq<seq<nat>>, level: nat): seq<nat> {
    if level < |manifest| then manifest[level] else []
  }

  ghost predicate Readable(files: map<nat, Run>, nums: seq<nat>) {
    forall i :: 0 <= i < |nums| ==> nums[i] in files && files[nums[i]] != []
  }

  /** The readers `load` builds for one level. */
  function LoadLevel(files: map<nat, Run>, nums: seq<nat>, level: nat): seq<Table>
    requires Readable(files, nums)
  {
    if level == 0 then Open(files, nums) else SortReaders(Open(files, nums))
  }

  ghost predicate Loads(files: map<nat, Run>, nums: seq<nat>, level: nat, ts: seq<Table>) {
    Readable(files, nums) && ts == LoadLevel(files, nums, level)
  }

  lemma {:induction false} OpenRetain(files: map<nat, Run>, ns: seq<nat>, nums: set<nat>)
    requires forall i :: 0 <= i < |ns| ==> ns[i] in files
    ensures forall i :: 0 <= i < |RetainNums(ns, nums)| ==>
            RetainNums(ns, nums)[i] in files && RetainNums(ns, nums)[i] in ns
    ensures Open(files, RetainNums(ns, nums)) == Retain(Open(files, ns), nums)
  {
    if ns != [] {
      var n := |ns| - 1;
      OpenRetain(files, ns[..n], nums);
      assert Open(files, ns)[..n] == Open(files, ns[..n]);
      assert ns == ns[..n] + [ns[n]];
    }
  }

  // ---- the pure effect of the operations on the levels ----

  /** One table added to a level. */
  function AddTable(levels: seq<seq<Table>>, level: nat, t: Table): (r: seq<seq<Table>>)
    requires level < |levels| && t.run != [] && NonEmptyRuns(levels[level])
    ensures |r| == |levels| && NonEmptyRuns(r[level])
  {
    levels[level := if level == 0 then levels[0] + [t] else SortReaders(levels[level] + [t])]
  }

  /** Tables added in order, each followed by a sort of its level. */
  function AddTables(levels: seq<seq<Table>>, level: nat, ts: seq<Table>): (r: seq<seq<Table>>)
    requires level < |levels| && NonEmptyRuns(ts) && NonEmptyRuns(levels[level])
    ensures |r| == |levels| && NonEmptyRuns(r[level])
  {
    if ts == [] then levels else AddTable(AddTables(levels, level, ts[..|ts| - 1]), level, ts[|ts| - 1])
  }

  function RemoveTables(levels: seq<seq<Table>>, level: nat, nums: set<nat>): (r: seq<seq<Table>>)
    requires level < |levels|
    ensures |r| == |levels|
  {
    levels[level := Retain(levels[level], nums)]
  }

  ghost predicate Apart(a: seq<nat>, b: seq<nat>) {
    forall n :: n in a ==> n !in b
  }

  /** Every file is listed once. */
  ghost predicate NoSharedFiles(manifest: seq<seq<nat>>) {
    && (forall l :: 0 <= l < |manifest| ==> Distinct(manifest[l]))
    && (forall l, m :: 0 <= l < |manifest| && 0 <= m < |manifest| && l != m ==> Apart(manifest[l], manifest[m]))
  }

  /** A table whose file is written but not in the manifest yet. */
  ghost predicate FreshFile(files: map<nat, Run>, manifest: seq<seq<nat>>, t: Table) {
    && t.num in files && files[t.num] == t.run && t.run != []
    && forall l :: 0 <= l < |manifest| ==> t.num !in manifest[l]
  }

  /** Loading the manifest would rebuild the readers. */
  ghost predicate Consistent(maxLevel: nat, files: map<nat, Run>, manifest: seq<seq<nat>>, readers: seq<seq<Table>>) {
    && |readers| == maxLevel && |manifest| <= maxLevel && NoSharedFiles(manifest)
    && forall l :: 0 <= l < maxLevel ==> Loads(files, FileMetas(manifest, l), l, readers[l])
  }

  lemma ReadersNonEmpty(maxLevel: nat, files: map<nat, Run>, manifest: seq<seq<nat>>, readers: seq<seq<Table>>,
                        level: nat)
    requires Consistent(maxLevel, files, manifest, readers) && level < maxLevel
    ensures |readers| == maxLevel && NonEmptyRuns(readers[level])
  {
    hide SortReaders;
    assert Loads(files, FileMetas(manifest, level), level, readers[level]);
  }

  lemma AddKeepsConsistent(maxLevel: nat, files: map<nat, Run>, manifest: seq<seq<nat>>, readers: seq<seq<Table>>,
                           level: nat, t: Table)
    requires Consistent(maxLevel, files, manifest, readers) && level < |manifest|
    requires FreshFile(files, manifest, t)
    ensures NonEmptyRuns(readers[level])
    ensures Consistent(maxLevel, files, manifest[level := manifest[level] + [t.num]], AddTable(readers, level, t))
  {
    hide SortReaders;
    ReadersNonEmpty(maxLevel, files, manifest, readers, level);
    var ns := manifest[level];
    var m := manifest[level := ns + [t.num]];
    var rs := AddTable(readers, level, t);
    assert Loads(files, FileMetas(manifest, level), level, readers[level]);
    assert Open(files, ns + [t.num]) == Open(files, ns) + [t];
    if level != 0 { SortPushed(Open(files, ns), t); }
    forall l | 0 <= l < maxLevel ensures Loads(files, FileMetas(m, l), l, rs[l]) {
      assert Loads(files, FileMetas(manifest, l), l, readers[l]);
    }
    forall l, k | 0 <= l < |m| && 0 <= k < |m| && l != k ensures Apart(m[l], m[k]) {
      assert Apart(manifest[l], manifest[k]);
    }
    assert Distinct(manifest[level]);
  }

  lemma RemoveKeepsConsistent(maxLevel: nat, files: map<nat, Run>, manifest: seq<seq<nat>>, readers: seq<seq<Table>>,
                              level: nat, nums: set<nat>)
    requires Consistent(maxLevel, files, manifest, readers) && level < |manifest|
    requires forall n :: n in nums ==> n in manifest[level]
    ensures Consistent(maxLevel, files - nums, manifest[level := RetainNums(manifest[level], nums)],
                       RemoveTables(readers, level, nums))
  {
    hide SortReaders, Retain, RetainNums;
    var ns := manifest[level];
    var m := manifest[level := RetainNums(ns, nums)];
    var rs := RemoveTables(readers, level, nums);
    assert Loads(files, FileMetas(manifest, level), level, readers[level]);
    RetainNumsApart(ns, nums);
    OpenRetain(files, ns, nums);
    if level != 0 { SortRetain(Open(files, ns), nums); }
    forall l, k | 0 <= l < |m| && 0 <= k < |m| && l != k ensures Apart(m[l], m[k]) {
      assert Apart(manifest[l], manifest[k]);
    }
    forall l | 0 <= l < maxLevel ensures Loads(files - nums, FileMetas(m, l), l, rs[l]) {
      assert Loads(files, FileMetas(manifest, l), l, readers[l]);
      if l != level && l < |manifest| { assert Apart(manifest[l], ns); }
      KeptFilesOpen(files, nums, FileMetas(m, l));
    }
  }

  lemma KeptFilesOpen(files: map<nat, Run>, nums: set<nat>, ns: seq<nat>)
    requires Readable(files, ns) && forall n :: n in ns ==> n !in nums
    ensures Readable(files - nums, ns) && Open(files - nums, ns) == Open(files, ns)
  {
    assert forall i :: 0 <= i < |ns| ==> ns[i] in ns;
  }

  class SstableReader {
    const maxLevel: nat
    var readers: seq<seq<Table>>
    /** `level_metas` of the manifest: file numbers per level, in the order they were added. */
    var manifest: seq<seq<nat>>
    /** The sstables in the work directory. */
    var files: map<nat, Run>

    /** Memory, manifest and directory agree: loading the manifest would rebuild the readers. */
    ghost predicate Valid()
      reads this
    {
      Consistent(maxLevel, files, manifest, readers)
    }

    constructor (maxLevel: nat, manifest: seq<seq<nat>>, files: map<nat, Run>)
      requires |manifest| <= maxLevel && NoSharedFiles(manifest)
      requires forall l :: 0 <= l < maxLevel ==> Readable(files, FileMetas(manifest, l))
      ensures Valid() && this.maxLevel == maxLevel && this.manifest == manifest && this.files == files
    {
      this.maxLevel := maxLevel;
      this.manifest := manifest;
      this.files := files;
      this.readers := [];
      new;
      Load();
    }

    /** Opens every file of the manifest; levels other than 0 are sorted by minimum key. */
    method Load()
      requires |manifest| <= maxLevel && NoSharedFiles(manifest) && readers == []
      requires forall l :: 0 <= l < maxLevel ==> Readable(files, FileMetas(manifest, l))
      modifies `readers
      ensures Valid()
    {
      hide SortReaders;
      var i := 0;
      while i < maxLevel
        modifies `readers
        invariant 0 <= i <= maxLevel && |readers| == i
        invariant forall l :: 0 <= l < i ==> Loads(files, FileMetas(manifest, l), l, readers[l])
      {
        var rs: seq<Table> := [];
        assert Readable(files, FileMetas(manifest, i));
        if i < |manifest| {
          var fms := manifest[i];
          var j := 0;
          while j < |fms|
            invariant 0 <= j <= |fms|
            invariant rs == Open(files, fms)[..j]
          {
            rs := rs + [Table(fms[j], files[fms[j]])];
            j := j + 1;
          }
          assert rs == Open(files, fms);
          if i != 0 {
            rs := SortReaders(rs);
          }
        } else {
          SortReadersSorted([]);
        }
        ghost var before := readers;
        readers := readers + [rs];
        assert Loads(files, FileMetas(manifest, i), i, readers[i]);
        i := i + 1;
      }
    }

    /** The tables of a level that may hold the key: by binary search on ordered levels. */
    method SearchReaders(level: nat, key: Key) returns (res: seq<Table>)
      requires level < |readers| ==> AllValid(readers[level]) && (level > 0 ==> LevelOk(readers[level]))
      ensures level < |readers| ==> NonEmptyRuns(SearchOrder(level, readers[level]))
      ensures res == if level < |readers| then Covering(SearchOrder(level, readers[level]), key) else []
    {
      hide Less;
      res := [];
      if |readers| <= level {
        return;
      }
      var rs := readers[level];
      if level == 0 {
        res := FilterCovering(Reverse(rs), key);
      } else if rs != [] {
        var left, right := 0, |rs| - 1;
        while left < right
          invariant 0 <= left <= right < |rs|
          invariant left > 0 ==> Less(rs[left].Min(), key)
        {
          var middle := (left + right + 1) / 2;
          if Less(rs[middle].Min(), key) {
            left := middle;
          } else {
            right := middle - 1;
          }
        }
        SkippedReaders(rs, left, key);
        res := ScanFrom(rs, left, key);
      }
    }

    /** Newest first over all levels: level 0 backwards, then the ordered levels. */
    method Get(k: Key) returns (r: Option<Value>)
      requires |readers| == maxLevel && LevelsOk(readers)
      ensures r == LevelsFind(readers, 0, k)
    {
      hide TablesFind, Covering, SearchOrder;
      var i := 0;
      while i < maxLevel
        invariant 0 <= i <= maxLevel
        invariant LevelsFind(readers, 0, k) == LevelsFind(readers, i, k)
      {
        var found := SearchReaders(i, k);
        SearchOrderValid(i, readers[i]);
        CoveringFind(SearchOrder(i, readers[i]), k);
        r := FirstHit(found, k);
        if r.Some? {
          return;
        }
        i := i + 1;
      }
      r := None;
    }

    /** Adds tables whose files are already written, then records them. */
    method AddReaders(level: nat, ts: seq<Table>)
      requires Valid() && level < maxLevel
      requires forall i, j :: 0 <= i < j < |ts| ==> ts[i].num != ts[j].num
      requires forall i :: 0 <= i < |ts| ==> FreshFile(files, manifest, ts[i])
      modifies `manifest, `readers
      ensures Valid()
      ensures NonEmptyRuns(old(readers)[level]) && NonEmptyRuns(ts)
      ensures readers == AddTables(old(readers), level, ts)
    {
      hide AddTable, Consistent;
      ReadersNonEmpty(maxLevel, files, manifest, readers, level);
      ghost var olds := readers;
      var i := 0;
      while i < |ts|
        modifies `manifest, `readers
        invariant 0 <= i <= |ts| && Valid()
        invariant readers == AddTables(olds, level, ts[..i])
        invariant forall j :: i <= j < |ts| ==> FreshFile(files, manifest, ts[j])
      {
        AddReader(level, ts[i]);
        assert ts[..i + 1][..i] == ts[..i];
        i := i + 1;
      }
      assert ts[..i] == ts;
    }

    method AddReader(level: nat, t: Table)
      requires Valid() && level < maxLevel && FreshFile(files, manifest, t)
      modifies `manifest, `readers
      ensures Valid()
      ensures NonEmptyRuns(old(readers)[level]) && readers == AddTable(old(readers), level, t)
      ensures forall u :: FreshFile(files, old(manifest), u) && u.num != t.num ==> FreshFile(files, manifest, u)
    {
      hide SortReaders;
      ghost var olds := readers;
      EnsureLevel(level);
      AddKeepsConsistent(maxLevel, files, manifest, readers, level, t);
      manifest := manifest[level := manifest[level] + [t.num]];
      readers := readers[level := readers[level] + [t]];
      if level != 0 {
        readers := readers[level := SortReaders(readers[level])];
      }
      assert readers == AddTable(olds, level, t);
    }

    /** Grows the manifest until it has the level; the listed files stay the same. */
    method EnsureLevel(level: nat)
      requires level < maxLevel && |manifest| <= maxLevel && NoSharedFiles(manifest)
      modifies `manifest
      ensures level < |manifest| <= maxLevel && NoSharedFiles(manifest)
      ensures forall l :: 0 <= l < maxLevel ==> FileMetas(manifest, l) == FileMetas(old(manifest), l)
      ensures forall l :: 0 <= l < |manifest| ==> manifest[l] == FileMetas(old(manifest), l)
    {
      while |manifest| < level + 1
        modifies `manifest
        invariant |old(manifest)| <= |manifest| <= maxLevel && NoSharedFiles(manifest)
        invariant forall l :: 0 <= l < maxLevel ==> FileMetas(manifest, l) == FileMetas(old(manifest), l)
        invariant forall l :: 0 <= l < |manifest| ==> manifest[l] == FileMetas(old(manifest), l)
        decreases level + 1 - |manifest|
      {
        manifest := manifest + [[]];
      }
    }

    /** Forgets the named tables of a level and deletes their files. */
    method RemoveByFileNames(level: nat, nums: set<nat>)
      requires Valid() && level < maxLevel
      requires forall n :: n in nums ==> n in FileMetas(manifest, level)
      modifies this
      ensures Valid()
      ensures readers == RemoveTables(old(readers), level, nums)
      ensures files == old(files) - nums
    {
      EnsureLevel(level);
      RemoveKeepsConsistent(maxLevel, files, manifest, readers, level, nums);
      manifest := manifest[level := RetainNums(manifest[level], nums)];
      readers := readers[level := Retain(readers[level], nums)];
      files := files - nums;
    }

    /** One more than the largest file number of the manifest. */
    method NextFileNumber() returns (n: nat)
      ensures forall l :: 0 <= l < |manifest| ==> AllBelow(manifest[l], n)
      ensures n == 0 || exists l :: 0 <= l < |manifest| && n - 1 in manifest[l]
    {
      var m: Option<nat> := None;
      var l := 0;
      while l < |manifest|
        invariant 0 <= l <= |manifest|
        invariant forall x :: 0 <= x < l ==> AllBelow(manifest[x], Above(m))
        invariant m.Some? ==> exists x :: 0 <= x < |manifest| && m.value in manifest[x]
      {
        var i := 0;
        while i < |manifest[l]|
          invariant 0 <= i <= |manifest[l]|
          invariant forall x :: 0 <= x < l ==> AllBelow(manifest[x], Above(m))
          invariant AllBelow(manifest[l][..i], Above(m))
          invariant m.Some? ==> exists x :: 0 <= x < |manifest| && m.value in manifest[x]
        {
          ghost var bound := Above(m);
          if m.None? || manifest[l][i] > m.value {
            m := Some(manifest[l][i]);
          }
          assert bound <= Above(m);
          assert manifest[l][..i + 1] == manifest[l][..i] + [manifest[l][i]];
          i := i + 1;
        }
        assert manifest[l][..i] == manifest[l];
        l := l + 1;
      }
      n := Above(m);
    }
  }

  ghost predicate AllBelow(ns: seq<nat>, n: nat) {
    forall x :: x in ns ==> x < n
  }

  function Above(m: Option<nat>): nat {
    if m.Some? then m.value + 1 else 0
  }

  lemma SearchOrderValid(level: nat, ts: seq<Table>)
    requires AllValid(ts)
    ensures AllValid(SearchOrder(level, ts))
  {
  }

  lemma {:induction false} RetainNumsApart(ns: seq<nat>, nums: set<nat>)
    ensures forall n :: n in RetainNums(ns, nums) <==> n in ns && n !in nums
    ensures Distinct(ns) ==> Distinct(RetainNums(ns, nums))
  {
    if ns != [] {
      var front := ns[..|ns| - 1];
      RetainNumsApart(front, nums);
      assert ns == front + [ns[|ns| - 1]];
      if Distinct(ns) {
        assert forall n :: n in front ==> n != ns[|ns| - 1];
        assert forall i :: 0 <= i < |RetainNums(front, nums)| ==> RetainNums(front, nums)[i] in front;
      }
    }
  }

  /** The binary search stops at a reader with nothing relevant before it. */
  lemma SkippedReaders(rs: seq<Table>, left: nat, key: Key)
    requires LevelOk(rs) && left < |rs|
    requires left > 0 ==> Less(rs[left].Min(), key)
    ensures NonEmptyRuns(rs) && Covering(rs, key) == Covering(rs[left..], key)
  {
    hide Less, Covering;
    forall i | 0 <= i < left ensures !rs[i].Covers(key) {
      LessTransitive(rs[i].Max(), rs[left].Min(), key);
    }
    CoveringNone(rs[..left], key);
    assert rs == rs[..left] + rs[left..];
    CoveringConcat(rs[..left], rs[left..], key);
  }

  method FilterCovering(rs: seq<Table>, key: Key) returns (res: seq<Table>)
    requires NonEmptyRuns(rs)
    ensures res == Covering(rs, key)
  {
    hide Less, Covering, Table.Covers;
    CoveringEmpty(key);
    res := [];
    var i := 0;
    while i < |rs|
      invariant 0 <= i <= |rs|
      invariant res + Covering(rs[i..], key) == Covering(rs, key)
    {
      CoveringStep(rs[i..], key);
      if rs[i].Covers(key) {
        res := res + [rs[i]];
      }
      assert rs[i..][1..] == rs[i + 1..];
      i := i + 1;
    }
  }

  /** The scan after the binary search: it stops at the first reader that starts above the key. */
  method ScanFrom(rs: seq<Table>, left: nat, key: Key) returns (res: seq<Table>)
    requires LevelOk(rs) && left <= |rs|
    ensures NonEmptyRuns(rs) && res == Covering(rs[left..], key)
  {
    hide Less, Covering;
    CoveringEmpty(key);
    res := [];
    var i := left;
    while i < |rs|
      invariant left <= i <= |rs|
      invariant res + Covering(rs[i..], key) == Covering(rs[left..], key)
    {
      assert rs[i..][1..] == rs[i + 1..];
      CoveringStep(rs[i..], key);
      if rs[i].Covers(key) {
        res := res + [rs[i]];
        i := i + 1;
        continue;
      }
      if Less(key, rs[i].Min()) {
        NothingBeyond(rs, i, key);
        break;
      }
      i := i + 1;
    }
  }

  lemma NothingBeyond(rs: seq<Table>, i: nat, key: Key)
    requires LevelOk(rs) && i < |rs| && Less(key, rs[i].Min())
    ensures Covering(rs[i..], key) == []
  {
    hide Less, Covering;
    forall j | i <= j < |rs| ensures !rs[j].Covers(key) {
      if i < j {
        MinAtMostMax(rs[i]);
        LessChain(rs[i].Min(), rs[i].Max(), rs[j].Min());
        LessTransitive(key, rs[i].Min(), rs[j].Min());
      }
    }
    CoveringNone(rs[i..], key);
  }

  method FirstHit(ts: seq<Table>, k: Key) returns (r: Option<Value>)
    ensures r == TablesFind(ts, k)
  {
    hide TablesFind, Find;
    var i := 0;
    while i < |ts|
      invariant 0 <= i <= |ts|
      invariant TablesFind(ts, k) == TablesFind(ts[i..], k)
    {
      assert ts[i..] == [ts[i]] + ts[i + 1..];
      TablesFindConcat([ts[i]], ts[i + 1..], k);
      TablesFindOne(ts[i], k);
      r := Find(ts[i].run, k);
      if r.Some? {
        return;
      }
      i := i + 1;
    }
    assert ts[i..] == [];
    TablesFindNone([], k);
    r := None;
  }
}

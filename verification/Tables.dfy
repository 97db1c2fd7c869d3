/** Sstables as the engine sees them, and the levels they are kept in (mirdb-server/src/sstable_reader.rs). */
module Tables {
  import opened Bytes
  import opened Runs

  /** An sstable file: its file number and its contents. */
  datatype Table = Table(num: nat, run: Run) {
    ghost predicate Valid() {
      run != [] && Sorted(run) && NonEmptyKeys(run)
    }

    function Min(): Key
      requires run != []
    {
      run[0].key
    }

    function Max(): Key
      requires run != []
    {
      run[|run| - 1].key
    }

    /** Whether `k` is in the key range of the table. */
    predicate Covers(k: Key)
      requires run != []
    {
      !Less(k, Min()) && !Less(Max(), k)
    }
  }

  ghost predicate AllValid(ts: seq<Table>) {
    forall i :: 0 <= i < |ts| ==> ts[i].Valid()
  }

  ghost predicate NonEmptyRuns(ts: seq<Table>) {
    forall i :: 0 <= i < |ts| ==> ts[i].run != []
  }

  /** One table lies wholly below another. */
  ghost predicate Before(t: Table, u: Table)
    requires t.run != [] && u.run != []
  {
    Less(t.Max(), u.Min())
  }

  /** A level other than 0: ordered by minimum key, key ranges pairwise disjoint. */
  ghost predicate LevelOk(ts: seq<Table>) {
    AllValid(ts) && forall i, j :: 0 <= i < j < |ts| ==> Before(ts[i], ts[j])
  }

  function RunsOf(ts: seq<Table>): (rs: seq<Run>)
    ensures |rs| == |ts|
    ensures forall i :: 0 <= i < |ts| ==> rs[i] == ts[i].run
  {
    seq(|ts|, i requires 0 <= i < |ts| => ts[i].run)
  }

  function Reverse(ts: seq<Table>): (r: seq<Table>)
    ensures |r| == |ts|
    ensures forall i :: 0 <= i < |ts| ==> r[i] == ts[|ts| - 1 - i]
  {
    seq(|ts|, i requires 0 <= i < |ts| => ts[|ts| - 1 - i])
  }

  /** First hit in a list of tables. */
  function TablesFind(ts: seq<Table>, k: Key): Option<Value> {
    FindFirst(RunsOf(ts), k)
  }

  /** The search order within a level: level 0 newest first, the others as stored. */
  function SearchOrder(level: nat, ts: seq<Table>): seq<Table> {
    if level == 0 then Reverse(ts) else ts
  }

  /** The lookup a reader of all levels is to perform: levels `from` onwards, first hit wins. */
  function LevelsFind(levels: seq<seq<Table>>, from: nat, k: Key): Option<Value>
    requires from <= |levels|
    decreases |levels| - from
  {
    if from == |levels| then None
    else
      var r := TablesFind(SearchOrder(from, levels[from]), k);
      if r.Some? then r else LevelsFind(levels, from + 1, k)
  }

  /** What every reachable set of levels satisfies. */
  ghost predicate LevelsOk(levels: seq<seq<Table>>) {
    forall l :: 0 <= l < |levels| ==> AllValid(levels[l]) && (l > 0 ==> LevelOk(levels[l]))
  }

  lemma TablesFindConcat(a: seq<Table>, b: seq<Table>, k: Key)
    ensures TablesFind(a + b, k) == if TablesFind(a, k).Some? then TablesFind(a, k) else TablesFind(b, k)
  {
    assert RunsOf(a + b) == RunsOf(a) + RunsOf(b);
    FindFirstConcat(RunsOf(a), RunsOf(b), k);
  }

  lemma TablesFindNone(ts: seq<Table>, k: Key)
    ensures TablesFind(ts, k).None? <==> forall i :: 0 <= i < |ts| ==> Find(ts[i].run, k).None?
  {
    FindFirstNone(RunsOf(ts), k);
    assert forall i :: 0 <= i < |ts| ==> RunsOf(ts)[i] == ts[i].run;
  }

  /** A stored key lies in the range of its table. */
  lemma FoundIsCovered(t: Table, k: Key)
    requires t.Valid() && Find(t.run, k).Some?
    ensures t.Covers(k)
  {
    var r := LowerBound(t.run, k);
    LessIrreflexive(k);
    if r > 0 { LessAsymmetric(t.run[0].key, k); }
    if r < |t.run| - 1 { LessAsymmetric(k, t.Max()); }
  }

  /** No key is in the range of two tables of an ordered level. */
  lemma CoversApart(t: Table, u: Table, k: Key)
    requires t.run != [] && u.run != [] && Before(t, u)
    ensures !(t.Covers(k) && u.Covers(k))
  {
    LessTotal(k, t.Max());
    if Less(k, t.Max()) {
      LessTransitive(k, t.Max(), u.Min());
    }
  }

  /** In an ordered level a lookup finds whatever any of its tables holds. */
  lemma LevelFind(ts: seq<Table>, i: nat, k: Key)
    requires LevelOk(ts) && i < |ts| && Find(ts[i].run, k).Some?
    ensures TablesFind(ts, k) == Find(ts[i].run, k)
  {
    FoundIsCovered(ts[i], k);
    forall j | 0 <= j < i ensures Find(ts[j].run, k).None? {
      if Find(ts[j].run, k).Some? {
        FoundIsCovered(ts[j], k);
        CoversApart(ts[j], ts[i], k);
      }
    }
    assert forall j :: 0 <= j < |ts| ==> RunsOf(ts)[j] == ts[j].run;
    FindFirstAt(RunsOf(ts), k, i);
  }

  /** The same, over members. */
  lemma LevelFindMember(ts: seq<Table>, t: Table, k: Key)
    requires LevelOk(ts) && t in ts && Find(t.run, k).Some?
    ensures TablesFind(ts, k) == Find(t.run, k)
  {
    var i :| 0 <= i < |ts| && ts[i] == t;
    LevelFind(ts, i, k);
  }

  lemma TablesFindHolder(ts: seq<Table>, k: Key) returns (t: Table)
    requires TablesFind(ts, k).Some?
    ensures t in ts && Find(t.run, k) == TablesFind(ts, k)
  {
    var i := FirstHolder(RunsOf(ts), k);
    t := ts[i];
  }

  // ---- keeping a level ordered ----

  /** Puts a table behind all tables whose minimum is not larger: what a stable sort by minimum key
      does with one table pushed on a sorted level. */
  function InsertByMin(ts: seq<Table>, t: Table): (r: seq<Table>)
    requires t.run != [] && NonEmptyRuns(ts)
    ensures |r| == |ts| + 1 && NonEmptyRuns(r)
  {
    if ts == [] || !Less(t.Min(), ts[|ts| - 1].Min()) then ts + [t]
    else InsertByMin(ts[..|ts| - 1], t) + [ts[|ts| - 1]]
  }

  lemma {:induction false} InsertByMinMembers(ts: seq<Table>, t: Table)
    requires t.run != [] && NonEmptyRuns(ts)
    ensures forall u :: u in InsertByMin(ts, t) <==> u == t || u in ts
  {
    if ts != [] && Less(t.Min(), ts[|ts| - 1].Min()) {
      InsertByMinMembers(ts[..|ts| - 1], t);
      assert ts == ts[..|ts| - 1] + [ts[|ts| - 1]];
    }
  }

  /** A table disjoint from every table of the level finds its place in it. */
  lemma {:induction false} InsertByMinOk(ts: seq<Table>, t: Table)
    requires LevelOk(ts) && t.Valid()
    requires forall u :: u in ts ==> Before(t, u) || Before(u, t)
    ensures LevelOk(InsertByMin(ts, t))
  {
    if ts == [] {
    } else {
      var n := |ts| - 1;
      var last := ts[n];
      assert ts == ts[..n] + [last];
      InsertByMinMembers(ts[..n], t);
      MinAtMostMax(t);
      MinAtMostMax(last);
      if Less(t.Min(), last.Min()) {
        assert Before(t, last) by {
          if Before(last, t) {
            LessChain(last.Min(), last.Max(), t.Min());
            LessAsymmetric(last.Min(), t.Min());
          }
        }
        InsertByMinOk(ts[..n], t);
        assert forall u :: u in InsertByMin(ts[..n], t) ==> Before(u, last);
      } else {
        assert Before(last, t) by {
          if Before(t, last) { LessChain(t.Min(), t.Max(), last.Min()); }
        }
        forall i | 0 <= i < n ensures Before(ts[i], t) {
          LessChain(last.Min(), last.Max(), t.Min());
          LessTransitive(ts[i].Max(), last.Min(), t.Min());
        }
      }
    }
  }

  lemma MinAtMostMax(t: Table)
    requires t.Valid()
    ensures t.Min() == t.Max() || Less(t.Min(), t.Max())
  {
  }

  lemma LessChain(a: Key, b: Key, c: Key)
    requires a == b || Less(a, b)
    requires Less(b, c)
    ensures Less(a, c)
  {
    if a != b { LessTransitive(a, b, c); }
  }
}

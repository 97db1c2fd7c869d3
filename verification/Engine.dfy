/** The storage engine as a state machine over its lock regions: writes, freezing, minor and major
    compaction, crashes and recovery (mirdb-server/src/data_manager.rs). */
module Engine {
  import opened Bytes
  import opened Runs
  import opened Tables
  import opened SstableReaders
  import opened Compaction

  /** Progress of the minor-compaction thread: how many frozen tables it set out to flush, how many it
      added to level 0, and how many log segments it dropped. */
  datatype Minor = Resting | Flushing(count: nat, added: nat, consumed: nat)

  /** `Redoing(added)` is the constructor running `redo`, before or after it added its tables. */
  datatype Phase = Running | Redoing(added: bool)

  datatype State = State(
    mem: Run,                   // mut_
    imm: seq<Run>,              // imm_, newest first
    levels: seq<seq<Table>>,    // readers_ and manifest
    wal: seq<seq<Entry>>,       // log segments, oldest first
    pending: Option<Entry>,     // appended to the log, not yet in mut_
    minor: Minor,
    job: Option<Plan>,          // the major compaction in flight
    nextFile: nat,
    phase: Phase)

  /** One lock region of one thread, or a crash. */
  datatype Step =
    | Log(entry: Entry)
    | Apply(freeze: bool)
    | MinorStart
    | FlushAdd
    | FlushConsume
    | Pop
    | MajorSnapshot(level: nat, last: Option<Key>, limit: nat)
    | MajorCommit
    | Crash
    | RedoAdd
    | RedoDelete
    | RedoDone

  function Added(s: State): nat {
    if s.minor.Flushing? then s.minor.added else 0
  }

  function Consumed(s: State): nat {
    if s.minor.Flushing? then s.minor.consumed else 0
  }

  function Init(maxLevel: nat): State {
    State([], [], seq(maxLevel, _ => []), [], None, Resting, None, 0, Running)
  }

  /** The lookup `get` performs under its read locks: mut_, imm_ front to back, then the levels. */
  function Get(s: State, k: Key): Option<Value> {
    if Find(s.mem, k).Some? then Find(s.mem, k)
    else if FindFirst(s.imm, k).Some? then FindFirst(s.imm, k)
    else LevelsFind(s.levels, 0, k)
  }

  /** The tables `redo` builds, one per segment. */
  function RedoTables(wal: seq<seq<Entry>>, first: nat): (ts: seq<Table>)
    ensures |ts| == |wal|
    ensures forall i :: 0 <= i < |wal| ==> ts[i] == Table(first + i, Replay(wal[i]))
  {
    seq(|wal|, i requires 0 <= i < |wal| => Table(first + i, Replay(wal[i])))
  }

  function NumBound(ts: seq<Table>): (n: nat)
    ensures forall t :: t in ts ==> t.num < n
  {
    if ts == [] then 0
    else
      var n := NumBound(ts[1..]);
      assert ts == [ts[0]] + ts[1..];
      if ts[0].num < n then n else ts[0].num + 1
  }

  /** `next_file_number` of the manifest. */
  function FileBound(levels: seq<seq<Table>>): (n: nat)
    ensures forall l, t :: 0 <= l < |levels| && t in levels[l] ==> t.num < n
  {
    if levels == [] then 0
    else
      var n, m := FileBound(levels[1..]), NumBound(levels[0]);
      assert forall l :: 0 < l < |levels| ==> levels[l] == levels[1..][l - 1];
      if m < n then n else m
  }

  /** The frozen table the minor compaction flushes next. */
  function NextFlush(s: State): Run
    requires Added(s) < |s.imm|
  {
    s.imm[|s.imm| - 1 - Added(s)]
  }

  ghost predicate Enabled(s: State, step: Step) {
    match step
    case Log(e) => s.phase.Running? && s.pending.None? && e.key != []
    case Apply(_) => s.phase.Running? && s.pending.Some?
    case MinorStart => s.phase.Running? && s.minor.Resting? && s.imm != []
    case FlushAdd =>
      && s.phase.Running? && s.minor.Flushing? && s.minor.added == s.minor.consumed < s.minor.count
      && s.minor.added < |s.imm| && s.levels != [] && NonEmptyRuns(s.levels[0])
    case FlushConsume => s.phase.Running? && s.minor.Flushing? && s.minor.added == s.minor.consumed + 1
    case Pop => s.phase.Running? && s.minor.Flushing? && s.minor.consumed == s.minor.count <= |s.imm|
    case MajorSnapshot(level, last, _) =>
      && s.phase.Running? && s.job.None? && level + 1 < |s.levels| && s.levels[level] != []
      && NonEmptyRuns(s.levels[level]) && NonEmptyRuns(s.levels[level + 1])
      && NonEmptyRuns(Inputs0(level, s.levels[level], last)) && Inputs0(level, s.levels[level], last) != []
    case MajorCommit =>
      && s.phase.Running? && s.job.Some? && s.job.value.level + 1 < |s.levels|
      && NonEmptyRuns(s.job.value.outputs) && NonEmptyRuns(s.levels[s.job.value.level + 1])
    case Crash => true
    case RedoAdd =>
      && s.phase == Redoing(false) && s.wal != [] && s.levels != []
      && NonEmptyRuns(RedoTables(s.wal, s.nextFile)) && NonEmptyRuns(s.levels[0])
    case RedoDelete => s.phase == Redoing(true) && s.wal != []
    case RedoDone => s.phase.Redoing? && s.wal == []
  }

  function Next(s: State, step: Step): State
    requires Enabled(s, step)
  {
    match step
    case Log(e) => s.(wal := LogAppend(s.wal, e), pending := Some(e))
    case Apply(freeze) =>
      var mem := Insert(s.mem, s.pending.value.key, s.pending.value.value);
      if freeze then s.(mem := [], imm := [mem] + s.imm, wal := s.wal + [[]], pending := None)
      else s.(mem := mem, pending := None)
    case MinorStart => s.(minor := Flushing(|s.imm|, 0, 0))
    case FlushAdd =>
      var levels := if NextFlush(s) == [] then s.levels else AddTable(s.levels, 0, Table(s.nextFile, NextFlush(s)));
      s.(levels := levels, nextFile := s.nextFile + 1, minor := s.minor.(added := s.minor.added + 1))
    case FlushConsume =>
      s.(wal := if s.wal == [] then [] else s.wal[1..], minor := s.minor.(consumed := s.minor.consumed + 1))
    case Pop => s.(imm := s.imm[..|s.imm| - s.minor.count], minor := Resting)
    case MajorSnapshot(level, last, limit) =>
      var p := MakePlan(s.levels, level, last, limit, s.nextFile);
      s.(job := Some(p), nextFile := s.nextFile + |p.outputs|)
    case MajorCommit => s.(levels := Commit(s.levels, s.job.value), job := None)
    case Crash =>
      State([], [], s.levels, NonEmptySegs(s.wal), None, Resting, None, FileBound(s.levels), Redoing(false))
    case RedoAdd =>
      s.(levels := AddTables(s.levels, 0, RedoTables(s.wal, s.nextFile)), nextFile := s.nextFile + |s.wal|,
          phase := Redoing(true))
    case RedoDelete => s.(wal := s.wal[1..])
    case RedoDone => s.(phase := Running)
  }

  // ---- the specification: two maps, computed from the steps alone ----

  /** `logged` holds every write appended to the log, `visible` those whose insert has finished. */
  datatype Spec = Spec(visible: map<Key, Value>, logged: map<Key, Value>)

  function SpecNext(p: Spec, step: Step): Spec {
    match step
    case Log(e) => p.(logged := p.logged[e.key := e.value])
    case Apply(_) => p.(visible := p.logged)
    case RedoDone => p.(visible := p.logged)
    case _ => p
  }

  function MapGet(m: map<Key, Value>, k: Key): Option<Value> {
    if k in m then Some(m[k]) else None
  }

  ghost predicate IsRun(maxLevel: nat, steps: seq<Step>)
    decreases |steps|, 0
  {
    steps == [] ||
    (IsRun(maxLevel, steps[..|steps| - 1]) && Enabled(After(maxLevel, steps[..|steps| - 1]), steps[|steps| - 1]))
  }

  ghost function After(maxLevel: nat, steps: seq<Step>): State
    requires IsRun(maxLevel, steps)
    decreases |steps|, 1
  {
    if steps == [] then Init(maxLevel) else Next(After(maxLevel, steps[..|steps| - 1]), steps[|steps| - 1])
  }

  ghost function SpecAfter(steps: seq<Step>): Spec {
    if steps == [] then Spec(map[], map[]) else SpecNext(SpecAfter(steps[..|steps| - 1]), steps[|steps| - 1])
  }

  // ---- the invariant ----

  ghost predicate MemOk(r: Run) {
    Sorted(r) && NonEmptyKeys(r)
  }

  ghost predicate SegOk(seg: seq<Entry>) {
    forall i :: 0 <= i < |seg| ==> seg[i].key != []
  }

  /** File numbers are unique over all levels and below the counter. */
  ghost predicate NumsOk(levels: seq<seq<Table>>, next: nat) {
    && (forall l, t :: 0 <= l < |levels| && t in levels[l] ==> t.num < next)
    && (forall l :: 0 <= l < |levels| ==> UniqueNums(levels[l]))
    && (forall l, m, t, u :: 0 <= l < |levels| && 0 <= m < |levels| && l != m && t in levels[l] && u in levels[m] ==>
          t.num != u.num)
  }

  ghost predicate JobOk(s: State) {
    s.job.Some? ==>
      && Fits(s.levels, s.job.value)
      && UniqueNums(s.job.value.outputs)
      && (forall o :: o in s.job.value.outputs ==> o.num < s.nextFile)
      && (forall o, l, t :: o in s.job.value.outputs && 0 <= l < |s.levels| && t in s.levels[l] ==> t.num != o.num)
  }

  ghost predicate Shape(s: State) {
    && s.levels != [] && LevelsOk(s.levels) && NumsOk(s.levels, s.nextFile) && JobOk(s)
    && MemOk(s.mem) && (forall i :: 0 <= i < |s.imm| ==> MemOk(s.imm[i]))
    && (forall i :: 0 <= i < |s.wal| ==> SegOk(s.wal[i]))
    && (s.minor.Flushing? ==>
          && s.minor.consumed <= s.minor.added <= s.minor.consumed + 1
          && s.minor.added <= s.minor.count <= |s.imm|)
  }

  /** What `flushed` holds is on disk: it hides nothing and popping it would show the same values. */
  ghost predicate Absorbed(flushed: seq<Run>, levels: seq<seq<Table>>) {
    forall k :: FindFirst(flushed, k).Some? ==> LevelsFind(levels, 0, k) == FindFirst(flushed, k)
  }

  /** mut_ as it will be once the write in flight has finished. */
  ghost function MemNow(s: State): Run {
    if s.pending.Some? then Insert(s.mem, s.pending.value.key, s.pending.value.value) else s.mem
  }

  /** Each log segment replays to the memtable it covers: the oldest segment to the oldest frozen
      table that is not flushed, the newest to mut_. */
  ghost predicate Paired(s: State) {
    var covered := |s.imm| - Consumed(s);
    if s.wal == [] then covered == 0 && s.mem == [] && s.pending.None?
    else
      && covered >= 0 && |s.wal| == covered + 1
      && Replay(s.wal[covered]) == MemNow(s)
      && forall i :: 0 <= i < covered ==> Replay(s.wal[i]) == s.imm[covered - 1 - i]
  }

  /** The replayed segments, newest first. */
  function Replayed(wal: seq<seq<Entry>>): (rs: seq<Run>)
    ensures |rs| == |wal|
    ensures forall i :: 0 <= i < |wal| ==> rs[i] == Replay(wal[|wal| - 1 - i])
  {
    seq(|wal|, i requires 0 <= i < |wal| => Replay(wal[|wal| - 1 - i]))
  }

  /** What survives a crash: the log over the levels. */
  function Durable(s: State, k: Key): Option<Value> {
    if FindFirst(Replayed(s.wal), k).Some? then FindFirst(Replayed(s.wal), k) else LevelsFind(s.levels, 0, k)
  }

  ghost predicate Serves(s: State, m: map<Key, Value>) {
    forall k :: Get(s, k) == MapGet(m, k)
  }

  ghost predicate Survives(s: State, m: map<Key, Value>) {
    forall k :: Durable(s, k) == MapGet(m, k)
  }

  ghost predicate Inv(s: State, p: Spec) {
    && Shape(s)
    && Survives(s, p.logged)
    && (s.phase.Running? ==>
          && Serves(s, p.visible)
          && Absorbed(s.imm[|s.imm| - Added(s)..], s.levels)
          && Paired(s)
          && (s.pending.None? ==> p.logged == p.visible)
          && (s.pending.Some? ==>
                p.logged == p.visible[s.pending.value.key := s.pending.value.value] && s.pending.value.key != []))
    && (s.phase.Redoing? ==>
          && s.mem == [] && s.imm == [] && s.pending.None? && s.minor.Resting? && s.job.None?
          && (forall i :: 0 <= i < |s.wal| ==> s.wal[i] != [])
          && (s.phase.added ==> Absorbed(Replayed(s.wal), s.levels)))
  }

  // ---- lookups through the layers ----

  lemma ReplayPush(seg: seq<Entry>, e: Entry)
    ensures Replay(seg + [e]) == Insert(Replay(seg), e.key, e.value)
  {
    assert (seg + [e])[..|seg|] == seg;
  }

  lemma InsertMemOk(r: Run, k: Key, v: Value)
    requires MemOk(r) && k != []
    ensures MemOk(Insert(r, k, v)) && Insert(r, k, v) != []
  {
    hide Less, LowerBound;
    InsertSorted(r, k, v);
  }

  lemma {:induction false} ReplayOk(seg: seq<Entry>)
    requires SegOk(seg)
    ensures MemOk(Replay(seg)) && (seg != [] ==> Replay(seg) != [])
  {
    hide Less, LowerBound, Insert;
    if seg != [] {
      var front, e := seg[..|seg| - 1], seg[|seg| - 1];
      ReplayOk(front);
      assert seg == front + [e];
      ReplayPush(front, e);
      InsertMemOk(Replay(front), e.key, e.value);
    }
  }

  lemma FindFirstSplit(runs: seq<Run>, at: nat, k: Key)
    requires at <= |runs|
    ensures FindFirst(runs, k) ==
            if FindFirst(runs[..at], k).Some? then FindFirst(runs[..at], k) else FindFirst(runs[at..], k)
  {
    assert runs == runs[..at] + runs[at..];
    FindFirstConcat(runs[..at], runs[at..], k);
  }

  lemma FindFirstPush(r: Run, runs: seq<Run>, k: Key)
    ensures FindFirst([r] + runs, k) == if Find(r, k).Some? then Find(r, k) else FindFirst(runs, k)
  {
    assert ([r] + runs)[1..] == runs;
  }

  /** A table pushed on level 0 is in front of everything on disk. */
  lemma PushLevel0Find(levels: seq<seq<Table>>, t: Table, k: Key)
    requires levels != []
    ensures LevelsFind(levels[0 := levels[0] + [t]], 0, k) ==
            if Find(t.run, k).Some? then Find(t.run, k) else LevelsFind(levels, 0, k)
  {
    hide Find;
    var grown := levels[0 := levels[0] + [t]];
    LevelsFindSuffix(grown, levels, 1, k);
    assert Reverse(levels[0] + [t]) == [t] + Reverse(levels[0]);
    TablesFindConcat([t], Reverse(levels[0]), k);
    TablesFindOne(t, k);
  }

  lemma PushLevel0Ok(levels: seq<seq<Table>>, next: nat, t: Table)
    requires levels != [] && LevelsOk(levels) && NumsOk(levels, next) && t.Valid() && t.num == next
    ensures LevelsOk(levels[0 := levels[0] + [t]]) && NumsOk(levels[0 := levels[0] + [t]], next + 1)
  {
    hide LevelsOk, NumsOk;
    PushLevel0Levels(levels, t);
    PushLevel0Nums(levels, next, t);
  }

  lemma PushLevel0Levels(levels: seq<seq<Table>>, t: Table)
    requires levels != [] && LevelsOk(levels) && t.Valid()
    ensures LevelsOk(levels[0 := levels[0] + [t]])
  {
    hide LevelOk;
    var grown := levels[0 := levels[0] + [t]];
    assert forall l :: 0 < l < |levels| ==> grown[l] == levels[l];
  }

  lemma PushLevel0Nums(levels: seq<seq<Table>>, next: nat, t: Table)
    requires levels != [] && NumsOk(levels, next) && t.num == next
    ensures NumsOk(levels[0 := levels[0] + [t]], next + 1)
  {
    hide UniqueNums;
    var grown := levels[0 := levels[0] + [t]];
    forall l, u: Table | 0 <= l < |grown| && u in grown[l] ensures u.num < next + 1 { GrownMember(levels, t, l, u); }
    forall l, m, u: Table, v: Table | 0 <= l < |grown| && 0 <= m < |grown| && l != m && u in grown[l] && v in grown[m]
      ensures u.num != v.num
    {
      GrownMember(levels, t, l, u);
      GrownMember(levels, t, m, v);
    }
    UniquePush(levels[0], t);
  }

  lemma GrownMember(levels: seq<seq<Table>>, t: Table, l: nat, u: Table)
    requires levels != [] && l < |levels| && u in levels[0 := levels[0] + [t]][l]
    ensures u in levels[l] || (l == 0 && u == t)
  {
  }

  lemma UniquePush(ts: seq<Table>, t: Table)
    requires UniqueNums(ts) && forall u :: u in ts ==> u.num < t.num
    ensures UniqueNums(ts + [t])
  {
    assert forall i :: 0 <= i < |ts| ==> ts[i] in ts;
  }

  // ---- every step keeps the invariant ----

  lemma InitShape(maxLevel: nat)
    requires maxLevel > 0
    ensures Shape(Init(maxLevel)) && Paired(Init(maxLevel))
  {
    hide MemOk, SegOk;
    EmptyOk();
  }

  lemma InitInv(maxLevel: nat)
    requires maxLevel > 0
    ensures Inv(Init(maxLevel), Spec(map[], map[]))
  {
    hide Get, Durable, LevelsFind, Shape, Paired, Absorbed;
    var s := Init(maxLevel);
    InitShape(maxLevel);
    forall k ensures Get(s, k) == None && Durable(s, k) == None {
      EmptyLevelsFind(s.levels, 0, k);
      RedoDoneFind(s, k);
    }
    NothingAbsorbed(s.levels);
    assert s.imm[|s.imm| - Added(s)..] == [];
  }

  lemma {:induction false} EmptyLevelsFind(levels: seq<seq<Table>>, from: nat, k: Key)
    requires from <= |levels| && forall l :: 0 <= l < |levels| ==> levels[l] == []
    ensures LevelsFind(levels, from, k) == None
    decreases |levels| - from
  {
    if from < |levels| {
      EmptyLevelsFind(levels, from + 1, k);
      TablesFindNone(SearchOrder(from, []), k);
    }
  }

  /** With segments and memtables paired, the durable lookup is the live one over the write in flight. */
  lemma DurableIsLive(s: State, k: Key)
    requires Shape(s) && s.phase.Running? && Paired(s) && Absorbed(s.imm[|s.imm| - Added(s)..], s.levels)
    requires s.pending.Some? ==> s.pending.value.key != []
    ensures Durable(s, k) ==
            if s.pending.Some? && s.pending.value.key == k then Some(s.pending.value.value) else Get(s, k)
  {
    hide Less, LowerBound, Find, Insert, Replay, LevelsFind;
    var n, c, a := |s.imm|, Consumed(s), Added(s);
    if s.pending.Some? { InsertFind(s.mem, s.pending.value.key, s.pending.value.value, k); }
    if s.wal != [] {
      assert Replayed(s.wal) == [MemNow(s)] + s.imm[..n - c];
      FindFirstPush(MemNow(s), s.imm[..n - c], k);
    } else {
      assert Replayed(s.wal) == [] && s.imm[..n - c] == [];
      FindEmpty(k);
    }
    FindFirstSplit(s.imm, n - c, k);
    AbsorbedTail(s, k);
  }

  /** A value found only in flushed tables is what the levels hold. */
  lemma AbsorbedTail(s: State, k: Key)
    requires Shape(s) && Absorbed(s.imm[|s.imm| - Added(s)..], s.levels)
    requires Consumed(s) <= |s.imm|
    ensures FindFirst(s.imm[..|s.imm| - Consumed(s)], k).None? && FindFirst(s.imm[|s.imm| - Consumed(s)..], k).Some? ==>
              LevelsFind(s.levels, 0, k) == FindFirst(s.imm[|s.imm| - Consumed(s)..], k)
  {
    hide Find, LevelsFind;
    var n, c, a := |s.imm|, Consumed(s), Added(s);
    if a == c + 1 {
      assert s.imm[n - a..] == [s.imm[n - a]] + s.imm[n - c..];
      FindFirstPush(s.imm[n - a], s.imm[n - c..], k);
      FindFirstNone(s.imm[..n - c], k);
      assert s.imm[..n - c][n - a] == s.imm[n - a];
    }
  }

  lemma SurvivesFromLive(s: State, p: Spec)
    requires Shape(s) && s.phase.Running? && Paired(s) && Absorbed(s.imm[|s.imm| - Added(s)..], s.levels)
    requires Serves(s, p.visible)
    requires s.pending.None? ==> p.logged == p.visible
    requires s.pending.Some? ==>
               p.logged == p.visible[s.pending.value.key := s.pending.value.value] && s.pending.value.key != []
    ensures Survives(s, p.logged)
  {
    hide Find, LevelsFind, Durable, Get;
    forall k ensures Durable(s, k) == MapGet(p.logged, k) {
      DurableIsLive(s, k);
      assert Get(s, k) == MapGet(p.visible, k);
    }
  }

  lemma LogPaired(s: State, e: Entry)
    requires Shape(s) && Paired(s) && s.pending.None? && s.phase.Running? && e.key != []
    ensures var t := s.(wal := LogAppend(s.wal, e), pending := Some(e));
            Paired(t) && Shape(t)
  {
    hide Replay, Insert, LevelsOk, NumsOk, Fits, UniqueNums, MemOk;
    if s.wal == [] {
      ReplayPush([], e);
      assert [e] == [] + [e];
      ReplayEmpty();
    } else {
      ReplayPush(s.wal[|s.wal| - 1], e);
    }
  }

  lemma LogInv(s: State, p: Spec, e: Entry)
    requires Inv(s, p) && Enabled(s, Log(e))
    ensures Inv(Next(s, Log(e)), SpecNext(p, Log(e)))
  {
    hide Find, LevelsFind, FindFirst, Shape, Paired, LogAppend;
    var t := Next(s, Log(e));
    LogPaired(s, e);
    forall k ensures Get(t, k) == MapGet(p.visible, k) { assert Get(s, k) == MapGet(p.visible, k); }
    SurvivesFromLive(t, SpecNext(p, Log(e)));
  }

  lemma ReplayEmpty()
    ensures Replay([]) == []
  {
  }

  lemma ApplyPaired(s: State, freeze: bool)
    requires Shape(s) && Paired(s) && Enabled(s, Apply(freeze)) && s.pending.value.key != []
    ensures Paired(Next(s, Apply(freeze))) && Shape(Next(s, Apply(freeze)))
  {
    hide Replay, Insert, LevelsOk, NumsOk, Fits, UniqueNums, MemOk, SegOk;
    InsertMemOk(s.mem, s.pending.value.key, s.pending.value.value);
    ReplayEmpty();
    EmptyOk();
  }

  lemma EmptyOk()
    ensures MemOk([]) && SegOk([])
  {
  }

  lemma ApplyInv(s: State, p: Spec, freeze: bool)
    requires Inv(s, p) && Enabled(s, Apply(freeze))
    ensures Inv(Next(s, Apply(freeze)), SpecNext(p, Apply(freeze)))
  {
    hide Less, LowerBound, Find, Insert, LevelsFind, FindFirst, Shape, Paired;
    var e := s.pending.value;
    var mem := Insert(s.mem, e.key, e.value);
    var t, q := Next(s, Apply(freeze)), SpecNext(p, Apply(freeze));
    ApplyPaired(s, freeze);
    ShapeMem(s);
    forall k ensures Get(t, k) == MapGet(q.visible, k) {
      InsertFind(s.mem, e.key, e.value, k);
      FindFirstPush(mem, s.imm, k);
      FindEmpty(k);
      assert Get(s, k) == MapGet(p.visible, k);
    }
    assert t.imm[|t.imm| - Added(t)..] == s.imm[|s.imm| - Added(s)..];
    SurvivesFromLive(t, q);
  }

  lemma ShapeMem(s: State)
    requires Shape(s)
    ensures Sorted(s.mem) && Added(s) <= |s.imm|
  {
  }

  lemma FindEmpty(k: Key)
    ensures Find([], k) == None && FindFirst([], k) == None
  {
  }

  lemma MinorStartShape(s: State)
    requires Shape(s) && Paired(s) && Enabled(s, MinorStart)
    ensures Paired(Next(s, MinorStart)) && Shape(Next(s, MinorStart))
  {
    hide Replay, Insert, LevelsOk, NumsOk, Fits, UniqueNums, MemOk, SegOk;
  }

  lemma MinorStartInv(s: State, p: Spec)
    requires Inv(s, p) && Enabled(s, MinorStart)
    ensures Inv(Next(s, MinorStart), p)
  {
    hide Find, LevelsFind, FindFirst, Shape, Paired;
    var t := Next(s, MinorStart);
    MinorStartShape(s);
    assert t.imm[|t.imm| - Added(t)..] == s.imm[|s.imm| - Added(s)..];
    forall k ensures Get(t, k) == MapGet(p.visible, k) { assert Get(s, k) == MapGet(p.visible, k); }
    SurvivesFromLive(t, p);
  }

  lemma FlushAddPaired(s: State)
    requires Shape(s) && Paired(s) && Enabled(s, FlushAdd)
    ensures Paired(Next(s, FlushAdd))
  {
    hide Replay, Insert, LevelsOk, NumsOk, Fits, UniqueNums, MemOk, SegOk;
  }

  /** Each newly flushed table is absorbed: the levels hold what it holds. */
  lemma FlushAddAbsorbed(s: State)
    requires Shape(s) && Enabled(s, FlushAdd) && Absorbed(s.imm[|s.imm| - Added(s)..], s.levels)
    ensures var t := Next(s, FlushAdd);
            Added(t) <= |t.imm| && Absorbed(t.imm[|t.imm| - Added(t)..], t.levels)
  {
    hide Find, LevelsFind, FindFirst, LevelsOk, NumsOk, JobOk, MemOk, SegOk;
    var t := Next(s, FlushAdd);
    var run, n, a := NextFlush(s), |s.imm|, Added(s);
    assert t.imm[n - a - 1..] == [run] + s.imm[n - a..];
    forall k ensures FindFirst(t.imm[n - a - 1..], k).Some? ==>
        LevelsFind(t.levels, 0, k) == FindFirst(t.imm[n - a - 1..], k) {
      FlushAddFind(s, k);
      FindFirstPush(run, s.imm[n - a..], k);
    }
  }

  lemma FlushAddGet(s: State, k: Key)
    requires Shape(s) && Enabled(s, FlushAdd)
    ensures Get(Next(s, FlushAdd), k) == Get(s, k)
  {
    hide Find, LevelsFind, FindFirst, LevelsOk, NumsOk, JobOk, MemOk, SegOk;
    FlushAddFind(s, k);
    FindFirstNone(s.imm, k);
    assert NextFlush(s) == s.imm[|s.imm| - 1 - Added(s)];
  }

  lemma FlushAddInv(s: State, p: Spec)
    requires Inv(s, p) && Enabled(s, FlushAdd)
    ensures Inv(Next(s, FlushAdd), p)
  {
    hide Get, Shape, Paired, Absorbed, AddTable, NonEmptyRuns;
    var t := Next(s, FlushAdd);
    FlushAddShape(s);
    FlushAddPaired(s);
    FlushAddAbsorbed(s);
    forall k ensures Get(t, k) == MapGet(p.visible, k) {
      FlushAddGet(s, k);
      assert Get(s, k) == MapGet(p.visible, k);
    }
    SurvivesFromLive(t, p);
  }

  lemma FlushAddFind(s: State, k: Key)
    requires Shape(s) && Enabled(s, FlushAdd)
    ensures LevelsFind(Next(s, FlushAdd).levels, 0, k) ==
            if Find(NextFlush(s), k).Some? then Find(NextFlush(s), k) else LevelsFind(s.levels, 0, k)
  {
    hide Find, LevelsFind;
    if NextFlush(s) == [] { FindEmpty(k); } else { PushLevel0Find(s.levels, Table(s.nextFile, NextFlush(s)), k); }
  }

  lemma FlushAddShape(s: State)
    requires Shape(s) && Enabled(s, FlushAdd)
    ensures Shape(Next(s, FlushAdd))
  {
    hide Less, Find, LevelsFind, FindFirst, Replay, Insert, Fits, LevelsOk, NumsOk, JobOk;
    var run := NextFlush(s);
    var t := Table(s.nextFile, run);
    if run != [] { PushLevel0Ok(s.levels, s.nextFile, t); }
    FlushAddJob(s);
    NumsOkMore(s.levels, s.nextFile);
  }

  lemma NumsOkMore(levels: seq<seq<Table>>, next: nat)
    requires NumsOk(levels, next)
    ensures NumsOk(levels, next + 1)
  {
  }

  lemma FlushAddJob(s: State)
    requires Shape(s) && Enabled(s, FlushAdd)
    ensures JobOk(Next(s, FlushAdd))
  {
    hide Less, Fits, LevelsOk;
    if s.job.Some? && NextFlush(s) != [] {
      assert forall i :: 0 <= i < |s.levels[0]| ==> s.levels[0][i] in s.levels[0];
      FitsGrownLevel0(s.levels, s.job.value, Table(s.nextFile, NextFlush(s)));
    }
  }

  lemma FlushConsumeShape(s: State)
    requires Shape(s) && Paired(s) && Enabled(s, FlushConsume)
    ensures Paired(Next(s, FlushConsume)) && Shape(Next(s, FlushConsume))
  {
    hide Replay, Insert, LevelsOk, NumsOk, Fits, UniqueNums, MemOk, SegOk;
  }

  lemma FlushConsumeInv(s: State, p: Spec)
    requires Inv(s, p) && Enabled(s, FlushConsume)
    ensures Inv(Next(s, FlushConsume), p)
  {
    hide Find, LevelsFind, FindFirst, Shape, Paired;
    var t := Next(s, FlushConsume);
    FlushConsumeShape(s);
    ShapeMem(s);
    assert t.imm[|t.imm| - Added(t)..] == s.imm[|s.imm| - Added(s)..];
    forall k ensures Get(t, k) == MapGet(p.visible, k) { assert Get(s, k) == MapGet(p.visible, k); }
    SurvivesFromLive(t, p);
  }

  /** Popping flushed tables changes no lookup. */
  lemma PopFind(s: State, k: Key)
    requires Shape(s) && Enabled(s, Pop) && Absorbed(s.imm[|s.imm| - Added(s)..], s.levels)
    ensures Get(Next(s, Pop), k) == Get(s, k)
  {
    hide Find, LevelsFind;
    FindFirstSplit(s.imm, |s.imm| - s.minor.count, k);
  }

  lemma PopPaired(s: State)
    requires Shape(s) && Paired(s) && Enabled(s, Pop)
    ensures Paired(Next(s, Pop)) && Shape(Next(s, Pop))
  {
    hide Replay, Insert, LevelsOk, NumsOk, Fits, UniqueNums, MemOk, SegOk;
  }

  lemma PopInv(s: State, p: Spec)
    requires Inv(s, p) && Enabled(s, Pop)
    ensures Inv(Next(s, Pop), p)
  {
    hide Find, LevelsFind, FindFirst, Shape, Paired;
    var t := Next(s, Pop);
    PopPaired(s);
    forall k ensures Get(t, k) == MapGet(p.visible, k) {
      PopFind(s, k);
      assert Get(s, k) == MapGet(p.visible, k);
    }
    assert t.imm[|t.imm| - Added(t)..] == [];
    ShapeLevels(s);
    NothingAbsorbed(t.levels);
    SurvivesFromLive(t, p);
  }

  lemma SnapshotInv(s: State, p: Spec, level: nat, last: Option<Key>, limit: nat)
    requires Inv(s, p) && Enabled(s, MajorSnapshot(level, last, limit))
    ensures Inv(Next(s, MajorSnapshot(level, last, limit)), p)
  {
    hide Inv, MakePlan, Inputs0, JobOk, NumsOk;
    InvIsShaped(s, p);
    SnapshotJobOk(s, level, last, limit);
    JobChange(s, Next(s, MajorSnapshot(level, last, limit)), p);
  }

  lemma InvIsShaped(s: State, p: Spec)
    requires Inv(s, p)
    ensures Shape(s)
  {
  }

  /** Lookups and the log do not depend on the compaction in flight. */
  lemma JobChange(s: State, t: State, p: Spec)
    requires Inv(s, p) && s.phase.Running? && t == s.(job := t.job, nextFile := t.nextFile)
    requires JobOk(t) && NumsOk(t.levels, t.nextFile)
    ensures Inv(t, p)
  {
    hide Find, LevelsFind, FindFirst, Replay, Insert, LevelsOk, NumsOk, JobOk;
    forall k ensures Get(t, k) == MapGet(p.visible, k) { assert Get(s, k) == MapGet(p.visible, k); }
    forall k ensures Durable(t, k) == MapGet(p.logged, k) { assert Durable(s, k) == MapGet(p.logged, k); }
  }

  lemma SnapshotJobOk(s: State, level: nat, last: Option<Key>, limit: nat)
    requires Shape(s) && Enabled(s, MajorSnapshot(level, last, limit))
    ensures JobOk(Next(s, MajorSnapshot(level, last, limit)))
    ensures NumsOk(s.levels, Next(s, MajorSnapshot(level, last, limit)).nextFile)
  {
    hide Less, Fits, LevelsOk, MakePlan, Inputs0;
    PlanFits(s.levels, level, last, limit, s.nextFile);
  }

  lemma CommitPaired(s: State)
    requires Paired(s) && Enabled(s, MajorCommit)
    ensures Paired(Next(s, MajorCommit))
  {
    hide Replay, Insert, Commit, NonEmptyRuns;
  }

  lemma CommitInv(s: State, p: Spec)
    requires Inv(s, p) && Enabled(s, MajorCommit)
    ensures Inv(Next(s, MajorCommit), p)
  {
    hide Find, LevelsFind, FindFirst, Shape, Paired, Commit, NonEmptyRuns;
    var t := Next(s, MajorCommit);
    CommitShape(s);
    CommitPaired(s);
    ShapeMem(s);
    ShapeJob(s);
    assert t.imm[|t.imm| - Added(t)..] == s.imm[|s.imm| - Added(s)..];
    forall k ensures LevelsFind(t.levels, 0, k) == LevelsFind(s.levels, 0, k) {
      CommitPreservesLookups(s.levels, s.job.value, k);
    }
    forall k ensures Get(t, k) == MapGet(p.visible, k) { assert Get(s, k) == MapGet(p.visible, k); }
    SurvivesFromLive(t, p);
  }

  lemma ShapeJob(s: State)
    requires Shape(s) && s.job.Some?
    ensures Fits(s.levels, s.job.value)
  {
    hide Fits;
  }

  lemma CommitShape(s: State)
    requires Shape(s) && Enabled(s, MajorCommit)
    ensures Shape(Next(s, MajorCommit))
  {
    hide Less, Find, LevelsFind, FindFirst, Replay, Insert, Commit, Fits, LevelsOk, NumsOk;
    CommitKeepsLevels(s.levels, s.job.value);
    CommitNums(s.levels, s.job.value, s.nextFile);
    TargetLevel(s.levels, s.job.value);
  }

  /** Where a table after a commit comes from. */
  lemma CommitMember(levels: seq<seq<Table>>, p: Plan, l: nat, t: Table)
    requires Fits(levels, p) && l < |levels|
    ensures |Commit(levels, p)| == |levels|
    ensures t in Commit(levels, p)[l] ==> t in levels[l] || (l == p.level + 1 && t in p.outputs)
  {
    hide Less, Commit, Retain;
    TargetLevel(levels, p);
    RetainMembers(levels[p.level], Nums(p.inputs0));
  }

  lemma CommitNums(levels: seq<seq<Table>>, p: Plan, next: nat)
    requires Fits(levels, p) && NumsOk(levels, next) && UniqueNums(p.outputs)
    requires forall o :: o in p.outputs ==> o.num < next
    requires forall o, l, t :: o in p.outputs && 0 <= l < |levels| && t in levels[l] ==> t.num != o.num
    ensures NumsOk(Commit(levels, p), next)
  {
    hide Less, Commit, MergeRuns, Concat, RangeMin, RangeMax, LevelOk, Overlaps, UniqueNums, RunsOf, Reverse;
    CommitMember(levels, p, 0, Table(0, []));
    var now := Commit(levels, p);
    forall l | 0 <= l < |now| ensures UniqueNums(now[l]) {
      CommitUnique(levels, p, l);
    }
    forall l, t: Table | 0 <= l < |now| && t in now[l] ensures t.num < next {
      CommitMember(levels, p, l, t);
    }
    forall l, m, t: Table, u: Table | 0 <= l < |now| && 0 <= m < |now| && l != m && t in now[l] && u in now[m]
      ensures t.num != u.num
    {
      CommitMember(levels, p, l, t);
      CommitMember(levels, p, m, u);
    }
  }

  lemma CommitUnique(levels: seq<seq<Table>>, p: Plan, l: nat)
    requires Fits(levels, p) && l < |levels| && UniqueNums(p.outputs)
    requires forall m :: 0 <= m < |levels| ==> UniqueNums(levels[m])
    requires forall o, t :: o in p.outputs && t in levels[p.level + 1] ==> t.num != o.num
    ensures |Commit(levels, p)| == |levels| && UniqueNums(Commit(levels, p)[l])
  {
    hide Less, Commit, Retain;
    TargetLevel(levels, p);
    var ts := Commit(levels, p)[l];
    if l == p.level {
      RetainUnique(levels[l], Nums(p.inputs0));
    } else if l == p.level + 1 {
      forall i, j | 0 <= i < j < |ts| ensures ts[i].num != ts[j].num {
        MinAtMostMax(ts[i]);
        assert Before(ts[i], ts[j]);
        LessIrreflexive(ts[i].Max());
        LessChain(ts[i].Min(), ts[i].Max(), ts[j].Min());
        LessIrreflexive(ts[i].Min());
        assert ts[i] != ts[j];
        assert ts[i] in ts && ts[j] in ts;
        UniqueMembers(levels[l], ts[i], ts[j]);
        UniqueMembers(p.outputs, ts[i], ts[j]);
      }
    }
  }

  lemma UniqueMembers(ts: seq<Table>, t: Table, u: Table)
    requires UniqueNums(ts) && t != u
    ensures t in ts && u in ts ==> t.num != u.num
  {
  }

  lemma {:induction false} RetainUnique(ts: seq<Table>, nums: set<nat>)
    requires UniqueNums(ts)
    ensures UniqueNums(Retain(ts, nums))
  {
    if ts != [] {
      var n := |ts| - 1;
      RetainUnique(ts[..n], nums);
      RetainMembers(ts[..n], nums);
      var front := Retain(ts[..n], nums);
      forall i | 0 <= i < |front| ensures front[i].num != ts[n].num {
        assert front[i] in ts[..n];
      }
    }
  }

  // ---- crash and recovery ----

  lemma {:induction false} ReplayedFind(wal: seq<seq<Entry>>, k: Key)
    ensures FindFirst(Replayed(NonEmptySegs(wal)), k) == FindFirst(Replayed(wal), k)
  {
    hide Find, Replay;
    if wal != [] {
      var front, seg := wal[..|wal| - 1], wal[|wal| - 1];
      ReplayedFind(front, k);
      assert wal == front + [seg];
      assert Replayed(wal) == [Replay(seg)] + Replayed(front);
      FindFirstPush(Replay(seg), Replayed(front), k);
      if seg == [] {
        ReplayEmpty();
        FindEmpty(k);
        assert NonEmptySegs(wal) == NonEmptySegs(front);
      } else {
        assert Replayed(NonEmptySegs(front) + [seg]) == [Replay(seg)] + Replayed(NonEmptySegs(front));
        FindFirstPush(Replay(seg), Replayed(NonEmptySegs(front)), k);
      }
    }
  }

  lemma {:induction false} NonEmptySegsOk(wal: seq<seq<Entry>>)
    requires forall i :: 0 <= i < |wal| ==> SegOk(wal[i])
    ensures forall i :: 0 <= i < |NonEmptySegs(wal)| ==> SegOk(NonEmptySegs(wal)[i]) && NonEmptySegs(wal)[i] != []
  {
    if wal != [] { NonEmptySegsOk(wal[..|wal| - 1]); }
  }

  lemma CrashShape(s: State)
    requires Shape(s)
    ensures Shape(Next(s, Crash)) && forall i :: 0 <= i < |NonEmptySegs(s.wal)| ==> NonEmptySegs(s.wal)[i] != []
  {
    hide LevelsOk, Fits, NonEmptySegs, FileBound, UniqueNums, SegOk;
    NonEmptySegsOk(s.wal);
    EmptyOk();
  }

  lemma CrashInv(s: State, p: Spec)
    requires Inv(s, p)
    ensures Inv(Next(s, Crash), p)
  {
    hide Find, LevelsFind, FindFirst, Shape, Paired, NonEmptySegs, FileBound, Replayed;
    var t := Next(s, Crash);
    CrashShape(s);
    forall k ensures Durable(t, k) == MapGet(p.logged, k) {
      ReplayedFind(s.wal, k);
      assert Durable(s, k) == MapGet(p.logged, k);
    }
  }

  lemma {:induction false} AddLevel0(levels: seq<seq<Table>>, ts: seq<Table>)
    requires levels != [] && NonEmptyRuns(ts) && NonEmptyRuns(levels[0])
    ensures AddTables(levels, 0, ts) == levels[0 := levels[0] + ts]
  {
    if ts != [] {
      var front := ts[..|ts| - 1];
      AddLevel0(levels, front);
      assert levels[0] + ts == levels[0] + front + [ts[|ts| - 1]];
    } else {
      assert levels[0] + ts == levels[0];
    }
  }

  lemma {:induction false} RedoFind(levels: seq<seq<Table>>, wal: seq<seq<Entry>>, first: nat, k: Key)
    requires levels != []
    ensures LevelsFind(levels[0 := levels[0] + RedoTables(wal, first)], 0, k) ==
            if FindFirst(Replayed(wal), k).Some? then FindFirst(Replayed(wal), k) else LevelsFind(levels, 0, k)
  {
    hide Find, Replay, LevelsFind;
    if wal == [] {
      assert levels[0] + RedoTables(wal, first) == levels[0];
      assert levels[0 := levels[0]] == levels;
    } else {
      var front, seg := wal[..|wal| - 1], wal[|wal| - 1];
      RedoFind(levels, front, first, k);
      var mid := levels[0 := levels[0] + RedoTables(front, first)];
      var t := Table(first + |front|, Replay(seg));
      assert RedoTables(wal, first) == RedoTables(front, first) + [t];
      assert levels[0] + RedoTables(wal, first) == mid[0] + [t];
      assert levels[0 := levels[0] + RedoTables(wal, first)] == mid[0 := mid[0] + [t]];
      PushLevel0Find(mid, t, k);
      assert Replayed(wal) == [Replay(seg)] + Replayed(front);
      FindFirstPush(Replay(seg), Replayed(front), k);
    }
  }

  lemma {:induction false} RedoShape(levels: seq<seq<Table>>, next: nat, wal: seq<seq<Entry>>)
    requires levels != [] && LevelsOk(levels) && NumsOk(levels, next)
    requires forall i :: 0 <= i < |wal| ==> SegOk(wal[i]) && wal[i] != []
    ensures LevelsOk(levels[0 := levels[0] + RedoTables(wal, next)])
    ensures NumsOk(levels[0 := levels[0] + RedoTables(wal, next)], next + |wal|)
  {
    hide Less, Find, Replay, LevelsOk, NumsOk;
    if wal == [] {
      assert levels[0] + RedoTables(wal, next) == levels[0];
      assert levels[0 := levels[0]] == levels;
    } else {
      var front, seg := wal[..|wal| - 1], wal[|wal| - 1];
      RedoShape(levels, next, front);
      var mid := levels[0 := levels[0] + RedoTables(front, next)];
      var t := Table(next + |front|, Replay(seg));
      ReplayOk(seg);
      assert RedoTables(wal, next) == RedoTables(front, next) + [t];
      assert levels[0] + RedoTables(wal, next) == mid[0] + [t];
      assert levels[0 := levels[0] + RedoTables(wal, next)] == mid[0 := mid[0] + [t]];
      PushLevel0Ok(mid, next + |front|, t);
    }
  }

  lemma RedoAddShape(s: State, p: Spec)
    requires Inv(s, p) && Enabled(s, RedoAdd)
    ensures Next(s, RedoAdd).levels == s.levels[0 := s.levels[0] + RedoTables(s.wal, s.nextFile)]
    ensures Shape(Next(s, RedoAdd))
  {
    hide Replay, LevelsOk, NumsOk, AddTables, MemOk, SegOk, Serves, Survives, Absorbed, Paired;
    AddLevel0(s.levels, RedoTables(s.wal, s.nextFile));
    RedoShape(s.levels, s.nextFile, s.wal);
  }

  lemma RedoAddInv(s: State, p: Spec)
    requires Inv(s, p) && Enabled(s, RedoAdd)
    ensures Inv(Next(s, RedoAdd), p)
  {
    hide Find, LevelsFind, FindFirst, Shape, Paired, AddTables, Replayed, RedoTables, NonEmptyRuns;
    var t := Next(s, RedoAdd);
    RedoAddShape(s, p);
    ShapeLevels(s);
    forall k ensures LevelsFind(t.levels, 0, k) == MapGet(p.logged, k) &&
                     (FindFirst(Replayed(t.wal), k).Some? ==>
                         LevelsFind(t.levels, 0, k) == FindFirst(Replayed(t.wal), k))
    {
      RedoFind(s.levels, s.wal, s.nextFile, k);
      assert Durable(s, k) == MapGet(p.logged, k);
    }
  }

  lemma ShapeLevels(s: State)
    requires Shape(s)
    ensures s.levels != []
  {
  }

  lemma RedoDeleteShape(s: State)
    requires Shape(s) && Enabled(s, RedoDelete)
    ensures Shape(Next(s, RedoDelete))
  {
    hide Replay, Insert, LevelsOk, NumsOk, Fits, UniqueNums, MemOk, SegOk;
  }

  lemma RedoDeleteInv(s: State, p: Spec)
    requires Inv(s, p) && Enabled(s, RedoDelete)
    ensures Inv(Next(s, RedoDelete), p)
  {
    hide Find, LevelsFind, FindFirst, Shape, Paired;
    var t := Next(s, RedoDelete);
    RedoDeleteShape(s);
    assert Replayed(t.wal) == Replayed(s.wal)[..|t.wal|];
    forall k ensures Durable(t, k) == MapGet(p.logged, k) &&
                     (FindFirst(Replayed(t.wal), k).Some? ==>
                         LevelsFind(t.levels, 0, k) == FindFirst(Replayed(t.wal), k))
    {
      FindFirstSplit(Replayed(s.wal), |t.wal|, k);
      assert Durable(s, k) == MapGet(p.logged, k);
    }
  }

  lemma RedoDoneShape(s: State, p: Spec)
    requires Inv(s, p) && s.phase.Redoing? && s.wal == []
    ensures Shape(s.(phase := Running)) && Paired(s.(phase := Running))
  {
    hide Replay, Insert, LevelsOk, NumsOk, MemOk, SegOk, Serves, Survives, Absorbed;
  }

  /** With the log empty the levels alone answer. */
  lemma RedoDoneFind(s: State, k: Key)
    requires s.wal == [] && s.mem == [] && s.imm == []
    ensures Get(s, k) == Durable(s, k) == LevelsFind(s.levels, 0, k)
  {
    hide Find, LevelsFind, FindFirst;
    FindEmpty(k);
    assert Replayed(s.wal) == [];
  }

  lemma RedoDoneServes(s: State, t: State, m: map<Key, Value>)
    requires Survives(s, m) && s.wal == [] && s.mem == [] && s.imm == []
    requires t.wal == [] && t.mem == [] && t.imm == [] && t.levels == s.levels
    ensures Serves(t, m) && Survives(t, m)
  {
    hide Get, Durable, LevelsFind, MapGet;
    forall k ensures Get(t, k) == MapGet(m, k) && Durable(t, k) == MapGet(m, k) {
      RedoDoneFind(s, k);
      RedoDoneFind(t, k);
      assert Durable(s, k) == MapGet(m, k);
    }
  }

  lemma NothingAbsorbed(levels: seq<seq<Table>>)
    requires levels != []
    ensures Absorbed([], levels)
  {
    hide LevelsFind, FindFirst;
    forall k ensures FindFirst([], k).None? { FindEmpty(k); }
  }

  lemma RecoveredInv(s: State, p: Spec)
    requires Inv(s, p) && s.phase.Redoing? && s.wal == []
    ensures Inv(s.(phase := Running), Spec(p.logged, p.logged))
  {
    hide Serves, Survives, Absorbed, Shape, Paired, Replayed;
    var t := s.(phase := Running);
    RedoDoneShape(s, p);
    ShapeLevels(s);
    RedoDoneServes(s, t, p.logged);
    NothingAbsorbed(t.levels);
    assert t.imm == [] && t.imm[|t.imm| - Added(t)..] == [];
  }

  lemma RedoDoneInv(s: State, p: Spec)
    requires Inv(s, p) && Enabled(s, RedoDone)
    ensures Inv(Next(s, RedoDone), SpecNext(p, RedoDone))
  {
    hide Inv;
    RecoveredInv(s, p);
  }

  lemma StepInv(s: State, p: Spec, step: Step)
    requires Inv(s, p) && Enabled(s, step)
    ensures Inv(Next(s, step), SpecNext(p, step))
  {
    hide Inv, Next, Enabled;
    match step
    case Log(e) => LogInv(s, p, e);
    case Apply(freeze) => ApplyInv(s, p, freeze);
    case MinorStart => MinorStartInv(s, p);
    case FlushAdd => FlushAddInv(s, p);
    case FlushConsume => FlushConsumeInv(s, p);
    case Pop => PopInv(s, p);
    case MajorSnapshot(level, last, limit) => SnapshotInv(s, p, level, last, limit);
    case MajorCommit => CommitInv(s, p);
    case Crash => CrashInv(s, p);
    case RedoAdd => RedoAddInv(s, p);
    case RedoDelete => RedoDeleteInv(s, p);
    case RedoDone => RedoDoneInv(s, p);
  }

  /** In a reachable state nothing but the threads' own progress decides which steps can happen:
      no lookup, table or plan is ever in the way. */
  lemma StepsAreOpen(s: State, p: Spec, level: nat, last: Option<Key>, limit: nat)
    requires Inv(s, p)
    ensures Enabled(s, FlushAdd) <==>
            s.phase.Running? && s.minor.Flushing? && s.minor.added == s.minor.consumed < s.minor.count
    ensures Enabled(s, Pop) <==> s.phase.Running? && s.minor.Flushing? && s.minor.consumed == s.minor.count
    ensures Enabled(s, MajorSnapshot(level, last, limit)) <==>
              s.phase.Running? && s.job.None? && level + 1 < |s.levels| && s.levels[level] != []
    ensures Enabled(s, MajorCommit) <==> s.phase.Running? && s.job.Some?
    ensures Enabled(s, RedoAdd) <==> s.phase == Redoing(false) && s.wal != []
  {
    hide Less, Replay, Serves, Survives, Absorbed, Paired, MergeRuns, Concat, RangeMin, RangeMax, LevelOk, Overlaps,
        NumsOk;
    if s.phase == Redoing(false) {
      forall i | 0 <= i < |s.wal| ensures Replay(s.wal[i]) != [] { ReplayOk(s.wal[i]); }
    }
    if level + 1 < |s.levels| && s.levels[level] != [] {
      Inputs0Ok(s.levels, level, last);
    }
  }

  // ---- the keys in the engine ----

  lemma {:induction false} LevelsHold(levels: seq<seq<Table>>, from: nat, l: nat, t: Table, k: Key)
    requires from <= l < |levels| && t in levels[l] && Find(t.run, k).Some?
    ensures LevelsFind(levels, from, k).Some?
    decreases |levels| - from
  {
    hide Find;
    var order := SearchOrder(from, levels[from]);
    TablesFindNone(order, k);
    if from == l {
      var i :| 0 <= i < |levels[l]| && levels[l][i] == t;
      assert order[if l == 0 then |order| - 1 - i else i] == t;
    } else {
      LevelsHold(levels, from + 1, l, t, k);
    }
  }

  /** A run of the engine: a memtable, or what a table holds. */
  ghost predicate RunOf(s: State, r: Run) {
    r == s.mem || r in s.imm || exists l, t :: 0 <= l < |s.levels| && t in s.levels[l] && t.run == r
  }

  /** Every key anywhere in a running engine was written. */
  lemma KeysWereWritten(s: State, p: Spec, r: Run, e: Entry)
    requires Inv(s, p) && s.phase.Running? && RunOf(s, r) && e in r
    ensures MemOk(r) && e.key in p.visible
  {
    hide Find, LevelsFind, FindFirst, Paired, Absorbed, Survives, JobOk, NumsOk;
    RunIsOk(s, r);
    FindIff(r, e.key);
    assert Find(r, e.key) == Some(e.value);
    FindFirstNone(s.imm, e.key);
    if r != s.mem && r !in s.imm {
      var l, t :| 0 <= l < |s.levels| && t in s.levels[l] && t.run == r;
      LevelsHold(s.levels, 0, l, t, e.key);
    }
    assert Get(s, e.key) == MapGet(p.visible, e.key);
  }

  lemma RunIsOk(s: State, r: Run)
    requires Shape(s) && RunOf(s, r)
    ensures MemOk(r)
  {
    hide Sorted, NonEmptyKeys, JobOk, NumsOk, LevelOk;
    if r != s.mem && r !in s.imm {
      var l, t :| 0 <= l < |s.levels| && t in s.levels[l] && t.run == r;
      var i :| 0 <= i < |s.levels[l]| && s.levels[l][i] == t;
      assert t.Valid();
    }
  }

  // ---- whole runs ----

  lemma {:induction false} RunInv(maxLevel: nat, steps: seq<Step>)
    requires maxLevel > 0 && IsRun(maxLevel, steps)
    ensures Inv(After(maxLevel, steps), SpecAfter(steps))
  {
    hide Inv, Next, Enabled;
    if steps == [] {
      InitInv(maxLevel);
    } else {
      var n := |steps| - 1;
      RunInv(maxLevel, steps[..n]);
      StepInv(After(maxLevel, steps[..n]), SpecAfter(steps[..n]), steps[n]);
    }
  }

  /** In every run, whatever the interleaving and however often it crashed, a lookup returns the
      latest finished write of its key, or nothing if there is none. */
  lemma EveryRunServesLatestWrite(maxLevel: nat, steps: seq<Step>, k: Key)
    requires maxLevel > 0 && IsRun(maxLevel, steps) && After(maxLevel, steps).phase.Running?
    ensures Get(After(maxLevel, steps), k) == MapGet(SpecAfter(steps).visible, k)
  {
    hide Shape, Paired, Absorbed, Get;
    RunInv(maxLevel, steps);
  }

  /** At every point of every run the log and the levels together hold all logged writes. */
  lemma EveryRunIsDurable(maxLevel: nat, steps: seq<Step>, k: Key)
    requires maxLevel > 0 && IsRun(maxLevel, steps)
    ensures Durable(After(maxLevel, steps), k) == MapGet(SpecAfter(steps).logged, k)
  {
    hide Shape, Paired, Absorbed, Durable;
    RunInv(maxLevel, steps);
  }

  /** A reachable step other than a write in flight finishing changes no lookup: flushes, pops,
      compactions and log truncation are invisible. */
  lemma MaintenanceIsInvisible(maxLevel: nat, steps: seq<Step>, step: Step, k: Key)
    requires maxLevel > 0 && IsRun(maxLevel, steps + [step])
    requires step.MinorStart? || step.FlushAdd? || step.FlushConsume? || step.Pop? || step.MajorSnapshot? ||
             step.MajorCommit?
    ensures IsRun(maxLevel, steps)
    ensures Get(After(maxLevel, steps + [step]), k) == Get(After(maxLevel, steps), k)
  {
    hide Get;
    assert (steps + [step])[..|steps|] == steps;
    EveryRunServesLatestWrite(maxLevel, steps, k);
    EveryRunServesLatestWrite(maxLevel, steps + [step], k);
  }

  /** Steps of other threads that can fall inside a lookup: it holds mut_ and imm_ for reading all
      along, but takes the lock of the levels only after it has searched those two. `LookupSteps`
      derives this from the locks. */
  predicate DuringGet(step: Step) {
    step.Log? || step.MinorStart? || step.FlushAdd? || step.FlushConsume? || step.MajorSnapshot? || step.MajorCommit?
  }

  /** A lookup that searched the memtables in one state and the levels in a later one. */
  function SplitGet(s: State, t: State, k: Key): Option<Value> {
    if Find(s.mem, k).Some? then Find(s.mem, k)
    else if FindFirst(s.imm, k).Some? then FindFirst(s.imm, k)
    else LevelsFind(t.levels, 0, k)
  }

  lemma {:induction false} LockedMemtables(maxLevel: nat, steps: seq<Step>, more: seq<Step>)
    requires maxLevel > 0 && IsRun(maxLevel, steps + more) && forall i :: 0 <= i < |more| ==> DuringGet(more[i])
    ensures IsRun(maxLevel, steps)
    ensures var s, t := After(maxLevel, steps), After(maxLevel, steps + more);
            s.mem == t.mem && s.imm == t.imm && s.phase == t.phase
    ensures SpecAfter(steps + more).visible == SpecAfter(steps).visible
    decreases |more|
  {
    hide MakePlan, Commit, Inputs0, AddTable;
    if more == [] {
      assert steps + more == steps;
    } else {
      var n := |more| - 1;
      assert (steps + more)[..|steps + more| - 1] == steps + more[..n];
      LockedMemtables(maxLevel, steps, more[..n]);
    }
  }

  /** Whatever happens in between, such a lookup returns the latest finished write. */
  lemma GetAcrossSteps(maxLevel: nat, steps: seq<Step>, more: seq<Step>, k: Key)
    requires maxLevel > 0 && IsRun(maxLevel, steps + more) && forall i :: 0 <= i < |more| ==> DuringGet(more[i])
    requires IsRun(maxLevel, steps) && After(maxLevel, steps).phase.Running?
    ensures SplitGet(After(maxLevel, steps), After(maxLevel, steps + more), k) == MapGet(SpecAfter(steps).visible, k)
  {
    hide IsRun, After, SpecAfter, DuringGet;
    LockedMemtables(maxLevel, steps, more);
    EveryRunServesLatestWrite(maxLevel, steps + more, k);
  }

  // ---- which tables a compaction moves ----

  /** Between the snapshot of a compaction and its commit: nothing but its commit or a crash ends it. */
  predicate Meanwhile(step: Step) {
    !step.MajorCommit? && !step.Crash?
  }

  /** Meanwhile the plan stays as it was made and the levels are left alone but for tables added to level 0. */
  lemma {:induction false} PlanWaits(maxLevel: nat, steps: seq<Step>, more: seq<Step>)
    requires maxLevel > 0 && IsRun(maxLevel, steps + more) && forall i :: 0 <= i < |more| ==> Meanwhile(more[i])
    ensures IsRun(maxLevel, steps)
    ensures After(maxLevel, steps).phase.Running? && After(maxLevel, steps).job.Some? ==>
              var s, t := After(maxLevel, steps), After(maxLevel, steps + more);
              t.phase.Running? && t.job == s.job && Grown(s.levels, t.levels)
    decreases |more|
  {
    hide Enabled, Next;
    if more == [] {
      assert steps + more == steps;
    } else {
      var n := |more| - 1;
      assert (steps + more)[..|steps + more| - 1] == steps + more[..n];
      PlanWaits(maxLevel, steps, more[..n]);
      var s, t := After(maxLevel, steps), After(maxLevel, steps + more[..n]);
      if s.phase.Running? && s.job.Some? {
        StepWaits(t, more[n]);
      }
    }
  }

  /** The same levels, but for tables pushed on level 0. */
  ghost predicate Grown(was: seq<seq<Table>>, now: seq<seq<Table>>) {
    |was| == |now| && (was != [] ==> was[0] <= now[0]) && forall l :: 0 < l < |was| ==> now[l] == was[l]
  }

  lemma StepWaits(s: State, step: Step)
    requires Enabled(s, step) && Meanwhile(step) && s.phase.Running? && s.job.Some?
    ensures var t := Next(s, step); t.phase.Running? && t.job == s.job && Grown(s.levels, t.levels)
  {
    hide MakePlan, Inputs0, Insert, LogAppend;
  }

  /** In every run, whatever other threads do between a compaction's snapshot and its commit: exactly the
      chosen tables of the snapshot leave their level, so level 0 is left with what was added since; below,
      exactly the tables they meet are replaced; no other level changes. */
  lemma CompactionMoves(maxLevel: nat, steps: seq<Step>, level: nat, last: Option<Key>, limit: nat, more: seq<Step>)
    requires maxLevel > 0 && forall i :: 0 <= i < |more| ==> Meanwhile(more[i])
    requires IsRun(maxLevel, steps + [MajorSnapshot(level, last, limit)] + more)
    ensures var planned := steps + [MajorSnapshot(level, last, limit)];
            && IsRun(maxLevel, steps) && IsRun(maxLevel, planned)
            && IsRun(maxLevel, planned + more + [MajorCommit])
            && Moved(After(maxLevel, steps).levels, After(maxLevel, planned + more).levels,
                     After(maxLevel, planned + more + [MajorCommit]).levels, level, last)
  {
    hide Enabled, Next, IsRun, After, SpecAfter, Inv, Moved, Grown;
    var planned := steps + [MajorSnapshot(level, last, limit)];
    PlanWaits(maxLevel, planned, more);
    LastStep(maxLevel, steps, MajorSnapshot(level, last, limit));
    RunInv(maxLevel, steps);
    RunInv(maxLevel, planned + more);
    SnapshotPlans(After(maxLevel, steps), level, last, limit);
    StepsAreOpen(After(maxLevel, planned + more), SpecAfter(planned + more), level, last, limit);
    Extend(maxLevel, planned + more, MajorCommit);
    CommitMoved(After(maxLevel, steps), After(maxLevel, planned + more), SpecAfter(planned + more), level, last, limit);
  }

  lemma LastStep(maxLevel: nat, steps: seq<Step>, step: Step)
    requires IsRun(maxLevel, steps + [step])
    ensures IsRun(maxLevel, steps) && Enabled(After(maxLevel, steps), step)
    ensures After(maxLevel, steps + [step]) == Next(After(maxLevel, steps), step)
  {
    assert (steps + [step])[..|steps|] == steps;
  }

  lemma SnapshotPlans(s: State, level: nat, last: Option<Key>, limit: nat)
    requires Enabled(s, MajorSnapshot(level, last, limit))
    ensures var t := Next(s, MajorSnapshot(level, last, limit));
            t.phase.Running? && t.job.Some? && t.levels == s.levels
  {
    hide MakePlan, Inputs0;
  }

  /** The levels at a snapshot, before the commit and after it. */
  ghost predicate Moved(was: seq<seq<Table>>, now: seq<seq<Table>>, after: seq<seq<Table>>, level: nat,
                        last: Option<Key>)
  {
    && level + 1 < |was| == |now| == |after| && NonEmptyRuns(was[level]) && NonEmptyRuns(now[level + 1])
    && (level == 0 ==> was[0] <= now[0] && after[0] == now[0][|was[0]|..])
    && (level > 0 ==> now[level] == was[level])
    && (forall t :: t in after[level] <==> t in now[level] && !GoesDown(level, was[level], last, t))
    && (forall t :: t in now[level + 1] ==> (t in after[level + 1] <==> !Rewritten(level, was[level], last, t)))
    && (forall l :: 0 <= l < |now| && l != level && l != level + 1 ==> after[l] == now[l])
  }

  /** No open table carries the number of one of these. */
  ghost predicate OutputsApart(levels: seq<seq<Table>>, ts: seq<Table>) {
    forall o, l, t :: o in ts && 0 <= l < |levels| && t in levels[l] ==> t.num != o.num
  }

  lemma InvJob(s: State, p: Spec)
    requires Inv(s, p) && s.job.Some?
    ensures Fits(s.levels, s.job.value) && UniqueNums(s.job.value.outputs) &&
            OutputsApart(s.levels, s.job.value.outputs)
  {
  }

  lemma CommitMoved(s: State, t: State, p: Spec, level: nat, last: Option<Key>, limit: nat)
    requires Enabled(s, MajorSnapshot(level, last, limit)) && Inv(t, p) && Enabled(t, MajorCommit)
    requires t.job == Next(s, MajorSnapshot(level, last, limit)).job && Grown(s.levels, t.levels)
    ensures Moved(s.levels, t.levels, Next(t, MajorCommit).levels, level, last)
  {
    hide Inv, Less, Commit, SplitTables, MergeRuns, Inputs0, GoesDown, Rewritten, Fits, RangeMin, RangeMax;
    InvJob(t, p);
    CommitMoves(s.levels, t.levels, level, last, t.job.value);
  }

  /** The steps of a recovery that is not interrupted. */
  function RecoverySteps(segments: nat): seq<Step> {
    [Crash] + (if segments == 0 then [] else [RedoAdd] + seq(segments, _ => RedoDelete)) + [RedoDone]
  }

  /** From any reachable state, even in the middle of an earlier recovery, crashing and recovering
      succeeds and serves exactly the logged writes. */
  lemma CrashRecovers(maxLevel: nat, steps: seq<Step>, k: Key)
    requires maxLevel > 0 && IsRun(maxLevel, steps)
    ensures var all := steps + RecoverySteps(|NonEmptySegs(After(maxLevel, steps).wal)|);
            && IsRun(maxLevel, all) && After(maxLevel, all).phase.Running?
            && Get(After(maxLevel, all), k) == MapGet(SpecAfter(steps).logged, k)
  {
    hide Inv, Get, IsRun, After, SpecAfter, AddTables, Replay, NonEmptySegs, FileBound;
    var n := |NonEmptySegs(After(maxLevel, steps).wal)|;
    var crashed := steps + [Crash];
    Extend(maxLevel, steps, Crash);
    var last := crashed;
    if n > 0 {
      RedoAddEnabled(maxLevel, crashed);
      Extend(maxLevel, crashed, RedoAdd);
      DeleteAll(maxLevel, crashed + [RedoAdd], n);
      last := crashed + [RedoAdd] + seq(n, _ => RedoDelete);
    }
    Extend(maxLevel, last, RedoDone);
    assert last + [RedoDone] == steps + RecoverySteps(n);
    EveryRunServesLatestWrite(maxLevel, last + [RedoDone], k);
  }

  lemma Extend(maxLevel: nat, steps: seq<Step>, step: Step)
    requires IsRun(maxLevel, steps) && Enabled(After(maxLevel, steps), step)
    ensures IsRun(maxLevel, steps + [step])
    ensures After(maxLevel, steps + [step]) == Next(After(maxLevel, steps), step)
    ensures SpecAfter(steps + [step]) == SpecNext(SpecAfter(steps), step)
  {
    assert (steps + [step])[..|steps|] == steps;
  }

  lemma RedoAddEnabled(maxLevel: nat, steps: seq<Step>)
    requires maxLevel > 0 && IsRun(maxLevel, steps)
    requires After(maxLevel, steps).phase == Redoing(false) && After(maxLevel, steps).wal != []
    ensures Enabled(After(maxLevel, steps), RedoAdd)
  {
    hide Inv, Enabled, IsRun, After, SpecAfter;
    RunInv(maxLevel, steps);
    StepsAreOpen(After(maxLevel, steps), SpecAfter(steps), 0, None, 0);
  }

  lemma {:induction false} DeleteAll(maxLevel: nat, steps: seq<Step>, n: nat)
    requires IsRun(maxLevel, steps) && After(maxLevel, steps).phase == Redoing(true) &&
             n <= |After(maxLevel, steps).wal|
    ensures var all := steps + seq(n, _ => RedoDelete);
            && IsRun(maxLevel, all) && After(maxLevel, all).phase == Redoing(true)
            && |After(maxLevel, all).wal| == |After(maxLevel, steps).wal| - n
            && SpecAfter(all) == SpecAfter(steps)
  {
    hide IsRun, After, SpecAfter;
    if n == 0 {
      assert steps + seq(n, _ => RedoDelete) == steps;
    } else {
      DeleteAll(maxLevel, steps, n - 1);
      var front := steps + seq(n - 1, _ => RedoDelete);
      Extend(maxLevel, front, RedoDelete);
      assert front + [RedoDelete] == steps + seq(n, _ => RedoDelete);
    }
  }
}

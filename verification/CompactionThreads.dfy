/** When compactions of different threads overlap: the locks do not keep two of a kind apart, one thread for
    each kind does (mirdb-server/src/data_manager.rs). */
module CompactionThreads {
  import opened Bytes
  import opened Locks

  // ---- compactions in flight ----

  /** A major compaction of this thread has been planned and is not yet committed. */
  ghost predicate MajorInFlight(done: seq<Effect>) {
    exists a :: 0 <= a < |done| && done[a] == Planning && forall b :: a < b < |done| ==> done[b] != Committing
  }

  /** A minor compaction of this thread has counted its tables and not yet popped them. */
  ghost predicate MinorInFlight(done: seq<Effect>) {
    exists a :: 0 <= a < |done| && done[a].Counting? && done[a].frozen > 0 &&
                forall b :: a < b < |done| ==> done[b] != Popping
  }

  lemma {:induction false} MajorStage(done: seq<Effect>)
    requires StageAfter(done).Some?
    ensures MajorInFlight(done) <==> StageAfter(done).value == Planned
  {
    if done != [] {
      var n := |done| - 1;
      MajorStage(done[..n]);
      if StageAfter(done[..n]).value == Planned {
        var a :| 0 <= a < n && done[..n][a] == Planning && forall b :: a < b < n ==> done[..n][b] != Committing;
        assert done[a] == Planning && forall b :: a < b < n ==> done[b] == done[..n][b];
      }
    }
  }

  lemma {:induction false} MinorStage(done: seq<Effect>)
    requires StageAfter(done).Some?
    ensures MinorInFlight(done) <==> StageAfter(done).value.Flushing?
  {
    if done != [] {
      var n := |done| - 1;
      MinorStage(done[..n]);
      if StageAfter(done[..n]).value.Flushing? {
        var a :| 0 <= a < n && done[..n][a].Counting? && done[..n][a].frozen > 0 &&
          forall b :: a < b < n ==> done[..n][b] != Popping;
        assert done[a] == done[..n][a] && forall b :: a < b < n ==> done[b] == done[..n][b];
      }
    }
  }

  /** The thread is about to start a compaction while another one is in the middle of one of that kind. */
  ghost predicate Crowds(ts: Threads, i: nat)
    requires i < |ts|
  {
    && ts[i].todo != [] && ts[i].todo[0].Do?
    && var e := ts[i].todo[0].effect;
       || (e == Planning && exists j :: 0 <= j < |ts| && j != i && MajorInFlight(ts[j].done))
       || (e.Counting? && e.frozen > 0 && exists j :: 0 <= j < |ts| && j != i && MinorInFlight(ts[j].done))
  }

  /** No two minor and no two major compactions overlap. */
  ghost predicate NeverCrowded(programs: seq<seq<Operation>>, schedule: seq<nat>) {
    forall n, ts :: 0 <= n < |schedule| && Reaches(programs, schedule[..n], ts) && schedule[n] < |ts| ==>
      !Crowds(ts, schedule[n])
  }

  lemma {:induction false} ReachesOnce(programs: seq<seq<Operation>>, schedule: seq<nat>, a: Threads, b: Threads)
    requires Reaches(programs, schedule, a) && Reaches(programs, schedule, b)
    ensures a == b
  {
    if schedule != [] {
      var n := |schedule| - 1;
      var x: Threads :| Reaches(programs, schedule[..n], x) && schedule[n] < |x| && CanStep(x, schedule[n])
                        && a == x[schedule[n] := Advance(x[schedule[n]])];
      var y: Threads :| Reaches(programs, schedule[..n], y) && schedule[n] < |y| && CanStep(y, schedule[n])
                        && b == y[schedule[n] := Advance(y[schedule[n]])];
      ReachesOnce(programs, schedule[..n], x, y);
    }
  }

  lemma NeverCrowdedStep(programs: seq<seq<Operation>>, schedule: seq<nat>, was: Threads)
    requires schedule != [] && Reaches(programs, schedule[..|schedule| - 1], was) && schedule[|schedule| - 1] < |was|
    ensures NeverCrowded(programs, schedule) <==>
            NeverCrowded(programs, schedule[..|schedule| - 1]) && !Crowds(was, schedule[|schedule| - 1])
  {
    hide Reaches, Crowds;
    var n := |schedule| - 1;
    assert forall m :: 0 <= m <= n ==> schedule[..n][..m] == schedule[..m];
    forall ts | Reaches(programs, schedule[..n], ts) ensures ts == was
        { ReachesOnce(programs, schedule[..n], ts, was); }
    if NeverCrowded(programs, schedule[..n]) && !Crowds(was, schedule[n]) {
      forall m, ts | 0 <= m < |schedule| && Reaches(programs, schedule[..m], ts) && schedule[m] < |ts|
        ensures !Crowds(ts, schedule[m])
      {
        if m < n { assert Reaches(programs, schedule[..n][..m], ts) && schedule[..n][m] == schedule[m]; }
      }
    }
    if NeverCrowded(programs, schedule) {
      forall m, ts | 0 <= m < n && Reaches(programs, schedule[..n][..m], ts) && schedule[..n][m] < |ts|
        ensures !Crowds(ts, schedule[..n][m])
      {
        assert Reaches(programs, schedule[..m], ts);
      }
    }
  }

  // ---- one thread for each kind of compaction ----

  predicate Compacts(ops: seq<Operation>, minor: bool) {
    exists x :: 0 <= x < |ops| && if minor then ops[x].Minor? else ops[x].Major?
  }

  /** The effect that starts a compaction. */
  predicate Starts(a: Action, minor: bool) {
    a.Do? && if minor then a.effect.Counting? else a.effect.Planning?
  }

  predicate StartsNothing(s: seq<Action>, minor: bool) {
    forall x :: 0 <= x < |s| ==> !Starts(s[x], minor)
  }

  lemma NothingConcat(a: seq<Action>, b: seq<Action>, minor: bool)
    requires StartsNothing(a, minor) && StartsNothing(b, minor)
    ensures StartsNothing(a + b, minor)
  {
    hide Starts;
  }

  lemma NothingAround(lock: nat, mode: Mode, inner: seq<Action>, minor: bool)
    requires StartsNothing(inner, minor)
    ensures StartsNothing(Around(lock, mode, inner), minor)
  {
  }

  lemma {:induction false} VisitsStartNothing(n: nat, minor: bool)
    ensures StartsNothing(CacheVisits(n), minor)
  {
    hide Around, StartsNothing;
    assert StartsNothing([], minor) by { NothingYet(minor); }
    if n > 0 {
      VisitsStartNothing(n - 1, minor);
      NothingAround(CACHE, Exclusive, [], minor);
      NothingConcat(CacheVisits(n - 1), Around(CACHE, Exclusive, []), minor);
    }
  }

  lemma NothingYet(minor: bool)
    ensures StartsNothing([], minor)
  {
  }

  lemma {:induction false} FlushStartsNothing(c: nat, minor: bool)
    ensures StartsNothing(FlushScript(c), minor)
  {
    hide Around, CacheVisits;
    if c > 0 {
      FlushStartsNothing(c - 1, minor);
      VisitsStartNothing(1, minor);
      var add := Around(READERS, Exclusive, [Do(Adding)]);
      NothingAround(READERS, Exclusive, [Do(Adding)], minor);
      NothingConcat(add, [Do(Dropping)], minor);
      NothingConcat(CacheVisits(1), add + [Do(Dropping)], minor);
      NothingConcat(FlushScript(c - 1), CacheVisits(1) + (add + [Do(Dropping)]), minor);
    }
  }

  lemma GetStartsNothing(inMemory: bool, blocks: nat, minor: bool)
    ensures StartsNothing(GetScript(inMemory, blocks), minor)
  {
    hide Around, CacheVisits;
    VisitsStartNothing(blocks, minor);
    NothingConcat(CacheVisits(blocks), [Do(SearchingLevels)], minor);
    NothingAround(READERS, Shared, CacheVisits(blocks) + [Do(SearchingLevels)], minor);
    var tail := if inMemory then [] else LevelsScript(blocks);
    NothingConcat([Do(SearchingMemtables)], tail, minor);
    var inner := [Do(SearchingMemtables)] + tail;
    NothingAround(IMM, Shared, inner, minor);
    NothingAround(MUT, Shared, Around(IMM, Shared, inner), minor);
  }

  lemma InsertStartsNothing(freeze: bool, minor: bool)
    ensures StartsNothing(InsertScript(freeze), minor)
  {
    hide Around;
    var apply := if freeze then Around(IMM, Exclusive, [Do(Applying(true))]) else [Do(Applying(false))];
    NothingAround(IMM, Exclusive, [Do(Applying(true))], minor);
    NothingAround(MUT, Exclusive, apply, minor);
    NothingConcat([Do(Logging)], Around(MUT, Exclusive, apply), minor);
    NothingAround(WAL, Exclusive, [Do(Logging)] + Around(MUT, Exclusive, apply), minor);
  }

  lemma MinorStartsNoMajor(c: nat)
    ensures StartsNothing(MinorScript(c), false)
  {
    hide Around, FlushScript;
    FlushStartsNothing(c, false);
    NothingAround(IMM, Shared, [Do(Counting(c))], false);
    NothingAround(IMM, Shared, FlushScript(c), false);
    NothingAround(WAL, Exclusive, Around(IMM, Shared, FlushScript(c)), false);
    NothingAround(IMM, Exclusive, [Do(Popping)], false);
    var flush, pop := Around(WAL, Exclusive, Around(IMM, Shared, FlushScript(c))),
        Around(IMM, Exclusive, [Do(Popping)]);
    NothingConcat(flush, pop, false);
    NothingConcat(Around(IMM, Shared, [Do(Counting(c))]), if c == 0 then [] else flush + pop, false);
  }

  lemma MajorStartsNoMinor(picked: bool, blocks: nat)
    ensures StartsNothing(MajorScript(picked, blocks), true)
  {
    hide Around, CacheVisits;
    VisitsStartNothing(blocks, true);
    NothingAround(READERS, Shared, [Do(Scoring)], true);
    NothingConcat(CacheVisits(blocks), [Do(Planning)], true);
    NothingAround(READERS, Shared, CacheVisits(blocks) + [Do(Planning)], true);
    NothingAround(READERS, Exclusive, [Do(Committing)], true);
    var merge := Around(READERS, Shared, CacheVisits(blocks) + [Do(Planning)]);
    var commit := Around(READERS, Exclusive, [Do(Committing)]);
    NothingConcat(merge, commit, true);
    NothingConcat(Around(READERS, Shared, [Do(Scoring)]), if picked then merge + commit else [], true);
  }

  /** Only a compaction starts one of its kind. */
  lemma ScriptStarts(op: Operation, minor: bool)
    requires if minor then !op.Minor? else !op.Major?
    ensures StartsNothing(Script(op), minor)
  {
    hide StartsNothing, GetScript, InsertScript, MinorScript, MajorScript, Around;
    NothingYet(minor);
    match op
    case Get(m, b) => GetStartsNothing(m, b, minor);
    case Insert(f) => InsertStartsNothing(f, minor);
    case Remove(m, b, found, f) =>
      GetStartsNothing(m, b, minor);
      InsertStartsNothing(f, minor);
      NothingConcat(GetScript(m, b), if found then InsertScript(f) else [], minor);
    case Minor(c) => MinorStartsNoMajor(c);
    case Major(p, b) => MajorStartsNoMinor(p, b);
    case Info => ListingStarts(minor);
  }

  lemma ListingStarts(minor: bool)
    ensures StartsNothing(Around(READERS, Shared, [Do(Listing)]), minor)
  {
  }

  lemma {:induction false} ProgramStarts(ops: seq<Operation>, minor: bool)
    requires !Compacts(ops, minor)
    ensures StartsNothing(Program(ops), minor)
  {
    hide Script, Starts;
    if ops != [] {
      assert forall x :: 0 <= x < |ops[1..]| ==> ops[1..][x] == ops[x + 1];
      ScriptStarts(ops[0], minor);
      ProgramStarts(ops[1..], minor);
      NothingConcat(Script(ops[0]), Program(ops[1..]), minor);
    }
  }

  /** What a thread has done and has yet to do comes from its program. */
  ghost predicate ComesFrom(t: Thread, program: seq<Action>) {
    (forall a :: a in t.todo ==> a in program) && forall e :: e in t.done ==> Do(e) in program
  }

  lemma AdvanceComesFrom(t: Thread, program: seq<Action>)
    requires ComesFrom(t, program) && t.todo != []
    ensures ComesFrom(Advance(t), program)
  {
    assert t.todo[0] in t.todo;
  }

  lemma {:induction false} ReachedComesFrom(programs: seq<seq<Operation>>, schedule: seq<nat>, ts: Threads, i: nat)
    requires Reaches(programs, schedule, ts) && i < |ts|
    ensures |ts| == |programs| && ComesFrom(ts[i], Program(programs[i]))
  {
    hide Program, ComesFrom, Advance;
    if schedule == [] {
      assert ComesFrom(Thread(map[], Program(programs[i]), []), Program(programs[i])) by {
        FreshComesFrom(Program(programs[i]));
      }
    } else {
      var n := |schedule| - 1;
      var was: Threads :| Reaches(programs, schedule[..n], was) && schedule[n] < |was| && CanStep(was, schedule[n])
                          && ts == was[schedule[n] := Advance(was[schedule[n]])];
      ReachedComesFrom(programs, schedule[..n], was, i);
      if i == schedule[n] { AdvanceComesFrom(was[i], Program(programs[i])); }
    }
  }

  lemma FreshComesFrom(program: seq<Action>)
    ensures ComesFrom(Thread(map[], program, []), program)
  {
  }

  /** At most one thread makes compactions of a kind. */
  ghost predicate OneCompactor(programs: seq<seq<Operation>>, minor: bool) {
    forall i, j ::
      0 <= i < |programs| && 0 <= j < |programs| && Compacts(programs[i], minor) && Compacts(programs[j], minor) ==>
        i == j
  }

  /** Then compactions of that kind never overlap. */
  lemma OneThreadEach(programs: seq<seq<Operation>>, schedule: seq<nat>)
    requires OneCompactor(programs, true) && OneCompactor(programs, false)
    ensures NeverCrowded(programs, schedule)
  {
    hide Reaches, OneCompactor, Crowds;
    forall n, ts | 0 <= n < |schedule| && Reaches(programs, schedule[..n], ts) && schedule[n] < |ts|
      ensures !Crowds(ts, schedule[n])
    {
      NotCrowded(programs, schedule[..n], ts, schedule[n]);
    }
  }

  /** A thread that starts or has started a compaction has one in its program. */
  lemma StarterCompacts(t: Thread, ops: seq<Operation>, a: Action, minor: bool)
    requires ComesFrom(t, Program(ops)) && Starts(a, minor)
    requires a in t.todo || (exists e :: e in t.done && a == Do(e))
    ensures Compacts(ops, minor)
  {
    hide Program, Compacts, Starts;
    if !Compacts(ops, minor) { ProgramStarts(ops, minor); }
  }

  lemma NotCrowded(programs: seq<seq<Operation>>, schedule: seq<nat>, ts: Threads, i: nat)
    requires OneCompactor(programs, true) && OneCompactor(programs, false)
    requires Reaches(programs, schedule, ts) && i < |ts|
    ensures !Crowds(ts, i)
  {
    hide Program, Compacts, Reaches, ComesFrom;
    if ts[i].todo != [] && ts[i].todo[0].Do? {
      var a := ts[i].todo[0];
      ReachedComesFrom(programs, schedule, ts, i);
      if Starts(a, true) { StarterCompacts(ts[i], programs[i], a, true); }
      if Starts(a, false) { StarterCompacts(ts[i], programs[i], a, false); }
      forall j, x | 0 <= j < |ts| && j != i && 0 <= x < |ts[j].done|
        ensures Starts(a, true) ==> !ts[j].done[x].Counting?
        ensures Starts(a, false) ==> !ts[j].done[x].Planning?
      {
        ReachedComesFrom(programs, schedule, ts, j);
        var b := Do(ts[j].done[x]);
        if Starts(b, true) { StarterCompacts(ts[j], programs[j], b, true); }
        if Starts(b, false) { StarterCompacts(ts[j], programs[j], b, false); }
      }
    }
  }

  // ---- two major compactions at once ----

  /** The thread holds nothing for itself. */
  ghost predicate SharesAll(t: Thread) {
    forall l :: !HoldsExclusive(t, l)
  }

  /** A thread takes its next action as long as nobody else holds a lock for itself. */
  lemma GoOn(programs: seq<seq<Operation>>, schedule: seq<nat>, ts: Threads, i: nat, next: Thread)
    requires Reaches(programs, schedule, ts) && i < |ts| && ts[i].todo != [] && Advance(ts[i]) == next
    requires ts[i].todo[0].Acquire? ==> ts[i].todo[0].mode == Shared
    requires forall j :: 0 <= j < |ts| ==> SharesAll(ts[j])
    ensures Reaches(programs, schedule + [i], ts[i := next])
  {
    hide Reaches, Advance;
    StepReaches(programs, schedule, ts, i);
  }

  const PlanScript: seq<Action> := [Acquire(READERS, Shared), Do(Scoring), Release(READERS), Acquire(READERS, Shared),
    Do(Planning), Release(READERS), Acquire(READERS, Exclusive), Do(Committing), Release(READERS)]

  lemma MajorIsPlanScript()
    ensures Program([Major(true, 0)]) == PlanScript
  {
    var ops := [Major(true, 0)];
    assert ops[1..] == [] && CacheVisits(0) == [];
    assert Script(ops[0]) == PlanScript;
  }

  /** A thread of its own that has taken the first `n` actions of a compaction. */
  function Planner(n: nat): Thread
    requires n <= 5
  {
    Thread(if n == 0 || n == 3 then map[] else map[READERS := Shared], PlanScript[n..],
           if n < 2 then [] else if n < 5 then [Scoring] else [Scoring, Planning])
  }

  lemma {:induction false} PlansTogether(programs: seq<seq<Operation>>, n: nat) returns (schedule: seq<nat>)
    requires programs == [[Major(true, 0)], [Major(true, 0)]] && n <= 4
    ensures Reaches(programs, schedule, [Planner(n), Planner(n)])
  {
    hide Reaches, Planner, Advance, SharesAll, Program;
    if n == 0 {
      BothStart(programs);
      schedule := [];
    } else {
      schedule := PlansTogether(programs, n - 1);
      PlannerSteps(n - 1);
      PlannerSteps(n);
      var ts := [Planner(n - 1), Planner(n - 1)];
      GoOn(programs, schedule, ts, 0, Planner(n));
      var us := ts[0 := Planner(n)];
      GoOn(programs, schedule + [0], us, 1, Planner(n));
      assert us[1 := Planner(n)] == [Planner(n), Planner(n)];
      schedule := schedule + [0] + [1];
    }
  }

  lemma PlannerSteps(n: nat)
    requires n < 5
    ensures Planner(n).todo != [] && Advance(Planner(n)) == Planner(n + 1)
    ensures Planner(n).todo[0].Acquire? ==> Planner(n).todo[0].mode == Shared
    ensures SharesAll(Planner(n))
  {
  }

  lemma BothStart(programs: seq<seq<Operation>>)
    requires programs == [[Major(true, 0)], [Major(true, 0)]]
    ensures Reaches(programs, [], [Planner(0), Planner(0)])
  {
    hide Program;
    MajorIsPlanScript();
    assert PlanScript[0..] == PlanScript;
    assert Start(programs) == [Planner(0), Planner(0)];
  }

  lemma ReadyToPlan()
    ensures MajorInFlight(Planner(5).done) && Planner(4).todo != [] && Planner(4).todo[0] == Do(Planning)
  {
    assert Planner(5).done[1] == Planning;
  }

  /** The locks let two major compactions overlap: both threads read the levels before either changes them. */
  lemma MajorsCanOverlap() returns (programs: seq<seq<Operation>>, schedule: seq<nat>)
    ensures programs == [[Major(true, 0)], [Major(true, 0)]]
    ensures !NeverCrowded(programs, schedule)
  {
    hide Reaches, Program, Planner, SharesAll, MajorInFlight, Advance;
    programs := [[Major(true, 0)], [Major(true, 0)]];
    var both := PlansTogether(programs, 4);
    PlannerSteps(4);
    var ts := [Planner(4), Planner(4)];
    GoOn(programs, both, ts, 0, Planner(5));
    var us := ts[0 := Planner(5)];
    schedule := both + [0] + [1];
    assert schedule[..|schedule| - 1] == both + [0];
    ReadyToPlan();
    assert us[0] == Planner(5) && us[1] == Planner(4) && schedule[|schedule| - 1] == 1;
    assert Crowds(us, schedule[|schedule| - 1]);
  }
}

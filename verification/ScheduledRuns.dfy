/** The engine's state machine, derived from the locks: whatever a scheduler does with threads that run the
    operations, the effects they have on the engine are one of its runs, as long as compactions of a kind do
    not overlap (mirdb-server/src/data_manager.rs). */
module ScheduledRuns {
  import opened Bytes
  import Engine
  import Locks
  import opened CompactionThreads
  import Compaction
  import SstableReaders
  import Runs
  import opened LookupSteps

  type Operations = seq<seq<Locks.Operation>>
  type Steps = seq<Engine.Step>

  /** The effects that are steps of the engine. */
  predicate Moves(e: Locks.Effect) {
    match e
    case Counting(frozen) => frozen > 0
    case SearchingMemtables => false
    case SearchingLevels => false
    case Scoring => false
    case Listing => false
    case _ => true
  }

  /** What a thread does agrees with what is there: it writes under a key, has counted the frozen tables it
      sets out to flush, and compacts a level that has tables and one below it. */
  ghost predicate Agrees(s: Engine.State, e: Locks.Effect, step: Engine.Step) {
    match step
    case Log(entry) => entry.key != []
    case MinorStart => e == Locks.Counting(|s.imm|)
    case MajorSnapshot(level, _, _) => level + 1 < |s.levels| && s.levels[level] != []
    case _ => true
  }

  /** The engine's steps before and after an action of a thread. */
  ghost predicate Records(maxLevel: nat, action: Locks.Action, before: Steps, after: Steps) {
    if action.Do? && Moves(action.effect) then
      && |after| == |before| + 1 && after[..|before|] == before && Takes(action.effect, after[|before|])
      && (Engine.IsRun(maxLevel, before) ==>
            Agrees(Engine.After(maxLevel, before), action.effect, after[|before|]))
    else after == before
  }

  /** Threads and engine steps at the beginning and at the end of a schedule of actions. */
  ghost predicate Performs(maxLevel: nat, start: Locks.Threads, past: Steps, schedule: seq<nat>, ts: Locks.Threads,
                           steps: Steps)
  {
    if schedule == [] then ts == start && steps == past
    else
      var n := |schedule| - 1;
      exists was: Locks.Threads, before: Steps ::
        && Performs(maxLevel, start, past, schedule[..n], was, before)
        && Acts(maxLevel, was, before, schedule[n], ts, steps)
  }

  /** One action of one thread. */
  ghost predicate Acts(maxLevel: nat, was: Locks.Threads, before: Steps, i: nat, ts: Locks.Threads, steps: Steps) {
    && i < |was| && Locks.CanStep(was, i)
    && ts == was[i := Locks.Advance(was[i])]
    && Records(maxLevel, was[i].todo[0], before, steps)
  }

  lemma {:induction false} PerformsReaches(programs: Operations, first: seq<nat>, maxLevel: nat, start: Locks.Threads,
                                           past: Steps, schedule: seq<nat>, ts: Locks.Threads, steps: Steps)
    requires Locks.Reaches(programs, first, start) && Performs(maxLevel, start, past, schedule, ts, steps)
    ensures Locks.Reaches(programs, first + schedule, ts)
    decreases |schedule|
  {
    hide Records, Locks.Reaches;
    if schedule == [] {
      assert first + schedule == first;
    } else {
      var n := |schedule| - 1;
      var was: Locks.Threads, before: Steps :| Performs(maxLevel, start, past, schedule[..n], was, before) &&
        Acts(maxLevel, was, before, schedule[n], ts, steps);
      PerformsReaches(programs, first, maxLevel, start, past, schedule[..n], was, before);
      Locks.StepReaches(programs, first + schedule[..n], was, schedule[n]);
      assert first + schedule[..n] + [schedule[n]] == first + schedule;
    }
  }

  lemma {:induction false} PerformsConcat(maxLevel: nat, start: Locks.Threads, past: Steps, a: seq<nat>,
                                          was: Locks.Threads, before: Steps, b: seq<nat>, ts: Locks.Threads,
                                          steps: Steps)
    requires Performs(maxLevel, start, past, a, was, before) && Performs(maxLevel, was, before, b, ts, steps)
    ensures Performs(maxLevel, start, past, a + b, ts, steps)
    decreases |b|
  {
    hide Acts;
    if b == [] {
      assert a + b == a;
    } else {
      var n := |b| - 1;
      var mid: Locks.Threads, between: Steps :| Performs(maxLevel, was, before, b[..n], mid, between) &&
        Acts(maxLevel, mid, between, b[n], ts, steps);
      PerformsConcat(maxLevel, start, past, a, was, before, b[..n], mid, between);
      assert (a + b)[..|a + b| - 1] == a + b[..n];
    }
  }

  lemma StartReaches(programs: Operations)
    ensures Locks.Reaches(programs, [], Locks.Start(programs))
  {
  }

  // ---- the engine and the stages of the threads ----

  ghost function Stages(ts: Locks.Threads): (st: seq<Locks.Stage>)
    requires Locks.AllDisciplined(ts)
    ensures |st| == |ts|
    ensures forall i :: 0 <= i < |ts| ==>
              Locks.StageAfter(ts[i].done).Some? && st[i] == Locks.StageAfter(ts[i].done).value
  {
    assert forall i :: 0 <= i < |ts| ==> Locks.Orderly(ts[i]);
    seq(|ts|, i requires 0 <= i < |ts| => Locks.StageAfter(ts[i].done).value)
  }

  /** The engine's record of a flush says what its thread's stage says. */
  predicate SameFlush(m: Engine.Minor, stage: Locks.Stage) {
    stage.Flushing? ==>
      && m.Flushing? && m.count == m.consumed + stage.left
      && m.added == m.consumed + if stage.added then 1 else 0
  }

  /** What is in flight in the engine is in flight in a thread, and the other way round. */
  ghost predicate Linked(s: Engine.State, st: seq<Locks.Stage>) {
    && s.phase.Running?
    && (s.pending.Some? <==> exists i :: 0 <= i < |st| && st[i].Logged?)
    && (s.job.Some? <==> exists i :: 0 <= i < |st| && st[i].Planned?)
    && (s.minor.Flushing? <==> exists i :: 0 <= i < |st| && st[i].Flushing?)
    && (forall i :: 0 <= i < |st| ==> SameFlush(s.minor, st[i]))
    && (forall i, j :: 0 <= i < |st| && 0 <= j < |st| && st[i].Planned? && st[j].Planned? ==> i == j)
    && (forall i, j :: 0 <= i < |st| && 0 <= j < |st| && st[i].Flushing? && st[j].Flushing? ==> i == j)
  }

  /** No other thread is in the way of an effect of thread `i`. */
  ghost predicate Free(st: seq<Locks.Stage>, i: nat, e: Locks.Effect) {
    && (e.Logging? || e.Applying? ==> forall j :: 0 <= j < |st| && j != i ==> !st[j].Logged?)
    && (e.Planning? ==> forall j :: 0 <= j < |st| && j != i ==> !st[j].Planned?)
    && (e.Counting? && e.frozen > 0 ==> forall j :: 0 <= j < |st| && j != i ==> !st[j].Flushing?)
  }

  lemma StepEnabled(s: Engine.State, p: Engine.Spec, st: seq<Locks.Stage>, i: nat, e: Locks.Effect, step: Engine.Step)
    requires Engine.Inv(s, p) && Linked(s, st) && i < |st| && Locks.Follow(st[i], e).Some?
    requires Takes(e, step) && Agrees(s, e, step) && Free(st, i, e)
    ensures Engine.Enabled(s, step)
  {
    hide Engine.Inv;
    assert SameFlush(s.minor, st[i]);
    if step.MajorSnapshot? {
      Engine.StepsAreOpen(s, p, step.level, step.last, step.limit);
    } else {
      Engine.StepsAreOpen(s, p, 0, None, 0);
    }
  }

  /** What a step changes of what is in flight. */
  lemma NextProgress(s: Engine.State, step: Engine.Step)
    requires Engine.Enabled(s, step) && s.phase.Running? && !step.Crash?
    ensures var t := Engine.Next(s, step);
            && t.phase.Running?
            && (t.pending.Some? <==> step.Log? || (s.pending.Some? && !step.Apply?))
            && (t.job.Some? <==> step.MajorSnapshot? || (s.job.Some? && !step.MajorCommit?))
            && t.minor == match step
               case MinorStart => Engine.Flushing(|s.imm|, 0, 0)
               case FlushAdd => s.minor.(added := s.minor.added + 1)
               case FlushConsume => s.minor.(consumed := s.minor.consumed + 1)
               case Pop => Engine.Resting
               case _ => s.minor
  {
    hide Compaction.MakePlan, Compaction.Commit, Compaction.Inputs0, SstableReaders.AddTable, Runs.Insert;
  }

  lemma StepLinked(s: Engine.State, st: seq<Locks.Stage>, i: nat, e: Locks.Effect, step: Engine.Step)
    requires Linked(s, st) && i < |st| && Locks.Follow(st[i], e).Some? && Engine.Enabled(s, step)
    requires Takes(e, step) && Agrees(s, e, step) && Free(st, i, e)
    ensures Linked(Engine.Next(s, step), st[i := Locks.Follow(st[i], e).value])
  {
    hide Engine.Enabled, Engine.Next;
    NextProgress(s, step);
    var now := st[i := Locks.Follow(st[i], e).value];
    assert now[i] == Locks.Follow(st[i], e).value && forall j :: 0 <= j < |st| && j != i ==> now[j] == st[j];
  }

  // ---- schedules are runs ----

  /** The engine as the threads find it: running, with nothing in flight. */
  predicate AtRest(s: Engine.State) {
    s.phase.Running? && s.pending.None? && s.job.None? && s.minor.Resting?
  }

  /** The locks and the absence of other compactions leave a thread free to take its step. */
  lemma FreeToMove(programs: Operations, schedule: seq<nat>, ts: Locks.Threads, i: nat, e: Locks.Effect)
    requires Locks.Reaches(programs, schedule, ts) && Locks.AllDisciplined(ts) && i < |ts|
    requires ts[i].todo != [] && ts[i].todo[0] == Locks.Do(e) && !Crowds(ts, i)
    ensures Free(Stages(ts), i, e)
  {
    hide Locks.Reaches, Locks.Disciplined, Locks.StageAfter, Locks.WriteInFlight, MajorInFlight,
        MinorInFlight;
    var st := Stages(ts);
    forall j | 0 <= j < |st| && j != i
      ensures st[j].Logged? ==> !e.Logging? && !e.Applying?
      ensures st[j].Planned? ==> !e.Planning?
      ensures st[j].Flushing? ==> !(e.Counting? && e.frozen > 0)
    {
      assert Locks.Orderly(ts[j]);
      Locks.InFlightStage(ts[j].done);
      MajorStage(ts[j].done);
      MinorStage(ts[j].done);
      if st[j].Logged? { Locks.WritesDoNotMix(programs, schedule, ts, j, i, e); }
    }
  }

  /** A second compaction of a kind is not a step of the engine. */
  lemma CrowdedIsNoStep(s: Engine.State, ts: Locks.Threads, i: nat, step: Engine.Step)
    requires Locks.AllDisciplined(ts) && Linked(s, Stages(ts)) && i < |ts| && Crowds(ts, i)
    requires Takes(ts[i].todo[0].effect, step)
    ensures !Engine.Enabled(s, step)
  {
    hide Locks.Disciplined, Locks.StageAfter, MajorInFlight, MinorInFlight;
    var st := Stages(ts);
    forall j | 0 <= j < |ts|
      ensures MajorInFlight(ts[j].done) ==> st[j].Planned?
      ensures MinorInFlight(ts[j].done) ==> st[j].Flushing?
    {
      assert Locks.Orderly(ts[j]);
      MajorStage(ts[j].done);
      MinorStage(ts[j].done);
    }
  }

  lemma AdvanceStages(ts: Locks.Threads, i: nat)
    requires Locks.AllDisciplined(ts) && i < |ts| && ts[i].todo != []
    ensures var st, a := Stages(ts), ts[i].todo[0];
            var now := ts[i := Locks.Advance(ts[i])];
            && Locks.AllDisciplined(now)
            && (a.Do? ==> Locks.Follow(st[i], a.effect).Some? &&
                          Stages(now) == st[i := Locks.Follow(st[i], a.effect).value])
            && (!a.Do? || !Moves(a.effect) ==> Stages(now) == st)
  {
    hide Locks.Orderly, Locks.StageAfter, Locks.Follow, Locks.Advance, Moves;
    AdvanceStage(ts[i]);
    var now := ts[i := Locks.Advance(ts[i])];
    assert Locks.AllDisciplined(now);
    var st, later := Stages(ts), Stages(now);
    assert forall j :: 0 <= j < |ts| && j != i ==> now[j] == ts[j] && later[j] == st[j];
    assert now[i] == Locks.Advance(ts[i]) && later[i] == Locks.StageAfter(now[i].done).value;
    assert st[i] == Locks.StageAfter(ts[i].done).value;
  }

  lemma AdvanceStage(t: Locks.Thread)
    requires Locks.Orderly(t) && t.todo != []
    ensures var now, a := Locks.Advance(t), t.todo[0];
            && Locks.Orderly(now)
            && (a.Do? ==> Locks.Follow(Locks.StageAfter(t.done).value, a.effect) == Locks.StageAfter(now.done))
            && (!a.Do? || !Moves(a.effect) ==> Locks.StageAfter(now.done) == Locks.StageAfter(t.done))
  {
    hide Locks.Needs;
    Locks.AdvanceOrderly(t);
    var done := Locks.Advance(t).done;
    if t.todo[0].Do? { assert done[..|done| - 1] == t.done; }
  }

  /** One action of one thread: the engine's steps stay a run exactly if it does not start a second
      compaction of a kind. */
  lemma OneAction(programs: Operations, schedule: seq<nat>, was: Locks.Threads, i: nat, maxLevel: nat, before: Steps,
                  steps: Steps)
    requires maxLevel > 0 && Locks.Reaches(programs, schedule, was) && Locks.AllDisciplined(was)
    requires i < |was| && Locks.CanStep(was, i) && Records(maxLevel, was[i].todo[0], before, steps)
    requires Engine.IsRun(maxLevel, before) && Linked(Engine.After(maxLevel, before), Stages(was))
    ensures Locks.AllDisciplined(was[i := Locks.Advance(was[i])])
    ensures Engine.IsRun(maxLevel, steps) <==> !Crowds(was, i)
    ensures Engine.IsRun(maxLevel, steps) ==>
              Linked(Engine.After(maxLevel, steps), Stages(was[i := Locks.Advance(was[i])]))
  {
    hide Locks.Reaches, Locks.Orderly, Engine.IsRun, Engine.After, Engine.SpecAfter, Engine.Inv, Linked, Engine.Enabled,
        Engine.Next, Free, Agrees, Takes, Locks.Follow;
    AdvanceStages(was, i);
    var a := was[i].todo[0];
    if a.Do? && Moves(a.effect) {
      var s, p, step := Engine.After(maxLevel, before), Engine.SpecAfter(before), steps[|before|];
      assert steps == before + [step];
      if Crowds(was, i) {
        CrowdedIsNoStep(s, was, i, step);
        NotARun(maxLevel, before, step);
      } else {
        FreeToMove(programs, schedule, was, i, a.effect);
        Engine.RunInv(maxLevel, before);
        StepEnabled(s, p, Stages(was), i, a.effect, step);
        StepLinked(s, Stages(was), i, a.effect, step);
        Engine.Extend(maxLevel, before, step);
      }
    }
  }

  lemma NotARun(maxLevel: nat, before: Steps, step: Engine.Step)
    ensures Engine.IsRun(maxLevel, before + [step]) ==>
              Engine.IsRun(maxLevel, before) && Engine.Enabled(Engine.After(maxLevel, before), step)
  {
    hide Engine.Enabled;
    assert (before + [step])[..|before|] == before;
  }

  lemma RestIsLinked(programs: Operations, s: Engine.State)
    requires AtRest(s)
    ensures Locks.AllDisciplined(Locks.Start(programs)) && Linked(s, Stages(Locks.Start(programs)))
  {
    var ts := Locks.Start(programs);
    forall i | 0 <= i < |ts| ensures Locks.Orderly(ts[i]) { Locks.ProgramDisciplined(programs[i]); }
    assert forall i :: 0 <= i < |ts| ==> Stages(ts)[i] == Locks.Idle;
  }

  /** Any number of threads, any operations, any schedule the locks allow, from any run that left the engine
      at rest: what the threads do to the engine is a run of it, exactly as long as no two minor and no two
      major compactions overlap. */
  lemma {:induction false} SchedulesAreRuns(programs: Operations, maxLevel: nat, past: Steps, schedule: seq<nat>,
                                            ts: Locks.Threads, steps: Steps)
    requires maxLevel > 0 && Engine.IsRun(maxLevel, past) && AtRest(Engine.After(maxLevel, past))
    requires Performs(maxLevel, Locks.Start(programs), past, schedule, ts, steps)
    ensures Engine.IsRun(maxLevel, steps) <==> NeverCrowded(programs, schedule)
    ensures Locks.AllDisciplined(ts)
    ensures Engine.IsRun(maxLevel, steps) ==> Linked(Engine.After(maxLevel, steps), Stages(ts))
    decreases |schedule|
  {
    hide Locks.Reaches, Locks.Orderly, Engine.IsRun, Engine.After, Linked, Records, NeverCrowded, Crowds;
    if schedule == [] {
      RestIsLinked(programs, Engine.After(maxLevel, past));
      NothingCrowds(programs);
    } else {
      var start, n := Locks.Start(programs), |schedule| - 1;
      var was: Locks.Threads, before: Steps :| Performs(maxLevel, start, past, schedule[..n], was, before) &&
        Acts(maxLevel, was, before, schedule[n], ts, steps);
      SchedulesAreRuns(programs, maxLevel, past, schedule[..n], was, before);
      StartReaches(programs);
      PerformsReaches(programs, [], maxLevel, start, past, schedule[..n], was, before);
      assert [] + schedule[..n] == schedule[..n];
      NeverCrowdedStep(programs, schedule, was);
      if Engine.IsRun(maxLevel, before) {
        OneAction(programs, schedule[..n], was, schedule[n], maxLevel, before, steps);
      } else {
        AdvanceStages(was, schedule[n]);
        StaysNoRun(maxLevel, was[schedule[n]].todo[0], before, steps);
      }
    }
  }

  lemma NothingCrowds(programs: Operations)
    ensures NeverCrowded(programs, [])
  {
  }

  lemma StaysNoRun(maxLevel: nat, action: Locks.Action, before: Steps, steps: Steps)
    requires Records(maxLevel, action, before, steps) && !Engine.IsRun(maxLevel, before)
    ensures !Engine.IsRun(maxLevel, steps)
  {
    hide Engine.Enabled;
    if steps != before { NotARun(maxLevel, before, steps[|before|]); }
  }

  // ---- lookups among the other threads ----

  /** While a thread is between the two searches of a lookup, the engine takes only steps a lookup tolerates. */
  lemma {:induction false} WhileLooking(programs: Operations, first: seq<nat>, maxLevel: nat, start: Locks.Threads,
                                        past: Steps, schedule: seq<nat>, ts: Locks.Threads, steps: Steps, i: nat)
    requires Locks.Reaches(programs, first, start) && Performs(maxLevel, start, past, schedule, ts, steps)
    requires i < |start| && Locks.Looking(start[i].todo)
    ensures |ts| == |start| && |start[i].done| <= |ts[i].done| && past <= steps
    ensures |start[i].done| == |ts[i].done| ==>
              Locks.Looking(ts[i].todo) && forall x :: |past| <= x < |steps| ==> Engine.DuringGet(steps[x])
    decreases |schedule|
  {
    hide Locks.Reaches, Engine.DuringGet;
    if schedule != [] {
      var n := |schedule| - 1;
      var was: Locks.Threads, before: Steps :| Performs(maxLevel, start, past, schedule[..n], was, before) &&
        Acts(maxLevel, was, before, schedule[n], ts, steps);
      WhileLooking(programs, first, maxLevel, start, past, schedule[..n], was, before, i);
      var j := schedule[n];
      PerformsReaches(programs, first, maxLevel, start, past, schedule[..n], was, before);
      LookingOn(programs, first + schedule[..n], maxLevel, was, before, j, ts, steps, i);
    }
  }

  /** One action while thread `i` is looking. */
  lemma LookingOn(programs: Operations, first: seq<nat>, maxLevel: nat, was: Locks.Threads, before: Steps, j: nat,
                  ts: Locks.Threads, steps: Steps, i: nat)
    requires Locks.Reaches(programs, first, was) && Acts(maxLevel, was, before, j, ts, steps) && i < |was|
    ensures |was[i].done| <= |ts[i].done| && before <= steps
    ensures Locks.Looking(was[i].todo) && |was[i].done| == |ts[i].done| ==>
              && Locks.Looking(ts[i].todo) && |steps| <= |before| + 1
              && (|steps| > |before| ==> Engine.DuringGet(steps[|before|]))
  {
    hide Locks.Reaches, Engine.DuringGet, Takes;
    var a := was[j].todo[0];
    if Locks.Looking(was[i].todo) && i != j && a.Do? && Moves(a.effect) {
      OnlyToleratedSteps(programs, first, was, i, j, a.effect, steps[|before|]);
    }
  }

  /** A lookup in the middle of everything else: it has searched the memtables, other threads went on with
      anything the locks allow, and it has not searched the levels yet. What it then finds there completes it
      to the latest finished write of its key, the same at its beginning and at its end. */
  lemma LookupsSeeTheLatestWrite(programs: Operations, maxLevel: nat, past: Steps, schedule: seq<nat>,
                                 ts: Locks.Threads, steps: Steps, more: seq<nat>, end: Locks.Threads, later: Steps,
                                 i: nat, k: Key)
    requires maxLevel > 0 && Engine.IsRun(maxLevel, past) && AtRest(Engine.After(maxLevel, past))
    requires Performs(maxLevel, Locks.Start(programs), past, schedule, ts, steps)
    requires Performs(maxLevel, ts, steps, more, end, later) && NeverCrowded(programs, schedule + more)
    requires i < |ts| && Locks.Looking(ts[i].todo) && |end| == |ts| && end[i].done == ts[i].done
    ensures Engine.IsRun(maxLevel, steps) && Engine.IsRun(maxLevel, later)
    ensures Engine.SplitGet(Engine.After(maxLevel, steps), Engine.After(maxLevel, later), k) ==
            Engine.MapGet(Engine.SpecAfter(steps).visible, k)
    ensures Engine.SpecAfter(later).visible == Engine.SpecAfter(steps).visible
  {
    hide *;
    var start := Locks.Start(programs);
    StartReaches(programs);
    PerformsReaches(programs, [], maxLevel, start, past, schedule, ts, steps);
    assert [] + schedule == schedule;
    WhileLooking(programs, schedule, maxLevel, ts, steps, more, end, later, i);
    PerformsConcat(maxLevel, start, past, schedule, ts, steps, more, end, later);
    RunsAndServes(programs, maxLevel, past, schedule + more, end, later);
    var tail := later[|steps|..];
    assert later == steps + tail;
    Engine.LockedMemtables(maxLevel, steps, tail);
    Engine.GetAcrossSteps(maxLevel, steps, tail, k);
  }

  lemma RunsAndServes(programs: Operations, maxLevel: nat, past: Steps, schedule: seq<nat>, ts: Locks.Threads,
                      steps: Steps)
    requires maxLevel > 0 && Engine.IsRun(maxLevel, past) && AtRest(Engine.After(maxLevel, past))
    requires Performs(maxLevel, Locks.Start(programs), past, schedule, ts, steps)
    requires NeverCrowded(programs, schedule)
    ensures Engine.IsRun(maxLevel, steps) && Engine.After(maxLevel, steps).phase.Running?
  {
    hide Performs, Engine.IsRun, Engine.After, NeverCrowded, Locks.AllDisciplined;
    SchedulesAreRuns(programs, maxLevel, past, schedule, ts, steps);
  }
}

/** Which steps of the engine can fall inside a lookup, derived from the locks the threads hold
    (mirdb-server/src/data_manager.rs). */
module LookupSteps {
  import opened Bytes
  import Engine
  import Locks

  /** The step an effect of a thread takes; crashes and recovery belong to no thread. A count of frozen
      tables that finds none is no step. */
  predicate Takes(e: Locks.Effect, step: Engine.Step) {
    match step
    case Log(_) => e.Logging?
    case Apply(freeze) => e == Locks.Applying(freeze)
    case MinorStart => e.Counting? && e.frozen > 0
    case FlushAdd => e.Adding?
    case FlushConsume => e.Dropping?
    case Pop => e.Popping?
    case MajorSnapshot(_, _, _) => e.Planning?
    case MajorCommit => e.Committing?
    case _ => false
  }

  /** The steps that leave both memtables' locks to the readers are exactly those of `DuringGet`. */
  lemma DuringGetByLocks(e: Locks.Effect, step: Engine.Step)
    requires Takes(e, step)
    ensures Engine.DuringGet(step) <==> !Locks.NeedsAlone(e, Locks.MUT) && !Locks.NeedsAlone(e, Locks.IMM)
  {
  }

  /** In every reachable state in which one thread is between the two searches of a lookup, a step another
      thread is taking is one of those a lookup tolerates. */
  lemma OnlyToleratedSteps(programs: seq<seq<Locks.Operation>>, schedule: seq<nat>, ts: Locks.Threads, i: nat, j: nat,
                           e: Locks.Effect, step: Engine.Step)
    requires Locks.Reaches(programs, schedule, ts) && i < |ts| && j < |ts| && i != j && Locks.Looking(ts[i].todo)
    requires Takes(e, step) && ts[j].todo != [] && ts[j].todo[0] == Locks.Do(e)
    ensures Engine.DuringGet(step)
  {
    Locks.LookupIsShielded(programs, schedule, ts, i, j, e);
    DuringGetByLocks(e, step);
  }
}

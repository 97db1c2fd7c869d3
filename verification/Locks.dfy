/** Which locks the operations take, what that keeps apart, and why they cannot block each other for good
    (mirdb-server/src/data_manager.rs, sstable/src/table_reader.rs). */
module Locks {
  import opened Bytes

  datatype Mode = Shared | Exclusive

  /** What a thread does under its locks, named after the engine's steps; a lookup searches the
      memtables and then the levels. */
  datatype Effect =
    | Logging | Applying(freeze: bool)
    | SearchingMemtables | SearchingLevels
    | Counting(frozen: nat) | Adding | Dropping | Popping
    | Scoring | Planning | Committing | Listing

  datatype Action = Acquire(lock: nat, mode: Mode) | Release(lock: nat) | Do(effect: Effect)

  // The reader-writer locks, in the order they are taken in.
  const WAL: nat := 0
  const MUT: nat := 1
  const IMM: nat := 2
  const READERS: nat := 3
  const CACHE: nat := 4

  /** A thread: the locks it holds, what it has yet to do, and what it has done under its locks. */
  datatype Thread = Thread(held: map<nat, Mode>, todo: seq<Action>, done: seq<Effect>)

  // ---- the operations ----

  function Around(lock: nat, mode: Mode, inner: seq<Action>): seq<Action> {
    [Acquire(lock, mode)] + inner + [Release(lock)]
  }

  /** The locks an effect relies on. */
  function Needs(e: Effect): map<nat, Mode> {
    match e
    case Logging => map[WAL := Exclusive]
    case Applying(freeze) =>
      if freeze then map[WAL := Exclusive, MUT := Exclusive, IMM := Exclusive]
      else map[WAL := Exclusive, MUT := Exclusive]
    case SearchingMemtables => map[MUT := Shared, IMM := Shared]
    case SearchingLevels => map[MUT := Shared, IMM := Shared, READERS := Shared]
    case Counting(_) => map[IMM := Shared]
    case Adding => map[WAL := Exclusive, IMM := Shared, READERS := Exclusive]
    case Dropping => map[WAL := Exclusive, IMM := Shared]
    case Popping => map[IMM := Exclusive]
    case Scoring => map[READERS := Shared]
    case Planning => map[READERS := Shared]
    case Committing => map[READERS := Exclusive]
    case Listing => map[READERS := Shared]
  }

  /** `n` visits to the block cache: looking up and storing blocks, or drawing an id for a new reader. */
  function CacheVisits(n: nat): seq<Action> {
    if n == 0 then [] else CacheVisits(n - 1) + Around(CACHE, Exclusive, [])
  }

  /** The second half of a lookup: the tables, read through the cache. */
  function LevelsScript(blocks: nat): seq<Action> {
    Around(READERS, Shared, CacheVisits(blocks) + [Do(SearchingLevels)])
  }

  /** `get`: the memtables, and the tables if those do not have the key. */
  function GetScript(inMemory: bool, blocks: nat): seq<Action> {
    Around(MUT, Shared, Around(IMM, Shared, [Do(SearchingMemtables)] + if inMemory then [] else LevelsScript(blocks)))
  }

  /** `insert_`, with or without a freeze. */
  function InsertScript(freeze: bool): seq<Action> {
    Around(WAL, Exclusive, [Do(Logging)] +
           Around(MUT, Exclusive,
                  if freeze then Around(IMM, Exclusive, [Do(Applying(true))]) else [Do(Applying(false))]))
  }

  /** The flush loop: a reader for the new table, the table is added, its segment dropped. */
  function FlushScript(c: nat): seq<Action> {
    if c == 0 then []
    else FlushScript(c - 1) + (CacheVisits(1) + (Around(READERS, Exclusive, [Do(Adding)]) + [Do(Dropping)]))
  }

  function MinorScript(c: nat): seq<Action> {
    Around(IMM, Shared, [Do(Counting(c))])
    + if c == 0 then []
      else Around(WAL, Exclusive, Around(IMM, Shared, FlushScript(c))) + Around(IMM, Exclusive, [Do(Popping)])
  }

  /** Scoring, then merging under the read lock, then the swap under the write lock. */
  function MajorScript(picked: bool, blocks: nat): seq<Action> {
    Around(READERS, Shared, [Do(Scoring)])
    + if !picked then []
      else Around(READERS, Shared, CacheVisits(blocks) + [Do(Planning)]) + Around(READERS, Exclusive, [Do(Committing)])
  }

  datatype Operation =
    | Get(inMemory: bool, blocks: nat)
    | Insert(freeze: bool)
    | Remove(inMemory: bool, blocks: nat, found: bool, freeze: bool)
    | Minor(frozen: nat)
    | Major(picked: bool, blocks: nat)
    | Info

  function Script(op: Operation): seq<Action> {
    match op
    case Get(m, b) => GetScript(m, b)
    case Insert(f) => InsertScript(f)
    case Remove(m, b, found, f) => GetScript(m, b) + if found then InsertScript(f) else []
    case Minor(c) => MinorScript(c)
    case Major(p, b) => MajorScript(p, b)
    case Info => Around(READERS, Shared, [Do(Listing)])
  }

  /** The operations a thread performs one after the other. */
  function Program(ops: seq<Operation>): seq<Action> {
    if ops == [] then [] else Script(ops[0]) + Program(ops[1..])
  }

  // ---- the discipline ----

  /** Where a thread stands in its operation: a write logged and not applied, a flush with so many tables to
      go, the current one added or not, or a compaction planned and not committed. */
  datatype Stage = Idle | Logged | Flushing(left: nat, added: bool) | Planned

  /** The stage after an effect, if the effect can come at that stage. */
  function Follow(stage: Stage, e: Effect): Option<Stage> {
    match e
    case Logging => if stage.Idle? then Some(Logged) else None
    case Applying(_) => if stage.Logged? then Some(Idle) else None
    case Counting(c) => if stage.Idle? then Some(if c == 0 then Idle else Flushing(c, false)) else None
    case Adding =>
      if stage.Flushing? && stage.left > 0 && !stage.added then Some(Flushing(stage.left, true)) else None
    case Dropping =>
      if stage.Flushing? && stage.left > 0 && stage.added then Some(Flushing(stage.left - 1, false)) else None
    case Popping => if stage == Flushing(0, false) then Some(Idle) else None
    case Planning => if stage.Idle? then Some(Planned) else None
    case Committing => if stage.Planned? then Some(Idle) else None
    case _ => if stage.Idle? then Some(Idle) else None
  }

  function StageAfter(done: seq<Effect>): Option<Stage> {
    if done == [] then Some(Idle)
    else
      var before := StageAfter(done[..|done| - 1]);
      if before.None? then None else Follow(before.value, done[|done| - 1])
  }

  /** The locks are held, in these modes. */
  predicate Includes(held: map<nat, Mode>, locks: map<nat, Mode>) {
    forall l :: l in locks ==> l in held && held[l] == locks[l]
  }

  /** The log stays locked as long as a logged write is not applied. */
  predicate Shielded(held: map<nat, Mode>, stage: Stage) {
    stage.Logged? ==> WAL in held && held[WAL] == Exclusive
  }

  /** Every lock taken ranks above all locks held, what is released is held, effects come in order and have
      the locks they rely on, a logged write is shielded until it is applied, and nothing is kept. */
  predicate Disciplined(held: map<nat, Mode>, todo: seq<Action>, stage: Stage)
    decreases |todo|
  {
    if todo == [] then held == map[] && stage.Idle?
    else
      && Shielded(held, stage)
      && match todo[0]
         case Acquire(l, m) => (forall h :: h in held ==> h < l) && Disciplined(held[l := m], todo[1..], stage)
         case Release(l) => l in held && Disciplined(held - {l}, todo[1..], stage)
         case Do(e) =>
           && Includes(held, Needs(e)) && Follow(stage, e).Some?
           && Disciplined(held, todo[1..], Follow(stage, e).value)
  }

  /** Actions that, with at least the locks `base` and none from `low` upwards, are disciplined, take a
      thread from one stage to another, and end with the locks they started with. */
  ghost predicate Neutral(s: seq<Action>, low: nat, base: map<nat, Mode>, from: Stage, to: Stage) {
    forall held, rest ::
      (forall h :: h in held ==> h < low) && Includes(held, base) && Disciplined(held, rest, to) ==>
        Disciplined(held, s + rest, from)
  }

  lemma NeutralEmpty(low: nat, base: map<nat, Mode>, stage: Stage)
    ensures Neutral([], low, base, stage, stage)
  {
    forall held: map<nat, Mode>, rest: seq<Action> | Disciplined(held, rest, stage)
      ensures Disciplined(held, [] + rest, stage)
    {
      assert [] + rest == rest;
    }
  }

  lemma NeutralDo(e: Effect, low: nat, base: map<nat, Mode>, from: Stage, to: Stage)
    requires Includes(base, Needs(e)) && Shielded(base, from) && Follow(from, e) == Some(to)
    ensures Neutral([Do(e)], low, base, from, to)
  {
    hide Needs, Follow;
    forall held: map<nat, Mode>, rest: seq<Action> | Includes(held, base) && Disciplined(held, rest, to)
      ensures Disciplined(held, [Do(e)] + rest, from)
    {
      assert ([Do(e)] + rest)[1..] == rest;
    }
  }

  lemma NeutralConcat(a: seq<Action>, b: seq<Action>, low: nat, base: map<nat, Mode>, from: Stage, mid: Stage,
                      to: Stage)
    requires Neutral(a, low, base, from, mid) && Neutral(b, low, base, mid, to)
    ensures Neutral(a + b, low, base, from, to)
  {
    forall held: map<nat, Mode>, rest: seq<Action> | (forall h :: h in held ==> h < low) && Includes(held, base) &&
        Disciplined(held, rest, to)
      ensures Disciplined(held, a + b + rest, from)
    {
      assert Disciplined(held, b + rest, mid);
      assert Disciplined(held, a + (b + rest), from);
      assert a + b + rest == a + (b + rest);
    }
  }

  /** A lock released at the end gives back the locks there were before it. */
  lemma ReleaseLast(lock: nat, mode: Mode, held: map<nat, Mode>, rest: seq<Action>, stage: Stage)
    requires lock !in held && Disciplined(held, rest, stage)
    ensures Disciplined(held[lock := mode], [Release(lock)] + rest, stage)
  {
    hide Follow, Needs, Includes;
    var more, after := held[lock := mode], [Release(lock)] + rest;
    assert more - {lock} == held && after[1..] == rest;
  }

  /** Nesting respects the order when the inner actions stay above the outer lock. */
  lemma NeutralAround(lock: nat, mode: Mode, inner: seq<Action>, low: nat, base: map<nat, Mode>, from: Stage, to: Stage)
    requires Neutral(inner, lock + 1, base[lock := mode], from, to) && low <= lock && Shielded(base, from)
    ensures Neutral(Around(lock, mode, inner), low, base, from, to)
  {
    forall held: map<nat, Mode>, rest: seq<Action> | (forall h :: h in held ==> h < low) && Includes(held, base) &&
        Disciplined(held, rest, to)
      ensures Disciplined(held, Around(lock, mode, inner) + rest, from)
    {
      NestedOnce(lock, mode, inner, low, base, from, to, held, rest);
    }
  }

  lemma NestedOnce(lock: nat, mode: Mode, inner: seq<Action>, low: nat, base: map<nat, Mode>, from: Stage, to: Stage,
                   held: map<nat, Mode>, rest: seq<Action>)
    requires Neutral(inner, lock + 1, base[lock := mode], from, to) && low <= lock && Shielded(base, from)
    requires (forall h :: h in held ==> h < low) && Includes(held, base) && Disciplined(held, rest, to)
    ensures Disciplined(held, Around(lock, mode, inner) + rest, from)
  {
    hide Follow, Needs, Neutral;
    var more, after := held[lock := mode], [Release(lock)] + rest;
    ReleaseLast(lock, mode, held, rest, to);
    UseNeutral(inner, lock + 1, base[lock := mode], from, to, more, after);
    var all := Around(lock, mode, inner) + rest;
    assert all[0] == Acquire(lock, mode) && all[1..] == inner + after;
  }

  lemma UseNeutral(s: seq<Action>, low: nat, base: map<nat, Mode>, from: Stage, to: Stage, held: map<nat, Mode>,
                   rest: seq<Action>)
    requires Neutral(s, low, base, from, to) && (forall h :: h in held ==> h < low) && Includes(held, base)
    requires Disciplined(held, rest, to)
    ensures Disciplined(held, s + rest, from)
  {
    hide Disciplined, Includes;
  }

  /** One lock around one effect. */
  lemma LeafNeutral(lock: nat, mode: Mode, e: Effect, low: nat, base: map<nat, Mode>, from: Stage, to: Stage)
    requires low <= lock && Includes(base[lock := mode], Needs(e)) && Follow(from, e) == Some(to)
    requires Shielded(base, from) && lock != WAL
    ensures Neutral(Around(lock, mode, [Do(e)]), low, base, from, to)
  {
    hide Neutral, Around, Needs, Includes, Follow;
    NeutralDo(e, lock + 1, base[lock := mode], from, to);
    NeutralAround(lock, mode, [Do(e)], low, base, from, to);
  }

  lemma {:induction false} CacheVisitsNeutral(n: nat, low: nat, base: map<nat, Mode>, stage: Stage)
    requires low <= CACHE && Shielded(base, stage)
    ensures Neutral(CacheVisits(n), low, base, stage, stage)
  {
    hide Neutral, Around, Shielded;
    NeutralEmpty(low, base, stage);
    if n > 0 {
      CacheVisitsNeutral(n - 1, low, base, stage);
      NeutralEmpty(CACHE + 1, base[CACHE := Exclusive], stage);
      NeutralAround(CACHE, Exclusive, [], low, base, stage, stage);
      NeutralConcat(CacheVisits(n - 1), Around(CACHE, Exclusive, []), low, base, stage, stage, stage);
    }
  }

  /** The flush loop takes `c` of the tables to go. */
  lemma {:induction false} FlushNeutral(c: nat, rest: nat)
    ensures Neutral(FlushScript(c), READERS, map[WAL := Exclusive, IMM := Shared], Flushing(c + rest, false),
                    Flushing(rest, false))
  {
    hide Neutral, Around, CacheVisits;
    var base := map[WAL := Exclusive, IMM := Shared];
    var last, mid, to := Flushing(rest + 1, false), Flushing(rest + 1, true), Flushing(rest, false);
    NeutralEmpty(READERS, base, to);
    if c > 0 {
      FlushNeutral(c - 1, rest + 1);
      CacheVisitsNeutral(1, READERS, base, last);
      LeafNeutral(READERS, Exclusive, Adding, READERS, base, last, mid);
      NeutralDo(Dropping, READERS, base, mid, to);
      var add := Around(READERS, Exclusive, [Do(Adding)]);
      NeutralConcat(add, [Do(Dropping)], READERS, base, last, mid, to);
      NeutralConcat(CacheVisits(1), add + [Do(Dropping)], READERS, base, last, last, to);
      NeutralConcat(FlushScript(c - 1), CacheVisits(1) + (add + [Do(Dropping)]), READERS, base,
                    Flushing(c + rest, false), last, to);
    }
  }

  lemma LevelsNeutral(blocks: nat)
    ensures Neutral(LevelsScript(blocks), READERS, map[MUT := Shared, IMM := Shared], Idle, Idle)
  {
    hide Neutral, Around, CacheVisits;
    var base := map[MUT := Shared, IMM := Shared];
    var more := base[READERS := Shared];
    CacheVisitsNeutral(blocks, CACHE, more, Idle);
    NeutralDo(SearchingLevels, CACHE, more, Idle, Idle);
    NeutralConcat(CacheVisits(blocks), [Do(SearchingLevels)], CACHE, more, Idle, Idle, Idle);
    NeutralAround(READERS, Shared, CacheVisits(blocks) + [Do(SearchingLevels)], READERS, base, Idle, Idle);
  }

  lemma GetNeutral(inMemory: bool, blocks: nat)
    ensures Neutral(GetScript(inMemory, blocks), 0, map[], Idle, Idle)
  {
    hide Neutral, Around, LevelsScript;
    var base := map[MUT := Shared, IMM := Shared];
    var tail := if inMemory then [] else LevelsScript(blocks);
    NeutralEmpty(READERS, base, Idle);
    LevelsNeutral(blocks);
    NeutralDo(SearchingMemtables, READERS, base, Idle, Idle);
    NeutralConcat([Do(SearchingMemtables)], tail, READERS, base, Idle, Idle, Idle);
    var inner := Around(IMM, Shared, [Do(SearchingMemtables)] + tail);
    assert map[MUT := Shared][IMM := Shared] == base;
    NeutralAround(IMM, Shared, [Do(SearchingMemtables)] + tail, IMM, map[MUT := Shared], Idle, Idle);
    assert map[][MUT := Shared] == map[MUT := Shared];
    NeutralAround(MUT, Shared, inner, 0, map[], Idle, Idle);
  }

  /** A write: the log's lock is held from before the log entry until the memtable has it. */
  lemma InsertNeutral(freeze: bool)
    ensures Neutral(InsertScript(freeze), 0, map[], Idle, Idle)
  {
    hide Neutral, Around;
    var w := map[WAL := Exclusive];
    var wm := w[MUT := Exclusive];
    NeutralDo(Applying(false), IMM, wm, Logged, Idle);
    LeafNeutral(IMM, Exclusive, Applying(true), IMM, wm, Logged, Idle);
    var apply := if freeze then Around(IMM, Exclusive, [Do(Applying(true))]) else [Do(Applying(false))];
    NeutralAround(MUT, Exclusive, apply, MUT, w, Logged, Idle);
    NeutralDo(Logging, MUT, w, Idle, Logged);
    NeutralConcat([Do(Logging)], Around(MUT, Exclusive, apply), MUT, w, Idle, Logged, Idle);
    assert map[][WAL := Exclusive] == w;
    NeutralAround(WAL, Exclusive, [Do(Logging)] + Around(MUT, Exclusive, apply), 0, map[], Idle, Idle);
  }

  lemma MinorNeutral(c: nat)
    ensures Neutral(MinorScript(c), 0, map[], Idle, Idle)
  {
    hide Neutral, Around, FlushScript;
    var w := map[WAL := Exclusive];
    var all, none := Flushing(c, false), Flushing(0, false);
    NeutralEmpty(0, map[], Idle);
    LeafNeutral(IMM, Shared, Counting(c), 0, map[], Idle, if c == 0 then Idle else all);
    LeafNeutral(IMM, Exclusive, Popping, 0, map[], none, Idle);
    FlushNeutral(c, 0);
    assert w[IMM := Shared] == map[WAL := Exclusive, IMM := Shared];
    NeutralAround(IMM, Shared, FlushScript(c), WAL + 1, w, all, none);
    var flush := Around(WAL, Exclusive, Around(IMM, Shared, FlushScript(c)));
    assert map[][WAL := Exclusive] == w;
    NeutralAround(WAL, Exclusive, Around(IMM, Shared, FlushScript(c)), 0, map[], all, none);
    var pop := Around(IMM, Exclusive, [Do(Popping)]);
    NeutralConcat(flush, pop, 0, map[], all, none, Idle);
    var tail := if c == 0 then [] else flush + pop;
    NeutralConcat(Around(IMM, Shared, [Do(Counting(c))]), tail, 0, map[], Idle, if c == 0 then Idle else all, Idle);
  }

  lemma MajorNeutral(picked: bool, blocks: nat)
    ensures Neutral(MajorScript(picked, blocks), 0, map[], Idle, Idle)
  {
    hide Neutral, Around, CacheVisits;
    NeutralEmpty(0, map[], Idle);
    LeafNeutral(READERS, Shared, Scoring, 0, map[], Idle, Idle);
    LeafNeutral(READERS, Exclusive, Committing, 0, map[], Planned, Idle);
    var r := map[READERS := Shared];
    assert map[][READERS := Shared] == r;
    CacheVisitsNeutral(blocks, CACHE, r, Idle);
    NeutralDo(Planning, CACHE, r, Idle, Planned);
    var plan := CacheVisits(blocks) + [Do(Planning)];
    NeutralConcat(CacheVisits(blocks), [Do(Planning)], CACHE, r, Idle, Idle, Planned);
    NeutralAround(READERS, Shared, plan, 0, map[], Idle, Planned);
    var merge, commit := Around(READERS, Shared, plan), Around(READERS, Exclusive, [Do(Committing)]);
    NeutralConcat(merge, commit, 0, map[], Idle, Planned, Idle);
    var tail := if picked then merge + commit else [];
    NeutralConcat(Around(READERS, Shared, [Do(Scoring)]), tail, 0, map[], Idle, Idle, Idle);
  }

  lemma ScriptNeutral(op: Operation)
    ensures Neutral(Script(op), 0, map[], Idle, Idle)
  {
    hide Neutral, GetScript, InsertScript, MinorScript, MajorScript, Around;
    match op
    case Get(m, b) => GetNeutral(m, b);
    case Insert(f) => InsertNeutral(f);
    case Remove(m, b, found, f) =>
      GetNeutral(m, b);
      InsertNeutral(f);
      NeutralEmpty(0, map[], Idle);
      NeutralConcat(GetScript(m, b), if found then InsertScript(f) else [], 0, map[], Idle, Idle, Idle);
    case Minor(c) => MinorNeutral(c);
    case Major(p, b) => MajorNeutral(p, b);
    case Info => LeafNeutral(READERS, Shared, Listing, 0, map[], Idle, Idle);
  }

  /** Every operation of the engine, alone or in sequence, respects the lock order. */
  lemma {:induction false} ProgramDisciplined(ops: seq<Operation>)
    ensures Disciplined(map[], Program(ops), Idle)
  {
    hide Script;
    if ops != [] {
      ProgramDisciplined(ops[1..]);
      ScriptNeutral(ops[0]);
      var held: map<nat, Mode> := map[];
      assert Includes(held, map[]);
      assert Disciplined(held, Script(ops[0]) + Program(ops[1..]), Idle);
    }
  }

  // ---- threads running together ----

  type Threads = seq<Thread>

  predicate Done(ts: Threads) {
    forall i :: 0 <= i < |ts| ==> ts[i].todo == []
  }

  predicate Wants(t: Thread, l: nat, m: Mode) {
    t.todo != [] && t.todo[0] == Acquire(l, m)
  }

  predicate Holds(t: Thread, l: nat) {
    l in t.held
  }

  predicate HoldsExclusive(t: Thread, l: nat) {
    l in t.held && t.held[l] == Exclusive
  }

  /** What a reader-writer lock never forbids its users to do, whatever its fairness. */
  ghost predicate CanStep(ts: Threads, i: nat)
    requires i < |ts|
  {
    && ts[i].todo != []
    && (ts[i].todo[0].Acquire? ==>
          var l := ts[i].todo[0].lock;
          if ts[i].todo[0].mode == Exclusive
          then forall j :: 0 <= j < |ts| && j != i ==> !Holds(ts[j], l)
          else forall j :: 0 <= j < |ts| && j != i ==> !HoldsExclusive(ts[j], l))
  }

  /** What it lets them do even if it prefers waiting writers over new readers. */
  ghost predicate SurelyStep(ts: Threads, i: nat)
    requires i < |ts|
  {
    && CanStep(ts, i)
    && (ts[i].todo[0].Acquire? && ts[i].todo[0].mode == Shared ==>
          forall j :: 0 <= j < |ts| && j != i ==> !Wants(ts[j], ts[i].todo[0].lock, Exclusive))
  }

  function Advance(t: Thread): Thread
    requires t.todo != []
  {
    match t.todo[0]
    case Acquire(l, m) => Thread(t.held[l := m], t.todo[1..], t.done)
    case Release(l) => Thread(t.held - {l}, t.todo[1..], t.done)
    case Do(e) => Thread(t.held, t.todo[1..], t.done + [e])
  }

  /** Threads that have not started, each with its operations. */
  function Start(programs: seq<seq<Operation>>): (ts: Threads)
    ensures |ts| == |programs|
    ensures forall i :: 0 <= i < |ts| ==> ts[i] == Thread(map[], Program(programs[i]), [])
  {
    seq(|programs|, i requires 0 <= i < |programs| => Thread(map[], Program(programs[i]), []))
  }

  /** The threads after a schedule, if every step of it was possible. */
  ghost predicate Reaches(programs: seq<seq<Operation>>, schedule: seq<nat>, ts: Threads) {
    if schedule == [] then ts == Start(programs)
    else
      var n := |schedule| - 1;
      exists was: Threads ::
        && Reaches(programs, schedule[..n], was) && schedule[n] < |was| && CanStep(was, schedule[n])
        && ts == was[schedule[n] := Advance(was[schedule[n]])]
  }

  /** What the thread has done is in order, and what it has yet to do is disciplined from there. */
  predicate Orderly(t: Thread) {
    StageAfter(t.done).Some? && Disciplined(t.held, t.todo, StageAfter(t.done).value)
  }

  ghost predicate AllDisciplined(ts: Threads) {
    forall i :: 0 <= i < |ts| ==> Orderly(ts[i])
  }

  lemma AdvanceOrderly(t: Thread)
    requires Orderly(t) && t.todo != []
    ensures Orderly(Advance(t))
  {
    hide Follow, Needs;
    if t.todo[0].Do? {
      var done := Advance(t).done;
      assert done[..|done| - 1] == t.done;
    }
  }

  /** A lock held exclusively is held by nobody else. */
  ghost predicate Excludes(ts: Threads) {
    forall i, j, l :: 0 <= i < |ts| && 0 <= j < |ts| && i != j && HoldsExclusive(ts[i], l) ==> !Holds(ts[j], l)
  }

  lemma {:induction false} ReachedInvariant(programs: seq<seq<Operation>>, schedule: seq<nat>, ts: Threads)
    requires Reaches(programs, schedule, ts)
    ensures AllDisciplined(ts) && Excludes(ts)
  {
    hide Disciplined;
    if schedule == [] {
      forall i | 0 <= i < |ts| ensures Orderly(ts[i]) { ProgramDisciplined(programs[i]); }
    } else {
      var n := |schedule| - 1;
      var was: Threads :| Reaches(programs, schedule[..n], was) && schedule[n] < |was| && CanStep(was, schedule[n])
                          && ts == was[schedule[n] := Advance(was[schedule[n]])];
      ReachedInvariant(programs, schedule[..n], was);
      StepExcludes(was, schedule[n]);
      AdvanceOrderly(was[schedule[n]]);
    }
  }

  lemma StepExcludes(was: Threads, i: nat)
    requires i < |was| && CanStep(was, i) && Excludes(was)
    ensures Excludes(was[i := Advance(was[i])])
  {
    var ts := was[i := Advance(was[i])];
    forall a, b, l | 0 <= a < |ts| && 0 <= b < |ts| && a != b && HoldsExclusive(ts[a], l) ensures !Holds(ts[b], l) {
      if a != i && b != i {
        assert HoldsExclusive(was[a], l);
      } else if a == i {
        assert HoldsExclusive(was[i], l) || was[i].todo[0] == Acquire(l, Exclusive);
      } else {
        assert HoldsExclusive(was[a], l) && !Holds(was[i], l);
      }
    }
  }

  /** The thread waiting for the highest lock, if any thread waits. */
  lemma {:induction false} HighestWaiter(ts: Threads, upTo: nat) returns (w: int)
    requires upTo <= |ts|
    ensures w == -1 || (0 <= w < upTo && ts[w].todo != [] && ts[w].todo[0].Acquire?)
    ensures w == -1 ==> forall i :: 0 <= i < upTo && ts[i].todo != [] ==> !ts[i].todo[0].Acquire?
    ensures w != -1 ==> forall i :: 0 <= i < upTo && ts[i].todo != [] && ts[i].todo[0].Acquire? ==>
                          ts[i].todo[0].lock <= ts[w].todo[0].lock
  {
    if upTo == 0 {
      w := -1;
    } else {
      w := HighestWaiter(ts, upTo - 1);
      var t := ts[upTo - 1];
      if t.todo != [] && t.todo[0].Acquire? && (w == -1 || t.todo[0].lock > ts[w].todo[0].lock) {
        w := upTo - 1;
      }
    }
  }

  /** A disciplined thread that holds a lock has something to do, and waits only for higher locks. */
  lemma HolderWants(t: Thread, l: nat)
    requires Orderly(t) && Holds(t, l)
    ensures t.todo != [] && (t.todo[0].Acquire? ==> t.todo[0].lock > l)
  {
  }

  lemma SomeoneSteps(ts: Threads) returns (i: nat)
    requires AllDisciplined(ts) && !Done(ts)
    ensures i < |ts| && SurelyStep(ts, i)
  {
    var w := HighestWaiter(ts, |ts|);
    if w == -1 {
      i :| 0 <= i < |ts| && ts[i].todo != [];
    } else {
      var l := ts[w].todo[0].lock;
      if h :| 0 <= h < |ts| && Holds(ts[h], l) {
        HolderWants(ts[h], l);
        i := h;
      } else if e :| 0 <= e < |ts| && Wants(ts[e], l, Exclusive) {
        i := e;
      } else {
        i := w;
      }
    }
  }

  /** In every state that any interleaving of any operations reaches, some thread can go on,
      however the locks treat waiting writers, until all are done. */
  lemma NoDeadlock(programs: seq<seq<Operation>>, schedule: seq<nat>, ts: Threads) returns (i: nat)
    requires Reaches(programs, schedule, ts) && !Done(ts)
    ensures i < |ts| && SurelyStep(ts, i)
  {
    ReachedInvariant(programs, schedule, ts);
    i := SomeoneSteps(ts);
  }

  /** `t` cannot go on before `u` releases a lock. */
  predicate WaitsFor(t: Thread, u: Thread) {
    t.todo != [] && t.todo[0].Acquire? && Holds(u, t.todo[0].lock)
  }

  /** Along a chain of waiting threads the awaited locks rise. */
  lemma {:induction false} ChainRises(ts: Threads, chain: seq<nat>)
    requires AllDisciplined(ts) && |chain| >= 2 && forall x :: 0 <= x < |chain| ==> chain[x] < |ts|
    requires forall x :: 0 <= x < |chain| - 1 ==> WaitsFor(ts[chain[x]], ts[chain[x + 1]])
    ensures WaitsFor(ts[chain[|chain| - 2]], ts[chain[|chain| - 1]])
    ensures WaitsFor(ts[chain[0]], ts[chain[1]])
    ensures ts[chain[0]].todo[0].lock <= ts[chain[|chain| - 2]].todo[0].lock
    ensures Holds(ts[chain[|chain| - 1]], ts[chain[|chain| - 2]].todo[0].lock)
  {
    var n := |chain|;
    assert WaitsFor(ts[chain[n - 2]], ts[chain[n - 2 + 1]]) && WaitsFor(ts[chain[0]], ts[chain[0 + 1]]);
    if n > 2 {
      ChainRises(ts, chain[..n - 1]);
      HolderWants(ts[chain[n - 2]], ts[chain[n - 3]].todo[0].lock);
    }
  }

  /** So no reachable state has threads waiting for each other in a circle. */
  lemma NoWaitCycle(programs: seq<seq<Operation>>, schedule: seq<nat>, ts: Threads, chain: seq<nat>)
    requires Reaches(programs, schedule, ts)
    requires |chain| >= 2 && forall x :: 0 <= x < |chain| ==> chain[x] < |ts|
    requires forall x :: 0 <= x < |chain| - 1 ==> WaitsFor(ts[chain[x]], ts[chain[x + 1]])
    ensures chain[0] != chain[|chain| - 1]
  {
    ReachedInvariant(programs, schedule, ts);
    ChainRises(ts, chain);
    HolderWants(ts[chain[|chain| - 1]], ts[chain[|chain| - 2]].todo[0].lock);
  }

  function Left(ts: Threads): nat {
    if ts == [] then 0 else |ts[0].todo| + Left(ts[1..])
  }

  lemma {:induction false} StepShortens(ts: Threads, i: nat)
    requires i < |ts| && ts[i].todo != []
    ensures Left(ts[i := Advance(ts[i])]) == Left(ts) - 1
  {
    var now := ts[i := Advance(ts[i])];
    if i == 0 {
      assert now[1..] == ts[1..];
    } else {
      StepShortens(ts[1..], i - 1);
      assert now[1..] == ts[1..][i - 1 := Advance(ts[i])];
    }
  }

  /** And no schedule is longer than the work there is: together with `NoDeadlock`, every
      run ends with all operations finished. */
  lemma {:induction false} SchedulesAreBounded(programs: seq<seq<Operation>>, schedule: seq<nat>, ts: Threads)
    requires Reaches(programs, schedule, ts)
    ensures |schedule| + Left(ts) == Left(Start(programs))
  {
    hide Left;
    if schedule != [] {
      var n := |schedule| - 1;
      var was: Threads :| Reaches(programs, schedule[..n], was) && schedule[n] < |was| && CanStep(was, schedule[n])
                          && ts == was[schedule[n] := Advance(was[schedule[n]])];
      SchedulesAreBounded(programs, schedule[..n], was);
      StepShortens(was, schedule[n]);
    }
  }

  lemma StepReaches(programs: seq<seq<Operation>>, schedule: seq<nat>, ts: Threads, i: nat)
    requires Reaches(programs, schedule, ts) && i < |ts| && CanStep(ts, i)
    ensures Reaches(programs, schedule + [i], ts[i := Advance(ts[i])])
  {
    hide CanStep;
    assert (schedule + [i])[..|schedule|] == schedule;
  }

  /** Wherever a run stands, it can be completed. */
  lemma EveryRunCanFinish(programs: seq<seq<Operation>>, schedule: seq<nat>, ts: Threads)
                          returns (more: seq<nat>, end: Threads)
    requires Reaches(programs, schedule, ts)
    ensures Reaches(programs, schedule + more, end) && Done(end)
    decreases Left(ts)
  {
    hide Reaches, Left;
    if Done(ts) {
      more, end := [], ts;
      assert schedule + [] == schedule;
    } else {
      var i := NoDeadlock(programs, schedule, ts);
      var next, longer := ts[i := Advance(ts[i])], schedule + [i];
      StepReaches(programs, schedule, ts, i);
      StepShortens(ts, i);
      more, end := EveryRunCanFinish(programs, longer, next);
      assert schedule + ([i] + more) == longer + more;
      more := [i] + more;
    }
  }

  // ---- inside a lookup ----

  /** The thread has searched the memtables and is on its way to the levels. */
  predicate Looking(todo: seq<Action>) {
    todo != [] &&
    match todo[0]
    case Do(e) => e == SearchingLevels
    case Acquire(l, _) => l > IMM && Looking(todo[1..])
    case Release(l) => l > IMM && Looking(todo[1..])
  }

  lemma {:induction false} VisitsLook(n: nat, rest: seq<Action>)
    requires Looking(rest)
    ensures Looking(CacheVisits(n) + rest)
  {
    if n == 0 {
      assert CacheVisits(0) + rest == rest;
    } else {
      var visit := Around(CACHE, Exclusive, []);
      assert (visit + rest)[1..] == [Release(CACHE)] + rest && ([Release(CACHE)] + rest)[1..] == rest;
      VisitsLook(n - 1, visit + rest);
      assert CacheVisits(n) + rest == CacheVisits(n - 1) + (visit + rest);
    }
  }

  /** That is where a lookup stands after the memtables did not have the key. */
  lemma LookupLooks(blocks: nat, rest: seq<Action>)
    ensures Looking(LevelsScript(blocks) + rest)
  {
    hide CacheVisits;
    var tail := [Do(SearchingLevels)] + ([Release(READERS)] + rest);
    VisitsLook(blocks, tail);
    var all := LevelsScript(blocks) + rest;
    assert all[1..] == CacheVisits(blocks) + tail;
  }

  /** All that time it holds both memtables' locks. */
  lemma {:induction false} LookingHolds(held: map<nat, Mode>, todo: seq<Action>, stage: Stage)
    requires Disciplined(held, todo, stage) && Looking(todo)
    ensures MUT in held && IMM in held
    decreases |todo|
  {
    match todo[0]
    case Do(e) => assert MUT in Needs(e) && IMM in Needs(e);
    case Acquire(l, m) => LookingHolds(held[l := m], todo[1..], stage);
    case Release(l) => LookingHolds(held - {l}, todo[1..], stage);
  }

  predicate NeedsAlone(e: Effect, l: nat) {
    l in Needs(e) && Needs(e)[l] == Exclusive
  }

  /** So while a lookup is between its two searches, no other thread is doing anything that needs a
      memtable's lock for itself. */
  lemma LookupIsShielded(programs: seq<seq<Operation>>, schedule: seq<nat>, ts: Threads, i: nat, j: nat, e: Effect)
    requires Reaches(programs, schedule, ts) && i < |ts| && j < |ts| && i != j
    requires Looking(ts[i].todo) && ts[j].todo != [] && ts[j].todo[0] == Do(e)
    ensures !NeedsAlone(e, MUT) && !NeedsAlone(e, IMM)
  {
    hide Needs;
    ReachedInvariant(programs, schedule, ts);
    LookingHolds(ts[i].held, ts[i].todo, StageAfter(ts[i].done).value);
    assert Includes(ts[j].held, Needs(e));
    assert forall l :: NeedsAlone(e, l) ==> HoldsExclusive(ts[j], l);
    assert Holds(ts[i], MUT) && Holds(ts[i], IMM);
  }

  // ---- one write at a time ----

  /** A write of this thread has been logged and is not yet applied. */
  ghost predicate WriteInFlight(done: seq<Effect>) {
    exists a :: 0 <= a < |done| && done[a] == Logging && forall b :: a < b < |done| ==> !done[b].Applying?
  }

  lemma {:induction false} InFlightStage(done: seq<Effect>)
    requires StageAfter(done).Some?
    ensures WriteInFlight(done) <==> StageAfter(done).value == Logged
  {
    if done != [] {
      var n := |done| - 1;
      InFlightStage(done[..n]);
      if StageAfter(done[..n]).value == Logged {
        var a :| 0 <= a < n && done[..n][a] == Logging && forall b :: a < b < n ==> !done[..n][b].Applying?;
        assert done[a] == Logging && forall b :: a < b < n ==> done[b] == done[..n][b];
      }
    }
  }

  /** In every reachable state, while a write of one thread is logged and not yet applied, no other thread
      logs or applies a write, adds a flushed table or drops a log segment. */
  lemma WritesDoNotMix(programs: seq<seq<Operation>>, schedule: seq<nat>, ts: Threads, i: nat, j: nat, e: Effect)
    requires Reaches(programs, schedule, ts) && i < |ts| && j < |ts| && i != j
    requires WriteInFlight(ts[i].done) && ts[j].todo != [] && ts[j].todo[0] == Do(e)
    ensures !e.Logging? && !e.Applying? && !e.Adding? && !e.Dropping?
    ensures !WriteInFlight(ts[j].done)
  {
    hide StageAfter, WriteInFlight, Follow;
    ReachedInvariant(programs, schedule, ts);
    LoggedHoldsLog(ts[i]);
    InFlightStage(ts[j].done);
    assert Shielded(ts[j].held, StageAfter(ts[j].done).value) && Includes(ts[j].held, Needs(e));
    assert HoldsExclusive(ts[i], WAL);
    assert !Holds(ts[j], WAL);
  }

  lemma LoggedHoldsLog(t: Thread)
    requires Orderly(t) && WriteInFlight(t.done)
    ensures HoldsExclusive(t, WAL) && StageAfter(t.done) == Some(Logged)
  {
    hide StageAfter, WriteInFlight;
    InFlightStage(t.done);
  }

  // ---- no data races ----

  /** The shared parts of the engine. */
  datatype Part = TheLog | TheMemtable | TheFrozen | TheLevels

  /** The parts an effect looks at. */
  function Reads(e: Effect): set<Part> {
    match e
    case Logging => {}
    case Applying(_) => {TheLog}
    case SearchingMemtables => {TheMemtable, TheFrozen}
    case SearchingLevels => {TheLevels}
    case Counting(_) => {TheFrozen}
    case Adding => {TheFrozen}
    case Dropping => {}
    case Popping => {}
    case Scoring => {TheLevels}
    case Planning => {TheLevels}
    case Committing => {}
    case Listing => {TheLevels}
  }

  /** The parts an effect changes. */
  function Writes(e: Effect): set<Part> {
    match e
    case Logging => {TheLog}
    case Applying(freeze) => if freeze then {TheLog, TheMemtable, TheFrozen} else {TheMemtable}
    case Adding => {TheLevels}
    case Dropping => {TheLog}
    case Popping => {TheFrozen}
    case Committing => {TheLevels}
    case _ => {}
  }

  /** In every reachable state, what one thread is changing no other thread is looking at or changing. */
  lemma NoRace(programs: seq<seq<Operation>>, schedule: seq<nat>, ts: Threads, i: nat, j: nat, e: Effect, f: Effect)
    requires Reaches(programs, schedule, ts) && i < |ts| && j < |ts| && i != j
    requires ts[i].todo != [] && ts[i].todo[0] == Do(e) && ts[j].todo != [] && ts[j].todo[0] == Do(f)
    ensures Writes(e) * (Reads(f) + Writes(f)) == {}
  {
    hide Needs, Reads, Writes;
    ReachedInvariant(programs, schedule, ts);
    assert Includes(ts[i].held, Needs(e)) && Includes(ts[j].held, Needs(f));
    forall x | x in Writes(e) ensures x !in Reads(f) && x !in Writes(f) {
      Guarded(e, x);
      Guarded(f, x);
      assert HoldsExclusive(ts[i], Guard(x));
      assert !Holds(ts[j], Guard(x));
    }
  }

  /** The lock of each part. */
  function Guard(x: Part): nat {
    match x case TheLog => WAL case TheMemtable => MUT case TheFrozen => IMM case TheLevels => READERS
  }

  lemma Guarded(e: Effect, x: Part)
    ensures x in Reads(e) ==> Guard(x) in Needs(e)
    ensures x in Writes(e) ==> NeedsAlone(e, Guard(x))
  {
  }
}

/** The k-way merging iterator that major compaction reads from (mirdb-server/src/merger.rs). */
module Mergers {
  import opened Bytes
  import opened Runs
  import opened Cursors

  /** Inputs a merger accepts: strictly sorted runs of non-empty keys. */
  ghost predicate Mergeable(runs: seq<Run>) {
    AllSorted(runs) && forall i :: 0 <= i < |runs| ==> NonEmptyKeys(runs[i])
  }

  ghost predicate Over(iters: seq<Cursor>, runs: seq<Run>) {
    |iters| == |runs| && forall j :: 0 <= j < |iters| ==> iters[j].run == runs[j] && iters[j].Valid()
  }

  ghost predicate HasPending(c: Cursor)
    requires c.Valid()
  {
    c.Start() < |c.run|
  }

  /** The next key an input will deliver. */
  ghost function Head(c: Cursor): Key
    requires c.Valid() && HasPending(c)
  {
    c.run[c.Start()].key
  }

  ghost predicate PendingKey(c: Cursor, k: Key)
    requires c.Valid()
  {
    exists y :: c.Start() <= y < |c.run| && c.run[y].key == k
  }

  ghost predicate EmittedKey(emitted: Run, k: Key) {
    exists x :: 0 <= x < |emitted| && emitted[x].key == k
  }

  /** A read entry was emitted, or the same key is still pending in an earlier input. */
  ghost predicate Accounted(iters: seq<Cursor>, emitted: Run, j: nat, k: Key)
    requires j <= |iters| && forall a :: 0 <= a < |iters| ==> iters[a].Valid()
  {
    EmittedKey(emitted, k) || exists a :: 0 <= a < j && PendingKey(iters[a], k)
  }

  /** What holds between two calls of `advance`. Some inputs may have been read ahead of the
      output, but never past a key that an earlier input still owes. */
  ghost predicate MergerInv(iters: seq<Cursor>, runs: seq<Run>, emitted: Run)
  {
    && Over(iters, runs)
    && Sorted(emitted)
    && (forall x :: 0 <= x < |emitted| ==> FindFirst(runs, emitted[x].key) == Some(emitted[x].value))
    && (forall j, y, x :: 0 <= j < |runs| && iters[j].Start() <= y < |runs[j]| && 0 <= x < |emitted| ==>
          Less(emitted[x].key, runs[j][y].key))
    && (forall j, y :: 0 <= j < |runs| && 0 <= y < iters[j].Start() ==>
          Accounted(iters, emitted, j, runs[j][y].key))
  }

  /** Input `j` kept its pending entries through a pass. */
  ghost predicate Kept(was: Cursor, now: Cursor)
    requires was.Valid() && now.Valid()
  {
    HasPending(was) && now.Start() == was.Start()
  }

  /** Input `j` read one entry in a pass. */
  ghost predicate Took(was: Cursor, now: Cursor)
    requires was.Valid() && now.Valid()
  {
    HasPending(was) && now.Start() == was.Start() + 1
  }

  /** Why input `j` may have read its head: the head is the candidate, or an earlier input kept it. */
  ghost predicate Excused(was: seq<Cursor>, now: seq<Cursor>, j: nat, pk: Key)
    requires j < |was| == |now| && forall a :: 0 <= a < |was| ==> was[a].Valid() && now[a].Valid()
    requires HasPending(was[j])
  {
    Head(was[j]) == pk || exists a :: 0 <= a < j && Kept(was[a], now[a]) && Head(was[a]) == Head(was[j])
  }

  /** One input after the pass went by it, given the candidate key. */
  ghost predicate Settled(was: seq<Cursor>, now: seq<Cursor>, j: nat, pk: Key)
    requires j < |was| == |now| && forall a :: 0 <= a < |was| ==> was[a].Valid() && now[a].Valid()
  {
    HasPending(was[j]) ==>
      && !Less(Head(was[j]), pk)
      && (Kept(was[j], now[j]) || Took(was[j], now[j]))
      && (Kept(was[j], now[j]) ==> Less(pk, Head(was[j])))
      && (Took(was[j], now[j]) ==> Excused(was, now, j, pk))
  }

  /** The state of one pass of `advance` before it looks at input `i`. */
  ghost predicate PassInv(was: seq<Cursor>, now: seq<Cursor>, runs: seq<Run>, i: nat, pk: Option<Key>, pi: Option<nat>)
  {
    && i <= |runs| && Over(was, runs) && Over(now, runs)
    && (forall j :: i <= j < |runs| ==> now[j] == was[j])
    && (forall j :: 0 <= j < i && !HasPending(was[j]) ==> !HasPending(now[j]))
    && pk.Some? == pi.Some?
    && (pk.None? ==> forall j :: 0 <= j < i ==> !HasPending(was[j]))
    && (pk.Some? ==>
          && pi.value < i && HasPending(was[pi.value]) && Head(was[pi.value]) == pk.value
          && now[pi.value].pos == was[pi.value].Start()
          && (forall j :: 0 <= j < pi.value && HasPending(was[j]) ==> Head(was[j]) != pk.value)
          && (forall j :: 0 <= j < i ==> Settled(was, now, j, pk.value)))
  }

  class Merger {
    var iters: seq<Cursor>
    var i: Option<nat>
    ghost const runs: seq<Run>
    ghost var emitted: Run

    ghost predicate Valid()
      reads this
    {
      Mergeable(runs) && MergerInv(iters, runs, emitted)
    }

    constructor (inputs: seq<Run>)
      requires Mergeable(inputs)
      ensures Valid() && runs == inputs && emitted == []
    {
      runs := inputs;
      iters := seq(|inputs|, j requires 0 <= j < |inputs| => Cursor(inputs[j], -1));
      i := None;
      emitted := [];
    }

    /** Advances every input and steps the losers back. It answers whether a key was found; the
        winner is the lowest input holding the least pending key. */
    method Advance() returns (found: bool)
      requires Valid()
      modifies this
      ensures Valid()
      ensures !found ==> emitted == old(emitted) == MergeRuns(runs) && i == None
      ensures found ==> |emitted| == |old(emitted)| + 1 && old(emitted) == emitted[..|old(emitted)|]
      ensures found ==> i.Some? && i.value < |iters| && iters[i.value].OnEntry()
      ensures found ==> iters[i.value].run[iters[i.value].pos] == emitted[|old(emitted)|]
      ensures found ==> TotalPending(iters) < old(TotalPending(iters))
    {
      var pk: Option<Key> := None;
      var pi: Option<nat> := None;
      var i := 0;
      ghost var was := iters;
      while i < |iters|
        modifies `iters
        invariant PassInv(was, iters, runs, i, pk, pi)
      {
        ghost var before := iters;
        iters := iters[i := iters[i].Advance()];
        var nk := if iters[i].OnEntry() then iters[i].CurrentK() else None;
        if nk.None? {
          PassExhausted(was, before, runs, i, pk, pi);
          i := i + 1;
          continue;
        }
        if pk.Some? {
          if Less(nk.value, pk.value) {
            iters := iters[pi.value := iters[pi.value].Prev()];
            PassBetter(was, before, runs, i, pk.value, pi.value);
            pk := nk;
            pi := Some(i);
          } else if Less(pk.value, nk.value) {
            iters := iters[i := iters[i].Prev()];
            PassWorse(was, before, runs, i, pk.value, pi.value);
          } else {
            PassTie(was, before, runs, i, pk.value, pi.value);
          }
        } else {
          PassFirst(was, before, runs, i);
          pk := nk;
          pi := Some(i);
        }
        i := i + 1;
      }
      this.i := pi;
      found := pk.Some?;
      if found {
        var e := iters[pi.value].run[iters[pi.value].pos];
        PassEmits(was, iters, runs, pk.value, pi.value, emitted);
        PendingDrops(was, iters, runs, pi.value);
        emitted := emitted + [e];
      } else {
        PassDone(was, iters, runs, emitted);
      }
    }

    /** `next` of the iterator trait: one merged entry, or none when all inputs are used up. */
    method Next() returns (r: Option<Entry>)
      requires Valid()
      modifies this
      ensures Valid()
      ensures r.Some? ==> emitted == old(emitted) + [r.value]
      ensures r.None? ==> emitted == old(emitted) == MergeRuns(runs)
      ensures r.Some? ==> TotalPending(iters) < old(TotalPending(iters))
    {
      var found := Advance();
      if !found {
        r := None;
      } else {
        var c := iters[i.value];
        assert c.run == runs[i.value];
        r := Some(Entry(c.CurrentK().value, c.CurrentV().value));
      }
    }
  }

  // ---- one input of a pass ----

  lemma PassExhausted(was: seq<Cursor>, now: seq<Cursor>, runs: seq<Run>, i: nat, pk: Option<Key>, pi: Option<nat>)
    requires Mergeable(runs) && PassInv(was, now, runs, i, pk, pi) && i < |runs|
    requires now[i].Advance().CurrentK().None?
    ensures PassInv(was, now[i := now[i].Advance()], runs, i + 1, pk, pi)
  {
    var next := now[i := now[i].Advance()];
    assert !HasPending(was[i]) by { assert now[i] == was[i] && was[i].run == runs[i]; }
    if pk.Some? {
      forall j | 0 <= j < i + 1 ensures Settled(was, next, j, pk.value) {
        if j < i { SettledFrame(was, now, next, j, pk.value, pk.value); }
      }
    }
  }

  /** Changing other inputs keeps an input settled while the kept inputs stay kept. */
  lemma SettledFrame(was: seq<Cursor>, now: seq<Cursor>, next: seq<Cursor>, j: nat, pk: Key, nk: Key)
    requires j < |was| == |now| == |next|
    requires forall a :: 0 <= a < |was| ==> was[a].Valid() && now[a].Valid() && next[a].Valid()
    requires Settled(was, now, j, pk) && next[j] == now[j]
    requires forall a :: 0 <= a < j && Kept(was[a], now[a]) ==> Kept(was[a], next[a])
    requires nk == pk || Less(nk, pk)
    requires HasPending(was[j]) && Head(was[j]) == pk && nk != pk ==>
               Kept(was[j], next[j]) || exists a :: 0 <= a < j && Kept(was[a], next[a]) && Head(was[a]) == pk
    ensures Settled(was, next, j, nk)
  {
    if HasPending(was[j]) {
      var h := Head(was[j]);
      if nk != pk {
        LessTotal(h, pk);
        if h != pk { LessTransitive(nk, pk, h); }
        LessAsymmetric(nk, h);
        if Kept(was[j], next[j]) && Less(pk, h) { LessTransitive(nk, pk, h); }
      }
      if Took(was[j], now[j]) && h != pk {
        var a :| 0 <= a < j && Kept(was[a], now[a]) && Head(was[a]) == h;
        assert Kept(was[a], next[a]);
      }
    }
  }

  lemma PassFirst(was: seq<Cursor>, now: seq<Cursor>, runs: seq<Run>, i: nat)
    requires Mergeable(runs) && PassInv(was, now, runs, i, None, None) && i < |runs|
    requires now[i].Advance().CurrentK().Some?
    ensures PassInv(was, now[i := now[i].Advance()], runs, i + 1, now[i].Advance().CurrentK(), Some(i))
  {
    LessIrreflexive(Head(was[i]));
  }

  lemma PassTie(was: seq<Cursor>, now: seq<Cursor>, runs: seq<Run>, i: nat, pk: Key, pi: nat)
    requires Mergeable(runs) && PassInv(was, now, runs, i, Some(pk), Some(pi)) && i < |runs|
    requires now[i].Advance().CurrentK().Some?
    requires var nk := now[i].Advance().CurrentK().value; !Less(nk, pk) && !Less(pk, nk)
    ensures PassInv(was, now[i := now[i].Advance()], runs, i + 1, Some(pk), Some(pi))
  {
    var next := now[i := now[i].Advance()];
    LessTotal(Head(was[i]), pk);
    LessIrreflexive(pk);
    forall j | 0 <= j < i + 1 ensures Settled(was, next, j, pk) {
      if j < i { SettledFrame(was, now, next, j, pk, pk); }
    }
  }

  lemma PassWorse(was: seq<Cursor>, now: seq<Cursor>, runs: seq<Run>, i: nat, pk: Key, pi: nat)
    requires Mergeable(runs) && PassInv(was, now, runs, i, Some(pk), Some(pi)) && i < |runs|
    requires now[i].Advance().CurrentK().Some?
    requires Less(pk, now[i].Advance().CurrentK().value)
    ensures PassInv(was, now[i := now[i].Advance().Prev()], runs, i + 1, Some(pk), Some(pi))
    ensures now[i := now[i].Advance()][i := now[i].Advance().Prev()] == now[i := now[i].Advance().Prev()]
  {
    var next := now[i := now[i].Advance().Prev()];
    LessAsymmetric(Head(was[i]), pk);
    forall j | 0 <= j < i + 1 ensures Settled(was, next, j, pk) {
      if j < i { SettledFrame(was, now, next, j, pk, pk); }
    }
  }

  lemma PassBetter(was: seq<Cursor>, now: seq<Cursor>, runs: seq<Run>, i: nat, pk: Key, pi: nat)
    requires Mergeable(runs) && PassInv(was, now, runs, i, Some(pk), Some(pi)) && i < |runs|
    requires now[i].Advance().CurrentK().Some?
    requires Less(now[i].Advance().CurrentK().value, pk)
    ensures var next := now[i := now[i].Advance()][pi := now[pi].Prev()];
            PassInv(was, next, runs, i + 1, now[i].Advance().CurrentK(), Some(i))
  {
    var next := now[i := now[i].Advance()][pi := now[pi].Prev()];
    var nk := Head(was[i]);
    LessIrreflexive(nk);
    LessAsymmetric(nk, pk);
    assert Kept(was[pi], next[pi]);
    forall j | 0 <= j < i + 1 ensures Settled(was, next, j, nk) {
      if j < i && j != pi { SettledFrame(was, now, next, j, pk, nk); }
    }
    forall j | 0 <= j < i && HasPending(was[j]) ensures Head(was[j]) != nk {
      assert Settled(was, now, j, pk);
    }
  }

  // ---- a finished pass ----

  /** Nothing was pending: the output is complete. */
  lemma PassDone(was: seq<Cursor>, now: seq<Cursor>, runs: seq<Run>, emitted: Run)
    requires Mergeable(runs) && MergerInv(was, runs, emitted)
    requires PassInv(was, now, runs, |runs|, None, None)
    ensures MergerInv(now, runs, emitted) && emitted == MergeRuns(runs)
  {
    hide Less, LowerBound, Find;
    forall j, y | 0 <= j < |runs| && 0 <= y < |runs[j]|
      ensures EmittedKey(emitted, runs[j][y].key)
    {
      assert Accounted(was, emitted, j, runs[j][y].key);
    }
    CompleteIsMerge(runs, emitted);
  }

  /** An output that holds every input key, each with its first value, is the reference merge. */
  lemma CompleteIsMerge(runs: seq<Run>, emitted: Run)
    requires AllSorted(runs) && Sorted(emitted)
    requires forall x :: 0 <= x < |emitted| ==> FindFirst(runs, emitted[x].key) == Some(emitted[x].value)
    requires forall j, y :: 0 <= j < |runs| && 0 <= y < |runs[j]| ==> EmittedKey(emitted, runs[j][y].key)
    ensures emitted == MergeRuns(runs)
  {
    hide Less, LowerBound, Find;
    MergeRunsSorted(runs);
    forall k ensures Find(emitted, k) == Find(MergeRuns(runs), k) {
      CompleteFind(runs, emitted, k);
      MergeRunsFind(runs, k);
    }
    SortedExtensional(emitted, MergeRuns(runs));
  }

  lemma CompleteFind(runs: seq<Run>, emitted: Run, k: Key)
    requires AllSorted(runs) && Sorted(emitted)
    requires forall x :: 0 <= x < |emitted| ==> FindFirst(runs, emitted[x].key) == Some(emitted[x].value)
    requires forall j, y :: 0 <= j < |runs| && 0 <= y < |runs[j]| ==> EmittedKey(emitted, runs[j][y].key)
    ensures Find(emitted, k) == FindFirst(runs, k)
  {
    FindFirstNone(runs, k);
    if FindFirst(runs, k).Some? {
      var j :| 0 <= j < |runs| && Find(runs[j], k).Some?;
      var y := LowerBound(runs[j], k);
      assert runs[j][y].key == k;
      var x :| 0 <= x < |emitted| && emitted[x].key == k;
      FindAt(emitted, x);
    }
  }

  lemma NotPendingEarlier(was: seq<Cursor>, now: seq<Cursor>, runs: seq<Run>, pk: Key, pi: nat, a: nat)
    requires Mergeable(runs) && PassInv(was, now, runs, |runs|, Some(pk), Some(pi)) && a < pi
    ensures !PendingKey(was[a], pk)
  {
    LessIrreflexive(pk);
    assert Settled(was, now, a, pk);
    if HasPending(was[a]) {
      var h := Head(was[a]);
      LessTotal(h, pk);
      forall y | was[a].Start() < y < |was[a].run| ensures Less(pk, was[a].run[y].key) {
        LessTransitive(pk, h, was[a].run[y].key);
      }
    }
  }

  lemma NotYetEmitted(was: seq<Cursor>, now: seq<Cursor>, runs: seq<Run>, pk: Key, pi: nat, emitted: Run)
    requires Mergeable(runs) && MergerInv(was, runs, emitted)
    requires PassInv(was, now, runs, |runs|, Some(pk), Some(pi))
    ensures !EmittedKey(emitted, pk)
  {
    LessIrreflexive(pk);
    assert runs[pi][was[pi].Start()].key == pk;
  }

  /** The lowest holder of the least pending key still has that key pending. */
  lemma NoEarlierHolder(was: seq<Cursor>, now: seq<Cursor>, runs: seq<Run>, pk: Key, pi: nat, emitted: Run, j: nat)
    requires Mergeable(runs) && MergerInv(was, runs, emitted)
    requires PassInv(was, now, runs, |runs|, Some(pk), Some(pi)) && j < pi
    ensures Find(runs[j], pk) == None
  {
    NotYetEmitted(was, now, runs, pk, pi, emitted);
    forall a | 0 <= a <= j ensures !PendingKey(was[a], pk) { NotPendingEarlier(was, now, runs, pk, pi, a); }
    forall y | 0 <= y < |runs[j]| ensures runs[j][y].key != pk {
      assert y < was[j].Start() ==> Accounted(was, emitted, j, runs[j][y].key);
    }
    FindNone(runs[j], pk);
  }

  /** A pass that found a candidate emits it and keeps the invariant. */
  lemma PassEmits(was: seq<Cursor>, now: seq<Cursor>, runs: seq<Run>, pk: Key, pi: nat, emitted: Run)
    requires Mergeable(runs) && MergerInv(was, runs, emitted)
    requires PassInv(was, now, runs, |runs|, Some(pk), Some(pi))
    ensures MergerInv(now, runs, emitted + [runs[pi][now[pi].pos]])
  {
    var e := runs[pi][now[pi].pos];
    var out := emitted + [e];
    forall j | 0 <= j < pi ensures Find(runs[j], pk) == None {
      NoEarlierHolder(was, now, runs, pk, pi, emitted, j);
    }
    FindAt(runs[pi], now[pi].pos);
    FindFirstAt(runs, pk, pi);
    SortedPush(emitted, e);
    forall j, y, x | 0 <= j < |runs| && now[j].Start() <= y < |runs[j]| && 0 <= x < |out|
      ensures Less(out[x].key, runs[j][y].key)
    {
      PendingAbove(was, now, runs, pk, pi, j, y);
      if x < |emitted| { LessTransitive(emitted[x].key, pk, runs[j][y].key); }
    }
    forall j, y | 0 <= j < |runs| && 0 <= y < now[j].Start()
      ensures Accounted(now, out, j, runs[j][y].key)
    {
      StillAccounted(was, now, runs, pk, pi, emitted, j, y);
    }
  }

  lemma PendingAbove(was: seq<Cursor>, now: seq<Cursor>, runs: seq<Run>, pk: Key, pi: nat, j: nat, y: nat)
    requires Mergeable(runs) && PassInv(was, now, runs, |runs|, Some(pk), Some(pi))
    requires j < |runs| && now[j].Start() <= y < |runs[j]|
    ensures Less(pk, runs[j][y].key)
  {
    assert HasPending(was[j]) && Settled(was, now, j, pk);
    var h := Head(was[j]);
    LessTotal(pk, h);
    if was[j].Start() < y && h != pk { LessTransitive(pk, h, runs[j][y].key); }
  }

  lemma StillAccounted(was: seq<Cursor>, now: seq<Cursor>, runs: seq<Run>, pk: Key, pi: nat, emitted: Run, j: nat,
                       y: nat)
    requires Mergeable(runs) && MergerInv(was, runs, emitted)
    requires PassInv(was, now, runs, |runs|, Some(pk), Some(pi))
    requires j < |runs| && y < now[j].Start()
    ensures Accounted(now, emitted + [runs[pi][now[pi].pos]], j, runs[j][y].key)
  {
    var k := runs[j][y].key;
    var out := emitted + [runs[pi][now[pi].pos]];
    assert out[|emitted|].key == pk;
    assert forall x :: 0 <= x < |emitted| ==> out[x] == emitted[x];
    assert Settled(was, now, j, pk);
    if y < was[j].Start() {
      assert Accounted(was, emitted, j, k);
      if EmittedKey(emitted, k) {
        var x :| 0 <= x < |emitted| && emitted[x].key == k;
        assert out[x].key == k;
      } else {
        var a :| 0 <= a < j && PendingKey(was[a], k);
        PendingMoves(was, now, runs, pk, pi, a, k);
      }
    } else {
      PendingMoves(was, now, runs, pk, pi, j, k);
    }
  }

  /** A pending key is the emitted one, or it is pending afterwards at the same place or earlier. */
  lemma PendingMoves(was: seq<Cursor>, now: seq<Cursor>, runs: seq<Run>, pk: Key, pi: nat, a: nat, k: Key)
    requires Mergeable(runs) && PassInv(was, now, runs, |runs|, Some(pk), Some(pi))
    requires a < |runs| && PendingKey(was[a], k)
    ensures k == pk || exists b :: 0 <= b <= a && PendingKey(now[b], k)
  {
    assert Settled(was, now, a, pk);
    var y :| was[a].Start() <= y < |was[a].run| && was[a].run[y].key == k;
    if y < now[a].Start() && k != pk {
      assert Excused(was, now, a, pk);
      var b :| 0 <= b < a && Kept(was[b], now[b]) && Head(was[b]) == k;
      assert now[b].run[now[b].Start()].key == k;
      assert PendingKey(now[b], k);
    } else if y >= now[a].Start() {
      assert PendingKey(now[a], k);
    }
  }

  // ---- what was emitted so far ----

  /** A key that was not emitted is above everything that was. */
  lemma UnemittedAbove(iters: seq<Cursor>, runs: seq<Run>, emitted: Run, k: Key, x: nat)
    requires Mergeable(runs) && MergerInv(iters, runs, emitted) && FindFirst(runs, k).Some?
    requires !EmittedKey(emitted, k) && x < |emitted|
    ensures Less(emitted[x].key, k)
  {
    hide Less, Find;
    var j := FirstHolder(runs, k);
    FindIff(runs[j], k);
    var y :| 0 <= y < |runs[j]| && runs[j][y] == Entry(k, FindFirst(runs, k).value);
    if y < iters[j].Start() {
      assert Accounted(iters, emitted, j, runs[j][y].key);
      var a :| 0 <= a < j && PendingKey(iters[a], k);
      var z :| iters[a].Start() <= z < |iters[a].run| && iters[a].run[z].key == k;
      assert Less(emitted[x].key, runs[a][z].key);
    }
  }

  /** A sorted part of a sorted run that skips nothing is its beginning. */
  lemma {:induction false} SkipsNothing(a: Run, m: Run)
    requires Sorted(a) && Sorted(m) && (forall x :: 0 <= x < |a| ==> a[x] in m)
    requires forall x, y :: 0 <= x < |a| && 0 <= y < |m| && !EmittedKey(a, m[y].key) ==> Less(a[x].key, m[y].key)
    ensures |a| <= |m| && a == m[..|a|]
  {
    hide Less;
    if a != [] {
      var n := |a| - 1;
      var front := a[..n];
      forall x, y | 0 <= x < n && 0 <= y < |m| && !EmittedKey(front, m[y].key) ensures Less(front[x].key, m[y].key) {
        if EmittedKey(a, m[y].key) { LastOfAll(a, m[y].key); }
      }
      SkipsNothing(front, m);
      NextOne(a, m);
    }
  }

  lemma LastOfAll(a: Run, k: Key)
    requires a != [] && EmittedKey(a, k) && !EmittedKey(a[..|a| - 1], k)
    ensures a[|a| - 1].key == k
  {
    assert forall x :: 0 <= x < |a| - 1 ==> a[..|a| - 1][x] == a[x];
  }

  lemma NextOne(a: Run, m: Run)
    requires a != [] && Sorted(a) && Sorted(m) && a[|a| - 1] in m && |a| - 1 <= |m| && a[..|a| - 1] == m[..|a| - 1]
    requires forall x, y :: 0 <= x < |a| && 0 <= y < |m| && !EmittedKey(a, m[y].key) ==> Less(a[x].key, m[y].key)
    ensures |a| <= |m| && a == m[..|a|]
  {
    hide Less;
    var n := |a| - 1;
    var t :| 0 <= t < |m| && m[t] == a[n];
    assert forall x :: 0 <= x < n ==> a[x] == a[..n][x] == m[..n][x] == m[x];
    LessIrreflexive(a[n].key);
    assert !(t < n);
    LessIrreflexive(m[n].key);
    LessAsymmetric(m[n].key, m[t].key);
    assert forall x :: 0 <= x < n ==> Less(m[x].key, m[n].key);
    assert EmittedKey(a, m[n].key);
    assert m[n].key == a[n].key && t == n;
    assert a == a[..n] + [a[n]] && m[..n + 1] == m[..n] + [m[n]];
  }

  /** At any time the merger has emitted a beginning of the merge. */
  lemma EmittedPrefix(iters: seq<Cursor>, runs: seq<Run>, emitted: Run)
    requires Mergeable(runs) && MergerInv(iters, runs, emitted)
    ensures |emitted| <= |MergeRuns(runs)| && emitted == MergeRuns(runs)[..|emitted|]
  {
    hide Less, Find, MergeRuns;
    var m := MergeRuns(runs);
    MergeRunsSorted(runs);
    forall x | 0 <= x < |emitted| ensures emitted[x] in m {
      MergeRunsFind(runs, emitted[x].key);
      FindIff(m, emitted[x].key);
    }
    forall x, y | 0 <= x < |emitted| && 0 <= y < |m| && !EmittedKey(emitted, m[y].key)
      ensures Less(emitted[x].key, m[y].key)
    {
      MergeRunsFind(runs, m[y].key);
      FindAt(m, y);
      UnemittedAbove(iters, runs, emitted, m[y].key, x);
    }
    SkipsNothing(emitted, m);
  }

  // ---- progress ----

  ghost function TotalPending(iters: seq<Cursor>): nat {
    if iters == [] then 0
    else (if iters[0].Valid() then |iters[0].run| - iters[0].Start() else 0) + TotalPending(iters[1..])
  }

  lemma {:induction false} TotalPendingMonotone(was: seq<Cursor>, now: seq<Cursor>)
    requires |was| == |now|
    requires forall j :: 0 <= j < |was| ==> was[j].Valid() && now[j].Valid() && was[j].run == now[j].run
    requires forall j :: 0 <= j < |was| ==> was[j].Start() <= now[j].Start()
    ensures TotalPending(now) <= TotalPending(was)
    ensures (exists j :: 0 <= j < |was| && was[j].Start() < now[j].Start()) ==> TotalPending(now) < TotalPending(was)
  {
    if was != [] {
      TotalPendingMonotone(was[1..], now[1..]);
      if j :| 0 <= j < |was| && was[j].Start() < now[j].Start() {
        assert j > 0 ==> was[1..][j - 1] == was[j] && now[1..][j - 1] == now[j];
      }
    }
  }

  /** Every successful pass leaves fewer pending entries, in spite of the steps back. */
  lemma PendingDrops(was: seq<Cursor>, now: seq<Cursor>, runs: seq<Run>, pi: nat)
    requires Over(was, runs) && Over(now, runs) && pi < |runs|
    requires exists pk :: PassInv(was, now, runs, |runs|, Some(pk), Some(pi))
    ensures TotalPending(now) < TotalPending(was)
  {
    var pk :| PassInv(was, now, runs, |runs|, Some(pk), Some(pi));
    forall j | 0 <= j < |was| ensures was[j].Start() <= now[j].Start() {
      assert Settled(was, now, j, pk);
    }
    assert was[pi].Start() < now[pi].Start();
    TotalPendingMonotone(was, now);
  }
}

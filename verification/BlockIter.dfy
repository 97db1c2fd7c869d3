/** The bidirectional cursor over one block (sstable/src/block_iter.rs). */
module BlockIters {
  import opened Bytes
  import opened Runs
  import opened Cursors
  import opened Coding
  import opened BlockFormat

  datatype BlockIterState = BlockIterState(
    key: Key,
    currentOffset: nat,
    nextOffset: nat,
    valOffset: nat,
    restartsOffset: nat,
    currentRestartIdx: nat)
  {
    function Reset(): BlockIterState {
      this.(nextOffset := 0, valOffset := 0, currentRestartIdx := 0, key := [])
    }
  }

  function NewState(restartsOffset: nat): BlockIterState {
    BlockIterState([], 0, 0, 0, restartsOffset, 0)
  }

  /** Keys never go down. */
  ghost predicate Ordered(es: Run) {
    forall i, j :: 0 <= i < j < |es| ==> !Less(es[j].key, es[i].key)
  }

  /** The bytes are a block of these entries, as the builder writes it. */
  ghost predicate Encodes(block: seq<byte>, es: Run, k: nat) {
    && k >= 1 && es != [] && NonEmptyKeys(es)
    && |Body(es, k)| + 4 < TWO32 && block == Block(es, k)
  }

  /** The iterator stands at cursor position `p`. */
  ghost predicate StateAt(st: BlockIterState, es: Run, k: nat, p: int)
    requires k >= 1
  {
    && -1 <= p <= |es|
    && st.restartsOffset == |Body(es, k)| && st.currentRestartIdx < |Restarts(|es|, k)|
    && (p == -1 ==> st.key == [] && st.nextOffset == 0 && st.currentOffset == 0)
    && (0 <= p < |es| ==>
          && st.key == es[p].key && st.currentOffset == Off(es, k, p) && st.nextOffset == Off(es, k, p + 1)
          && st.valOffset == st.nextOffset - |es[p].value|)
    && (p == |es| && es != [] ==>
          st.key == [] && st.nextOffset == Off(es, k, |es|) && st.currentOffset == Off(es, k, |es| - 1))
  }

  /** The next entry to read is entry `i`, and the key buffer holds what it shares. */
  ghost predicate Ready(st: BlockIterState, es: Run, k: nat, i: nat)
    requires k >= 1
  {
    && i <= |es|
    && st.restartsOffset == |Body(es, k)| && st.currentRestartIdx < |Restarts(|es|, k)|
    && st.nextOffset == Off(es, k, i)
    && (i < |es| ==>
          && Shared(es, k, i) <= |st.key| && Shared(es, k, i) <= |es[i].key|
          && st.key[..Shared(es, k, i)] == es[i].key[..Shared(es, k, i)])
  }

  lemma AtIsReady(st: BlockIterState, es: Run, k: nat, p: int)
    requires k >= 1 && es != [] && StateAt(st, es, k, p)
    ensures Ready(st, es, k, if p < |es| then p + 1 else |es|)
  {
    hide Body, Off, Restarts;
    OffEnds(es, k);
    if p + 1 < |es| { SharedBound(es, k, p + 1); }
  }

  /** At a restart point nothing is shared, so any key buffer will do. */
  lemma RestartIsReady(st: BlockIterState, es: Run, k: nat, j: nat)
    requires k >= 1 && es != []
    requires st.restartsOffset == |Body(es, k)| && st.currentRestartIdx < |Restarts(|es|, k)| && j < |Restarts(|es|, k)|
    requires st.nextOffset == Off(es, k, Restarts(|es|, k)[j])
    ensures Ready(st, es, k, Restarts(|es|, k)[j])
  {
    hide Body, Off;
  }

  class BlockIter {
    const block: seq<byte>
    var state: BlockIterState
    ghost const entries: Run
    ghost const interval: nat

    ghost predicate Valid()
      reads this
    {
      Encodes(block, entries, interval)
    }

    ghost predicate At(p: int)
      reads this
    {
      Valid() && StateAt(state, entries, interval, p)
    }

    constructor WithState(block: seq<byte>, state: BlockIterState, ghost es: Run, ghost k: nat)
      ensures this.block == block && this.state == state && entries == es && interval == k
    {
      this.block := block;
      this.state := state;
      entries := es;
      interval := k;
    }

    method RestartCount() returns (n: nat)
      requires Valid()
      ensures n == |Restarts(|entries|, interval)|
    {
      hide IsRestart, Body;
      RestartCountStored(entries, interval);
      n := DecodeFixed32(block[|block| - 4..]);
    }

    function RestartPointOffset(idx: nat): nat
      requires state.restartsOffset + 4 * idx + 4 <= |block|
      reads this
    {
      var restart := state.restartsOffset + 4 * idx;
      DecodeFixed32(block[restart..restart + 4])
    }

    /** The stored restart offsets are those of the entries at restart points. */
    lemma RestartPointIs(idx: nat)
      requires Valid() && state.restartsOffset == |Body(entries, interval)| && idx < |Restarts(|entries|, interval)|
      ensures state.restartsOffset + 4 * idx + 4 <= |block|
      ensures Restarts(|entries|, interval)[idx] < |entries|
      ensures RestartPointOffset(idx) == Off(entries, interval, Restarts(|entries|, interval)[idx])
    {
      hide IsRestart, Body, Off, Block;
      RestartAt(entries, interval, idx);
    }

    /** Reads the three varints of the entry at `next_offset` and moves past it. */
    method ParseEntryAndAdvance(ghost i: nat) returns (shared: nat, nonShared: nat, valSize: nat, headLen: nat)
      requires Valid() && i < |entries| && state.nextOffset == Off(entries, interval, i)
      modifies `state
      ensures state == old(state).(valOffset := state.valOffset, nextOffset := state.nextOffset)
      ensures shared == Shared(entries, interval, i) <= |entries[i].key| && nonShared == |entries[i].key| - shared
      ensures valSize == |entries[i].value|
      ensures state.nextOffset == Off(entries, interval, i + 1) && state.valOffset == state.nextOffset - valSize
      ensures 0 < headLen && old(state.nextOffset) + headLen + nonShared == state.valOffset <= |block|
      ensures block[old(state.nextOffset) + headLen..state.valOffset] == entries[i].key[shared..]
      ensures state.nextOffset <= |block| && block[state.valOffset..state.nextOffset] == entries[i].value
    {
      hide IsRestart, Body, Off, Shared, EncodeVar, DecodeVar, Restarts, RestartOffsets;
      BlockStartsWithBody(entries, interval);
      HeaderAt(block, entries, interval, i);
      var at := state.nextOffset;
      var h := 0;
      var d := DecodeVar(block[at..]);
      shared := d.0;
      h := h + d.1;
      d := DecodeVar(block[at + h..]);
      nonShared := d.0;
      h := h + d.1;
      d := DecodeVar(block[at + h..]);
      valSize := d.0;
      h := h + d.1;
      state := state.(valOffset := at + h + nonShared);
      state := state.(nextOffset := state.valOffset + valSize);
      headLen := h;
    }

    method AssembleKey(offset: nat, shared: nat, nonShared: nat)
      requires offset + nonShared <= |block|
      modifies `state
      ensures state == old(state).(key := state.key)
      ensures state.key == (if |old(state).key| <= shared then old(state).key else old(state).key[..shared]) +
              block[offset..offset + nonShared]
    {
      var kept := if |state.key| <= shared then state.key else state.key[..shared];
      state := state.(key := kept + block[offset..offset + nonShared]);
    }

    predicate IsValid()
      reads this
    {
      state.key != [] && state.valOffset > 0 && state.valOffset <= state.restartsOffset
    }

    method Advance(ghost i: nat) returns (r: bool)
      requires Valid() && Ready(state, entries, interval, i)
      modifies `state
      ensures r == (i < |entries|)
      ensures i < |entries| ==> At(i)
      ensures i == |entries| ==> state == old(state).(key := [])
    {
      hide IsRestart, Body, Off, Shared, Restarts, RestartOffsets;
      OffEnds(entries, interval);
      if i < |entries| { OffMonotone(entries, interval, i, |entries|); }
      if state.nextOffset >= state.restartsOffset {
        state := state.(key := []);
        return false;
      }
      state := state.(currentOffset := state.nextOffset);
      var currentOffset := state.currentOffset;
      ghost var before := state.key;
      var shared, nonShared, valSize, headLen := ParseEntryAndAdvance(i);
      AssembleKey(currentOffset + headLen, shared, nonShared);
      assert state.key == entries[i].key by {
        assert before[..shared] == entries[i].key[..shared];
        assert entries[i].key == entries[i].key[..shared] + entries[i].key[shared..];
      }
      var restartCount := RestartCount();
      RestartCountStored(entries, interval);
      while state.currentRestartIdx + 1 < restartCount &&
            RestartPointOffset(state.currentRestartIdx + 1) < state.currentOffset
        modifies `state
        invariant state.currentRestartIdx < restartCount && At(i)
        decreases restartCount - state.currentRestartIdx
      {
        state := state.(currentRestartIdx := state.currentRestartIdx + 1);
      }
      r := true;
    }

    /** One entry on, or exhausted. */
    method Next(ghost p: int) returns (r: bool)
      requires At(p)
      modifies `state
      ensures At(Forward(|entries|, p))
      ensures r == (Forward(|entries|, p) < |entries|)
    {
      hide IsRestart, Body, Off, Shared, Restarts;
      AtIsReady(state, entries, interval, p);
      OffEnds(entries, interval);
      r := Advance(if p < |entries| then p + 1 else |entries|);
    }

    /** One entry back, by rescanning from the restart point before the current entry. */
    method Prev(ghost p: int) returns (r: bool)
      requires At(p)
      modifies `state
      ensures At(Backward(|entries|, p))
      ensures r == (Backward(|entries|, p) >= 0)
    {
      hide IsRestart, Body, Off, Shared;
      ghost var n := |entries|;
      OffEnds(entries, interval);
      var orig := state.currentOffset;
      ghost var t := if p == n then n - 1 else if p >= 0 then p else 0;
      if t > 0 { OffMonotone(entries, interval, 0, t); }
      if orig == 0 {
        state := state.Reset();
        return false;
      }
      RestartBefore(t, orig);
      ghost var c := Restarts(n, interval)[state.currentRestartIdx];
      RestartPointIs(state.currentRestartIdx);
      state := state.(nextOffset := RestartPointOffset(state.currentRestartIdx));
      RestartIsReady(state, entries, interval, state.currentRestartIdx);
      r := Advance(c);
      RescanTo(c, t, orig);
    }

    /** Down to the last restart point that starts before the original entry. */
    method RestartBefore(ghost t: nat, orig: nat)
      requires Valid() && 0 < t < |entries| && orig == Off(entries, interval, t)
      requires state.restartsOffset == |Body(entries, interval)|
      requires state.currentRestartIdx < |Restarts(|entries|, interval)|
      modifies `state
      ensures state == old(state).(currentRestartIdx := state.currentRestartIdx)
      ensures state.currentRestartIdx < |Restarts(|entries|, interval)|
      ensures Restarts(|entries|, interval)[state.currentRestartIdx] < t
    {
      hide IsRestart, Body, Off, Shared;
      ghost var rs := Restarts(|entries|, interval);
      RestartPointIs(state.currentRestartIdx);
      OffOrder(entries, interval, rs[state.currentRestartIdx], t);
      while RestartPointOffset(state.currentRestartIdx) >= orig
        modifies `state
        invariant state == old(state).(currentRestartIdx := state.currentRestartIdx)
        invariant state.currentRestartIdx < |rs|
        invariant state.restartsOffset + 4 * state.currentRestartIdx + 4 <= |block|
        invariant RestartPointOffset(state.currentRestartIdx) < orig <==> rs[state.currentRestartIdx] < t
        decreases state.currentRestartIdx
      {
        assert state.currentRestartIdx != 0;
        state := state.(currentRestartIdx := state.currentRestartIdx - 1);
        RestartPointIs(state.currentRestartIdx);
        OffOrder(entries, interval, rs[state.currentRestartIdx], t);
      }
    }

    /** The rescan of `prev`: on until the entry that ends where the original one starts. */
    method RescanTo(ghost from: nat, ghost t: nat, orig: nat)
      requires from < t < |entries| && At(from) && orig == Off(entries, interval, t)
      modifies `state
      ensures At(t - 1)
    {
      hide IsRestart, Body, Off, Shared, Restarts;
      ghost var c := from;
      OffOrder(entries, interval, c + 1, t);
      while state.nextOffset < orig
        modifies `state
        invariant c < t && At(c)
        invariant state.nextOffset < orig <==> c + 1 < t
        decreases t - c
      {
        AtIsReady(state, entries, interval, c);
        c := c + 1;
        OffOrder(entries, interval, c + 1, t);
        var _ := Advance(c);
      }
    }

    method SeekToRestartPoint(idx: nat)
      requires Valid() && state.restartsOffset == |Body(entries, interval)| && idx < |Restarts(|entries|, interval)|
      modifies `state
      ensures Restarts(|entries|, interval)[idx] < |entries| && At(Restarts(|entries|, interval)[idx])
      ensures state.currentRestartIdx == idx && IsValid()
    {
      hide IsRestart, Body, Off;
      RestartPointIs(idx);
      var off := RestartPointOffset(idx);
      ghost var i := Restarts(|entries|, interval)[idx];
      state := state.(nextOffset := off, currentOffset := off, currentRestartIdx := idx);
      var shared, nonShared, valSize, headLen := ParseEntryAndAdvance(i);
      assert shared == 0;
      AssembleKey(off + headLen, shared, nonShared);
      assert entries[i].key[0..] == entries[i].key;
      OnEntryIsValid(i);
    }

    lemma OnEntryIsValid(i: nat)
      requires At(i) && i < |entries|
      ensures IsValid()
    {
      hide IsRestart, Body, Off, Restarts;
      BlockStartsWithBody(entries, interval);
      HeaderAt(block, entries, interval, i);
      OffEnds(entries, interval);
      if i + 1 < |entries| { OffMonotone(entries, interval, i + 1, |entries|); }
    }

    /** To the first entry whose key is not below `to`, or to the exhausted state. */
    method Seek(to: Key)
      requires Valid() && Ordered(entries) && state.restartsOffset == |Body(entries, interval)|
      modifies `state
      ensures At(LowerBound(entries, to))
    {
      hide IsRestart, Body, Off, Shared, Less, LowerBound, Restarts;
      state := state.Reset();
      var left := SearchRestart(to);
      ghost var i := Restarts(|entries|, interval)[left];
      RestartPointIs(left);
      state := state.(currentRestartIdx := left, nextOffset := RestartPointOffset(left));
      RestartIsReady(state, entries, interval, left);
      BelowStart(entries, i, to);
      ScanTo(to, i);
    }

    /** Binary search for the last restart point below `to`; the first one if there is none. */
    method SearchRestart(to: Key) returns (left: nat)
      requires Valid() && state.restartsOffset == |Body(entries, interval)|
      modifies `state
      ensures state.restartsOffset == old(state.restartsOffset)
      ensures left < |Restarts(|entries|, interval)| && Restarts(|entries|, interval)[left] < |entries|
      ensures Restarts(|entries|, interval)[left] > 0 ==> Less(entries[Restarts(|entries|, interval)[left]].key, to)
    {
      hide IsRestart, Body, Off, Shared, Less;
      ghost var rs := Restarts(|entries|, interval);
      left := 0;
      var restartCount := RestartCount();
      var right := if restartCount > 0 then restartCount - 1 else 0;
      while left < right
        modifies `state
        invariant 0 <= left <= right < restartCount && restartCount == |rs|
        invariant state.restartsOffset == |Body(entries, interval)|
        invariant left > 0 ==> Less(entries[rs[left]].key, to)
      {
        var m := (left + right + 1) / 2;
        SeekToRestartPoint(m);
        if Less(state.key, to) {
          left := m;
        } else {
          right := m - 1;
        }
      }
    }

    /** The linear scan after the binary search. */
    method ScanTo(to: Key, ghost from: nat)
      requires Valid() && from < |entries| && Ready(state, entries, interval, from)
      requires forall j :: 0 <= j < from ==> Less(entries[j].key, to)
      modifies `state
      ensures At(LowerBound(entries, to))
    {
      hide IsRestart, Body, Off, Shared, Less, LowerBound, Restarts;
      ghost var i := from;
      var more := Advance(i);
      while more && Less(state.key, to)
        modifies `state
        invariant i <= |entries| && more == (i < |entries|) && At(i)
        invariant forall j :: 0 <= j < i ==> Less(entries[j].key, to)
        decreases |entries| - i
      {
        more := Next(i);
        i := i + 1;
      }
      BoundIs(entries, to, i);
    }

    /** To the last entry, from any state. */
    method SeekToLast()
      requires Valid() && state.restartsOffset == |Body(entries, interval)|
      modifies `state
      ensures At(|entries| - 1) && IsValid()
    {
      hide IsRestart, Body, Off, Shared;
      OffEnds(entries, interval);
      var restartCount := RestartCount();
      if restartCount > 0 {
        SeekToRestartPoint(restartCount - 1);
      } else {
        assert false;
      }
      ghost var i := Restarts(|entries|, interval)[restartCount - 1];
      while state.nextOffset < state.restartsOffset
        modifies `state
        invariant 0 <= i < |entries| && At(i)
        decreases |entries| - i
      {
        OffOrder(entries, interval, i + 1, |entries|);
        AtIsReady(state, entries, interval, i);
        i := i + 1;
        var _ := Advance(i);
      }
      OffOrder(entries, interval, i + 1, |entries|);
      OnEntryIsValid(|entries| - 1);
    }

    /** The current key and value are those of the entry under the cursor; off the entries there is none. */
    method CurrentKV(ghost p: int) returns (r: Option<Entry>)
      requires At(p)
      ensures r == if 0 <= p < |entries| then Some(entries[p]) else None
    {
      hide IsRestart, Body, Off, Restarts;
      if 0 <= p < |entries| {
        OnEntryIsValid(p);
        BlockStartsWithBody(entries, interval);
        HeaderAt(block, entries, interval, p);
      }
      if IsValid() {
        r := Some(Entry(state.key, block[state.valOffset..state.nextOffset]));
      } else {
        r := None;
      }
    }
  }

  lemma BlockStartsWithBody(es: Run, k: nat)
    requires k >= 1
    ensures |Body(es, k)| <= |Block(es, k)| && Block(es, k)[..|Body(es, k)|] == Body(es, k)
  {
    hide Body, RestartOffsets, Restarts;
  }

  /** Offsets compare like indices. */
  lemma OffOrder(es: Run, k: nat, i: nat, j: nat)
    requires k >= 1 && i <= |es| && j <= |es|
    ensures Off(es, k, i) < Off(es, k, j) <==> i < j
  {
    if i < j { OffMonotone(es, k, i, j); } else if j < i { OffMonotone(es, k, j, i); }
  }

  /** Everything before an entry below the target is below the target too. */
  lemma BelowStart(es: Run, i: nat, to: Key)
    requires Ordered(es) && i < |es| && (i > 0 ==> Less(es[i].key, to))
    ensures forall j :: 0 <= j < i ==> Less(es[j].key, to)
  {
    forall j | 0 <= j < i ensures Less(es[j].key, to) {
      LessTotal(es[j].key, es[i].key);
      if es[j].key != es[i].key { LessTransitive(es[j].key, es[i].key, to); }
    }
  }

  lemma BoundIs(es: Run, to: Key, i: nat)
    requires i <= |es| && (forall j :: 0 <= j < i ==> Less(es[j].key, to)) && (i < |es| ==> !Less(es[i].key, to))
    ensures LowerBound(es, to) == i
  {
    var l := LowerBound(es, to);
    assert !(l < i) && !(i < l);
  }
}

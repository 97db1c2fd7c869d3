/** The abstract cursor every sstable iterator is proved to be.

    A cursor over `n` entries is at a position from -1 to `n`: -1 is before the first entry
    and `n` is the exhausted state. */
module Cursors {
  import opened Bytes
  import opened Runs

  /** Where `advance` goes; the exhausted state is absorbing. */
  function Forward(n: nat, p: int): int {
    if p < n then p + 1 else p
  }

  /** Where `prev` goes. The iterators remember the last entry they read, so from the exhausted
      state `prev` skips that entry and goes to the second-to-last one. */
  function Backward(n: nat, p: int): int {
    if p == n && n > 0 then n - 2 else if p >= 0 then p - 1 else -1
  }

  /** `prev` undoes `advance`, and the other way round, except around the exhausted state, where the last
      entry is passed over. */
  lemma BackAndForth(n: nat, p: int)
    requires -1 <= p <= n
    ensures p < n - 1 ==> Backward(n, Forward(n, p)) == p
    ensures 0 <= p < n ==> Forward(n, Backward(n, p)) == p
    ensures p == n - 1 && n > 0 ==> Backward(n, Forward(n, p)) == p - 1
    ensures p == n ==> Forward(n, p) == p
  {
  }

  datatype Cursor = Cursor(run: Run, pos: int) {

    predicate Valid() {
      -1 <= pos <= |run|
    }

    /** Index of the first entry not yet read. */
    function Start(): (s: nat)
      requires Valid()
      ensures s <= |run|
    {
      if pos < |run| then pos + 1 else |run|
    }

    function Advance(): Cursor {
      Cursor(run, Forward(|run|, pos))
    }

    function Prev(): Cursor {
      Cursor(run, Backward(|run|, pos))
    }

    predicate OnEntry() {
      0 <= pos < |run|
    }

    /** The current key; an empty key reads as no key. */
    function CurrentK(): Option<Key> {
      if OnEntry() && run[pos].key != [] then Some(run[pos].key) else None
    }

    function CurrentV(): Option<Value> {
      if OnEntry() && run[pos].key != [] then Some(run[pos].value) else None
    }
  }
}

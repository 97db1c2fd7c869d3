/** Writes a block entry by entry (sstable/src/block_builder.rs). */
module BlockBuilders {
  import opened Bytes
  import opened Runs
  import opened Coding
  import opened Separators
  import opened BlockFormat

  function LastKey(es: Run): Key {
    if es == [] then [] else es[|es| - 1].key
  }

  /** Entries since the last restart point. */
  function SinceRestart(n: nat, k: nat): nat
    requires k >= 1
  {
    if n == 0 then 0 else (n - 1) % k + 1
  }

  lemma ModStep(n: nat, k: nat)
    requires n >= 1 && k >= 1
    ensures n % k == if (n - 1) % k == k - 1 then 0 else (n - 1) % k + 1
  {
    var q, r := (n - 1) / k, (n - 1) % k;
    if r == k - 1 {
      assert n == (q + 1) * k;
      ModUnique(n, k, q + 1, 0);
    } else {
      ModUnique(n, k, q, r + 1);
    }
  }

  lemma SinceRestartStep(n: nat, k: nat)
    requires k >= 1
    ensures SinceRestart(n, k) <= k
    ensures SinceRestart(n, k) == k <==> n > 0 && IsRestart(n, k)
    ensures SinceRestart(n + 1, k) == if SinceRestart(n, k) == k then 1 else SinceRestart(n, k) + 1
  {
    if n > 0 { ModStep(n, k); }
  }

  lemma RestartOffsetsPush(es: Run, e: Entry, k: nat)
    requires k >= 1
    ensures RestartOffsets(es + [e], k) ==
            if |es| > 0 && IsRestart(|es|, k) then RestartOffsets(es, k) + [|Body(es, k)|] else RestartOffsets(es, k)
  {
    hide Body, IsRestart;
    var all := es + [e];
    forall i | 0 <= i <= |es| ensures Off(all, k, i) == Off(es, k, i) {
      assert all[..i] == es[..i];
    }
    OffEnds(es, k);
  }

  lemma BodyPush(es: Run, e: Entry, k: nat)
    requires k >= 1
    ensures Shared(es + [e], k, |es|) == if |es| > 0 && IsRestart(|es|, k) then 0 else CommonPrefix(LastKey(es), e.key)
    ensures Shared(es + [e], k, |es|) <= |e.key|
    ensures Body(es + [e], k) == Body(es, k) + EntryBytes(Shared(es + [e], k, |es|), e)
  {
    hide EntryBytes, IsRestart;
    FirstIsRestart(k);
    assert (es + [e])[..|es|] == es;
  }

  /** Offsets as the builder keeps them, cast to 32 bits. */
  function Truncated(ns: seq<nat>): (r: seq<nat>)
    ensures |r| == |ns| && forall i :: 0 <= i < |ns| ==> r[i] == ns[i] % TWO32
  {
    seq(|ns|, i requires 0 <= i < |ns| => ns[i] % TWO32)
  }

  lemma TruncatedPush(ns: seq<nat>, n: nat)
    ensures Truncated(ns + [n]) == Truncated(ns) + [n % TWO32]
  {
  }

  /** Writing a truncated offset writes the same bytes. */
  lemma {:induction false} FixedAllTruncated(ns: seq<nat>)
    ensures FixedAll(Truncated(ns)) == FixedAll(ns)
  {
    hide EncodeFixed32;
    if ns != [] {
      var n := |ns| - 1;
      FixedAllTruncated(ns[..n]);
      assert Truncated(ns)[..n] == Truncated(ns[..n]);
      Fixed32Truncates(ns[n]);
    }
  }

  class BlockBuilder {
    const interval: nat
    var buffer: seq<byte>
    var count: nat
    var restartCount: nat
    var lastKey: Key
    var restarts: seq<nat>
    ghost var entries: Run

    ghost predicate Valid()
      reads this
    {
      && interval >= 1
      && buffer == Body(entries, interval)
      && count == |entries|
      && restartCount == SinceRestart(|entries|, interval)
      && lastKey == LastKey(entries)
      && restarts == Truncated(RestartOffsets(entries, interval))
    }

    constructor (interval: nat)
      requires interval >= 1
      ensures Valid() && entries == [] && this.interval == interval
    {
      this.interval := interval;
      buffer, count, restartCount, lastKey, restarts := [], 0, 0, [], [0];
      entries := [];
      assert RestartOffsets([], interval) == [0];
    }

    function SizeEstimate(): nat
      reads this
    {
      |buffer| + 4 * |restarts| + 4
    }

    /** The estimate is the length of the block the builder would finish. */
    lemma EstimateIsLength()
      requires Valid()
      ensures SizeEstimate() == |Block(entries, interval)|
    {
      hide Body, EncodeFixed32, Restarts;
    }

    /** Appends an entry; keys may not go down. */
    method Add(k: Key, v: Value)
      requires Valid()
      requires buffer != [] ==> !Less(k, lastKey)
      modifies this
      ensures Valid() && entries == old(entries) + [Entry(k, v)]
    {
      hide Body, EntryBytes, Restarts, RestartOffsets, Truncated, CommonPrefix, Shared, SinceRestart, IsRestart, Less;
      ghost var olds := entries;
      SinceRestartStep(|olds|, interval);
      RestartOffsetsPush(olds, Entry(k, v), interval);
      TruncatedPush(RestartOffsets(olds, interval), |buffer|);
      BodyPush(olds, Entry(k, v), interval);
      EmptyPrefix(k);
      var shared := 0;
      if restartCount < interval {
        shared := SharedPrefix(lastKey, k);
      } else {
        restarts := restarts + [|buffer| % TWO32];
        lastKey := [];
        restartCount := 0;
      }
      WriteEntry(shared, k, v);
      assert lastKey[..shared] == k[..shared];
      lastKey := lastKey[..shared] + k[shared..];
      assert lastKey == k;
      restartCount := restartCount + 1;
      count := count + 1;
      entries := entries + [Entry(k, v)];
    }

    method WriteEntry(shared: nat, k: Key, v: Value)
      requires shared <= |k|
      modifies `buffer
      ensures buffer == old(buffer) + EntryBytes(shared, Entry(k, v))
    {
      hide EncodeVar;
      buffer := buffer + EncodeVar(shared);
      buffer := buffer + EncodeVar(|k| - shared);
      buffer := buffer + EncodeVar(|v|);
      buffer := buffer + k[shared..];
      buffer := buffer + v;
      EntryAppended(old(buffer), shared, Entry(k, v));
    }

    /** Appends the restart table and its length; the builder is spent afterwards. */
    method Finish() returns (raw: seq<byte>)
      requires Valid()
      modifies this
      ensures raw == Block(old(entries), interval)
    {
      hide Body, Restarts, EncodeFixed32, IsRestart, SinceRestart, RestartOffsets, Truncated, FixedAll;
      FixedAllEmpty();
      FixedAllTruncated(RestartOffsets(entries, interval));
      var i := 0;
      ghost var body := buffer;
      while i < |restarts|
        modifies `buffer
        invariant 0 <= i <= |restarts|
        invariant buffer == body + FixedAll(restarts[..i])
      {
        FixedAllPush(restarts[..i], restarts[i]);
        assert restarts[..i + 1] == restarts[..i] + [restarts[i]];
        buffer := buffer + EncodeFixed32(restarts[i]);
        i := i + 1;
      }
      assert restarts[..i] == restarts;
      buffer := buffer + EncodeFixed32(|restarts|);
      raw := buffer;
      buffer, count, restartCount, lastKey, restarts := [], 0, 0, [], [];
    }
  }

  /** The shared-prefix loop. */
  method SharedPrefix(last: Key, k: Key) returns (shared: nat)
    ensures shared == CommonPrefix(last, k)
  {
    var small := if |k| < |last| then |k| else |last|;
    shared := 0;
    while shared < small && last[shared] == k[shared]
      invariant 0 <= shared <= small && last[..shared] == k[..shared]
    {
      shared := shared + 1;
    }
    CommonPrefixUnique(last, k, shared);
  }

  lemma EmptyPrefix(k: Key)
    ensures CommonPrefix([], k) == 0
  {
  }

  lemma EntryAppended(buf: seq<byte>, shared: nat, e: Entry)
    requires shared <= |e.key|
    ensures buf + EncodeVar(shared) + EncodeVar(|e.key| - shared) + EncodeVar(|e.value|) + e.key[shared..] + e.value
            == buf + EntryBytes(shared, e)
  {
  }

  lemma FixedAllEmpty()
    ensures FixedAll([]) == []
  {
  }

  lemma FixedAllPush(ns: seq<nat>, n: nat)
    ensures FixedAll(ns + [n]) == FixedAll(ns) + EncodeFixed32(n)
  {
    assert (ns + [n])[..|ns|] == ns;
  }
}

/** The byte layout of a block: prefix-compressed entries, restart offsets, restart count
    (sstable/src/block_builder.rs, sstable/src/block.rs). */
module BlockFormat {
  import opened Bytes
  import opened Runs
  import opened Coding
  import opened Separators

  /** Every k-th entry is a restart point. */
  predicate IsRestart(i: nat, k: nat)
    requires k >= 1
  {
    i % k == 0
  }

  lemma FirstIsRestart(k: nat)
    requires k >= 1
    ensures IsRestart(0, k)
  {
  }

  /** Bytes an entry's key shares with the key before it; nothing at a restart point. */
  function Shared(es: Run, k: nat, i: nat): nat
    requires k >= 1 && i < |es|
  {
    if IsRestart(i, k) then 0 else CommonPrefix(es[i - 1].key, es[i].key)
  }

  function EntryBytes(shared: nat, e: Entry): (s: seq<byte>)
    requires shared <= |e.key|
    ensures |s| >= 3 + |e.key| - shared + |e.value|
  {
    EncodeVar(shared) + EncodeVar(|e.key| - shared) + EncodeVar(|e.value|) + e.key[shared..] + e.value
  }

  /** The entry area of a block. */
  function Body(es: Run, k: nat): seq<byte>
    requires k >= 1
  {
    if es == [] then []
    else Body(es[..|es| - 1], k) + EntryBytes(Shared(es, k, |es| - 1), es[|es| - 1])
  }

  /** Where entry `i` starts. */
  function Off(es: Run, k: nat, i: nat): nat
    requires k >= 1 && i <= |es|
  {
    |Body(es[..i], k)|
  }

  /** Indices of the entries at restart points; an empty block has one restart at 0. */
  function Restarts(n: nat, k: nat): (r: seq<nat>)
    requires k >= 1
    ensures r != [] && r[0] == 0
    ensures |r| <= n + 1
    ensures forall j :: 0 <= j < |r| ==> IsRestart(r[j], k) && (r[j] < n || r[j] == 0)
    ensures forall i, j :: 0 <= i < j < |r| ==> r[i] < r[j]
  {
    if n <= 1 then [0]
    else Restarts(n - 1, k) + if IsRestart(n - 1, k) then [n - 1] else []
  }

  lemma {:induction false} RestartsExactly(n: nat, k: nat, i: nat)
    requires k >= 1
    ensures i in Restarts(n, k) <==> i == 0 || (i < n && i % k == 0)
  {
    if n > 1 { RestartsExactly(n - 1, k, i); }
  }

  function FixedAll(ns: seq<nat>): (s: seq<byte>)
    ensures |s| == 4 * |ns|
  {
    if ns == [] then [] else FixedAll(ns[..|ns| - 1]) + EncodeFixed32(ns[|ns| - 1])
  }

  function RestartOffsets(es: Run, k: nat): (r: seq<nat>)
    requires k >= 1
    ensures |r| == |Restarts(|es|, k)|
    ensures forall j :: 0 <= j < |r| ==> Restarts(|es|, k)[j] <= |es| && r[j] == Off(es, k, Restarts(|es|, k)[j])
  {
    var rs := Restarts(|es|, k);
    seq(|rs|, j requires 0 <= j < |rs| => Off(es, k, rs[j]))
  }

  /** The whole block, before compression. */
  function Block(es: Run, k: nat): seq<byte>
    requires k >= 1
  {
    Body(es, k) + FixedAll(RestartOffsets(es, k)) + EncodeFixed32(|Restarts(|es|, k)|)
  }

  // ---- reading it back ----

  lemma {:induction false} BodyPrefix(es: Run, k: nat, i: nat)
    requires k >= 1 && i <= |es|
    ensures Off(es, k, i) <= |Body(es, k)| && Body(es, k)[..Off(es, k, i)] == Body(es[..i], k)
  {
    hide IsRestart, CommonPrefix, EntryBytes;
    if i == |es| {
      assert es[..i] == es;
    } else {
      var n := |es| - 1;
      BodyPrefix(es[..n], k, i);
      assert es[..n][..i] == es[..i];
    }
  }

  lemma EntryAt(es: Run, k: nat, i: nat)
    requires k >= 1 && i < |es|
    ensures Off(es, k, i + 1) == Off(es, k, i) + |EntryBytes(Shared(es, k, i), es[i])| <= |Body(es, k)|
    ensures Body(es, k)[Off(es, k, i)..Off(es, k, i + 1)] == EntryBytes(Shared(es, k, i), es[i])
  {
    hide EntryBytes, IsRestart, CommonPrefix;
    FirstIsRestart(k);
    BodyPrefix(es, k, i + 1);
    var upto := es[..i + 1];
    assert upto[..i] == es[..i];
    assert Shared(upto, k, i) == Shared(es, k, i);
    assert Body(upto, k) == Body(es[..i], k) + EntryBytes(Shared(es, k, i), es[i]);
    assert Body(es, k)[Off(es, k, i)..Off(es, k, i + 1)] == Body(upto, k)[Off(es, k, i)..];
  }

  lemma {:induction false} OffMonotone(es: Run, k: nat, i: nat, j: nat)
    requires k >= 1 && i < j <= |es|
    ensures Off(es, k, i) < Off(es, k, j) <= |Body(es, k)|
  {
    hide Body, IsRestart;
    BodyPrefix(es, k, j);
    EntryAt(es, k, j - 1);
    if i < j - 1 { OffMonotone(es, k, i, j - 1); }
  }

  lemma OffEnds(es: Run, k: nat)
    requires k >= 1
    ensures Off(es, k, 0) == 0 && Off(es, k, |es|) == |Body(es, k)|
  {
    assert es[..|es|] == es;
  }

  lemma {:induction false} FixedAllAt(ns: seq<nat>, j: nat)
    requires j < |ns|
    ensures FixedAll(ns)[4 * j..4 * j + 4] == EncodeFixed32(ns[j])
  {
    hide EncodeFixed32;
    var n := |ns| - 1;
    if j < n {
      FixedAllAt(ns[..n], j);
      assert FixedAll(ns)[4 * j..4 * j + 4] == FixedAll(ns[..n])[4 * j..4 * j + 4];
    }
  }

  /** The restart offset stored at index `j`. */
  lemma RestartAt(es: Run, k: nat, j: nat)
    requires k >= 1 && |Body(es, k)| < TWO32 && j < |Restarts(|es|, k)|
    ensures |Body(es, k)| + 4 * j + 4 <= |Block(es, k)|
    ensures Restarts(|es|, k)[j] <= |es|
    ensures DecodeFixed32(Block(es, k)[|Body(es, k)| + 4 * j..|Body(es, k)| + 4 * j + 4]) ==
            Off(es, k, Restarts(|es|, k)[j])
  {
    hide EncodeFixed32, DecodeFixed32, Body, Off, IsRestart;
    var offs := RestartOffsets(es, k);
    FixedAllAt(offs, j);
    var b := |Body(es, k)|;
    assert Block(es, k)[b + 4 * j..b + 4 * j + 4] == FixedAll(offs)[4 * j..4 * j + 4];
    BodyPrefix(es, k, Restarts(|es|, k)[j]);
    Fixed32RoundTrip(offs[j]);
  }

  lemma {:induction false} BodyLongerThanCount(es: Run, k: nat)
    requires k >= 1
    ensures 3 * |es| <= |Body(es, k)|
  {
    hide IsRestart, CommonPrefix;
    if es != [] { BodyLongerThanCount(es[..|es| - 1], k); }
  }

  /** The last word is the number of restarts, so the restart area can be located from the end. */
  lemma RestartCountStored(es: Run, k: nat)
    requires k >= 1 && |Body(es, k)| + 4 < TWO32
    ensures |Block(es, k)| == |Body(es, k)| + 4 * |Restarts(|es|, k)| + 4
    ensures DecodeFixed32(Block(es, k)[|Block(es, k)| - 4..]) == |Restarts(|es|, k)|
  {
    hide EncodeFixed32, DecodeFixed32, Body, Restarts, IsRestart;
    BodyLongerThanCount(es, k);
    assert Block(es, k)[|Block(es, k)| - 4..] == EncodeFixed32(|Restarts(|es|, k)|);
    Fixed32RoundTrip(|Restarts(|es|, k)|);
  }

  /** What the varint reader sees at the offset of an entry. */
  ghost predicate ReadsEntry(buf: seq<byte>, off: nat, shared: nat, e: Entry, end: nat) {
    && shared <= |e.key|
    && var own := |e.key| - shared;
       var a := |EncodeVar(shared)|;
       var b := a + |EncodeVar(own)|;
       var c := b + |EncodeVar(|e.value|)|;
       && off + c + own + |e.value| == end <= |buf|
       && DecodeVar(buf[off..]) == (shared, a)
       && DecodeVar(buf[off + a..]) == (own, b - a)
       && DecodeVar(buf[off + b..]) == (|e.value|, c - b)
       && buf[off + c..off + c + own] == e.key[shared..]
       && buf[off + c + own..end] == e.value
  }

  lemma EntryReads(buf: seq<byte>, off: nat, shared: nat, e: Entry)
    requires shared <= |e.key| && off + |EntryBytes(shared, e)| <= |buf|
    requires buf[off..off + |EntryBytes(shared, e)|] == EntryBytes(shared, e)
    ensures ReadsEntry(buf, off, shared, e, off + |EntryBytes(shared, e)|)
  {
    hide EncodeVar, DecodeVar, EntryBytes;
    var own := |e.key| - shared;
    var a := |EncodeVar(shared)|;
    var b := a + |EncodeVar(own)|;
    var c := b + |EncodeVar(|e.value|)|;
    var rec := EntryBytes(shared, e);
    EntryParts(shared, e);
    SliceOf(buf, off, rec, 0, a);
    SliceOf(buf, off, rec, a, b);
    SliceOf(buf, off, rec, b, c);
    SliceOf(buf, off, rec, c, c + own);
    SliceOf(buf, off, rec, c + own, |rec|);
    VarAt(buf, off, shared);
    VarAt(buf, off + a, own);
    VarAt(buf, off + b, |e.value|);
  }

  /** The fields of an entry within its bytes. */
  lemma EntryParts(shared: nat, e: Entry)
    requires shared <= |e.key|
    ensures var own := |e.key| - shared;
            var a := |EncodeVar(shared)|;
            var b := a + |EncodeVar(own)|;
            var c := b + |EncodeVar(|e.value|)|;
            var rec := EntryBytes(shared, e);
            && |rec| == c + own + |e.value|
            && rec[0..a] == EncodeVar(shared) && rec[a..b] == EncodeVar(own) && rec[b..c] == EncodeVar(|e.value|)
            && rec[c..c + own] == e.key[shared..] && rec[c + own..|rec|] == e.value
  {
    hide EncodeVar;
  }

  /** What the reader sees at entry `i` of a block. */
  lemma HeaderAt(buf: seq<byte>, es: Run, k: nat, i: nat)
    requires k >= 1 && i < |es| && |buf| >= |Body(es, k)| && buf[..|Body(es, k)|] == Body(es, k)
    ensures ReadsEntry(buf, Off(es, k, i), Shared(es, k, i), es[i], Off(es, k, i + 1))
  {
    hide Body, Shared, EntryBytes, ReadsEntry, IsRestart;
    EntryAt(es, k, i);
    SharedBound(es, k, i);
    var off, end := Off(es, k, i), Off(es, k, i + 1);
    PrefixSlice(buf, |Body(es, k)|, off, end);
    EntryReads(buf, off, Shared(es, k, i), es[i]);
  }

  lemma SharedBound(es: Run, k: nat, i: nat)
    requires k >= 1 && i < |es|
    ensures Shared(es, k, i) <= |es[i].key|
    ensures i == 0 ==> Shared(es, k, i) == 0
    ensures i > 0 ==> Shared(es, k, i) <= |es[i - 1].key| &&
                      es[i - 1].key[..Shared(es, k, i)] == es[i].key[..Shared(es, k, i)]
  {
  }
}

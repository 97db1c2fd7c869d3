/** How many bytes a table takes, from the sizes of its entries. The on-disk integers have fixed widths
    (sstable/src/block_builder.rs, sstable/src/block_handle.rs); these bounds say when they suffice. */
module TableSizes {
  import opened Bytes
  import opened Runs
  import opened Coding
  import opened BlockFormat
  import opened TableFormat

  /** Keys, values and a fixed overhead per entry. */
  function Weight(es: Run, overhead: nat): nat {
    if es == [] then 0
    else Weight(es[..|es| - 1], overhead) + |es[|es| - 1].key| + |es[|es| - 1].value| + overhead
  }

  /** Entries whose table fits the on-disk integers, whatever its block size and restart interval:
      keys, values and 32 bytes per entry stay below 4 GB. */
  predicate Small(es: Run) {
    Weight(es, 32) + 4 < TWO32
  }

  /** Compressing a block does not blow it up. */
  ghost predicate Tame(c: Codec) {
    c.compressed ==> c.snappy.Tame()
  }

  lemma {:induction false} WeightConcat(a: Run, b: Run, overhead: nat)
    ensures Weight(a + b, overhead) == Weight(a, overhead) + Weight(b, overhead)
  {
    if b == [] {
      assert a + b == a;
    } else {
      var n := |b| - 1;
      WeightConcat(a, b[..n], overhead);
      assert (a + b)[..|a + b| - 1] == a + b[..n];
    }
  }

  lemma {:induction false} WeightCount(es: Run, overhead: nat)
    ensures Weight(es, overhead) >= overhead * |es|
    ensures overhead >= 15 ==> Weight(es, 15) <= Weight(es, overhead)
  {
    if es != [] {
      WeightCount(es[..|es| - 1], overhead);
      assert overhead * |es| == overhead * (|es| - 1) + overhead;
    }
  }

  lemma EntryBytesBound(shared: nat, e: Entry)
    requires shared <= |e.key| && |e.key| + |e.value| < TWO32
    ensures |EntryBytes(shared, e)| <= |e.key| + |e.value| + 15
  {
    hide EncodeVar;
    VarAtMost5(shared);
    VarAtMost5(|e.key| - shared);
    VarAtMost5(|e.value|);
  }

  lemma {:induction false} BodyBound(es: Run, k: nat)
    requires k >= 1 && Weight(es, 15) < TWO32
    ensures |Body(es, k)| <= Weight(es, 15)
  {
    hide EntryBytes, Shared;
    if es != [] {
      var n := |es| - 1;
      BodyBound(es[..n], k);
      SharedBound(es, k, n);
      EntryBytesBound(Shared(es, k, n), es[n]);
    }
  }

  lemma BlockBound(es: Run, k: nat)
    requires k >= 1 && Weight(es, 32) < TWO32
    ensures |Block(es, k)| <= 2 * Weight(es, 32) + 8
  {
    hide Body, Restarts, RestartOffsets, FixedAll, EncodeFixed32, Weight;
    WeightCount(es, 32);
    BodyBound(es, k);
  }

  lemma FrameBound(c: Codec, raw: seq<byte>)
    requires Tame(c)
    ensures |Frame(c, raw)| <= 2 * |raw| + 37
  {
    hide EncodeFixed32;
  }

  /** The bytes of some framed blocks, one after the other. */
  function FrameTotal(c: Codec, blocks: seq<Run>, k: nat): nat
    requires k >= 1
  {
    if blocks == [] then 0
    else FrameTotal(c, blocks[..|blocks| - 1], k) + |Frame(c, Block(blocks[|blocks| - 1], k))|
  }

  lemma FrameTotalPush(c: Codec, blocks: seq<Run>, es: Run, k: nat)
    requires k >= 1
    ensures FrameTotal(c, blocks + [es], k) == FrameTotal(c, blocks, k) + |Frame(c, Block(es, k))|
  {
    assert (blocks + [es])[..|blocks|] == blocks;
  }

  lemma {:induction false} FrameTotalPrefix(c: Codec, blocks: seq<Run>, k: nat, b: nat)
    requires k >= 1 && b < |blocks|
    ensures FrameTotal(c, blocks[..b], k) + |Frame(c, Block(blocks[b], k))| <= FrameTotal(c, blocks, k)
  {
    hide Frame, Block;
    var n := |blocks| - 1;
    if b < n {
      FrameTotalPrefix(c, blocks[..n], k, b);
      assert blocks[..n][..b] == blocks[..b];
    }
  }

  ghost predicate NoEmptyBlock(blocks: seq<Run>) {
    forall b :: 0 <= b < |blocks| ==> blocks[b] != []
  }

  lemma {:induction false} FrameTotalBound(c: Codec, blocks: seq<Run>, k: nat)
    requires k >= 1 && Tame(c) && NoEmptyBlock(blocks) && Weight(Flatten(blocks), 32) < TWO32
    ensures FrameTotal(c, blocks, k) <= 6 * Weight(Flatten(blocks), 32)
  {
    hide Frame, Block, Weight, Tame;
    if blocks != [] {
      var n := |blocks| - 1;
      WeightConcat(Flatten(blocks[..n]), blocks[n], 32);
      FrameTotalBound(c, blocks[..n], k);
      WeightCount(blocks[n], 32);
      BlockBound(blocks[n], k);
      FrameBound(c, Block(blocks[n], k));
    }
  }

  lemma {:induction false} BlockWeight(blocks: seq<Run>, b: nat)
    requires b < |blocks|
    ensures Weight(blocks[b], 32) <= Weight(Flatten(blocks), 32)
  {
    hide Weight;
    var n := |blocks| - 1;
    WeightConcat(Flatten(blocks[..n]), blocks[n], 32);
    if b < n { BlockWeight(blocks[..n], b); }
  }

  // ---- the index ----

  /** Index keys are at most one byte longer than the last key of their block, and the handles are those
      of the blocks laid out one after the other. */
  ghost predicate Lean(c: Codec, blocks: seq<Run>, idx: Run, k: nat)
    requires k >= 1
  {
    && |idx| == |blocks| && NoEmptyBlock(blocks)
    && (forall b :: 0 <= b < |blocks| ==> |idx[b].key| <= |blocks[b][|blocks[b]| - 1].key| + 1)
    && (forall b :: 0 <= b < |blocks| ==> idx[b].value == EncodeHandle(HandleOf(c, blocks, k, b)))
  }

  function HandleOf(c: Codec, blocks: seq<Run>, k: nat, b: nat): Handle
    requires k >= 1 && b < |blocks|
  {
    Handle(FrameTotal(c, blocks[..b], k), |Frame(c, Block(blocks[b], k))|)
  }

  lemma LeanPush(c: Codec, blocks: seq<Run>, idx: Run, k: nat, es: Run, sep: Key)
    requires k >= 1 && Lean(c, blocks, idx, k) && es != [] && |sep| <= |es[|es| - 1].key| + 1
    ensures Lean(c, blocks + [es],
                 idx + [Entry(sep, EncodeHandle(Handle(FrameTotal(c, blocks, k), |Frame(c, Block(es, k))|)))], k)
  {
    hide Frame, Block, EncodeHandle, FrameTotal;
    var bs: seq<Run> := blocks + [es];
    assert bs[..|blocks|] == blocks;
    forall b | 0 <= b < |blocks| ensures HandleOf(c, bs, k, b) == HandleOf(c, blocks, k, b) {
      assert bs[..b] == blocks[..b];
    }
  }

  /** A handle takes at most ten bytes, so the builder's sixteen always suffice. */
  lemma HandleBound(c: Codec, blocks: seq<Run>, idx: Run, k: nat, b: nat)
    requires k >= 1 && Tame(c) && Lean(c, blocks, idx, k) && Small(Flatten(blocks)) && b < |blocks|
    ensures |idx[b].value| <= 10 && DecodeHandle(idx[b].value) == HandleOf(c, blocks, k, b)
    ensures OffsetOf(idx, b) < TWO64
  {
    hide Frame, Block, Weight, Flatten, Tame, FrameTotal, EncodeVar, DecodeHandle;
    FrameTotalBound(c, blocks, k);
    FrameTotalPrefix(c, blocks, k, b);
    var h := HandleOf(c, blocks, k, b);
    VarAtMost5(h.offset);
    VarAtMost5(h.size);
    HandleRoundTrip(h);
  }

  lemma {:induction false} IndexWeight(blocks: seq<Run>, idx: Run)
    requires |idx| == |blocks| && NoEmptyBlock(blocks)
    requires forall b :: 0 <= b < |blocks| ==>
             |idx[b].key| <= |blocks[b][|blocks[b]| - 1].key| + 1 && |idx[b].value| <= 10
    ensures Weight(idx, 15) <= Weight(Flatten(blocks), 32)
  {
    if blocks != [] {
      var n := |blocks| - 1;
      IndexWeight(blocks[..n], idx[..n]);
      WeightConcat(Flatten(blocks[..n]), blocks[n], 32);
      WeightCount(blocks[n][..|blocks[n]| - 1], 32);
    }
  }

  /** The sizes the on-disk integers can hold. */
  ghost predicate InRange(blocks: seq<Run>, idx: Run, k: nat)
    requires k >= 1
  {
    && |idx| == |blocks| && SmallBlock(idx, k)
    && (forall b :: 0 <= b < |blocks| ==> SmallBlock(blocks[b], k))
    && (forall b :: 0 <= b < |blocks| ==> OffsetOf(idx, b) < TWO64)
  }

  /** Small entries give a table whose every size and offset fits. */
  lemma SmallIsInRange(c: Codec, blocks: seq<Run>, idx: Run, k: nat)
    requires k >= 1 && Tame(c) && Lean(c, blocks, idx, k) && Small(Flatten(blocks))
    ensures InRange(blocks, idx, k)
    ensures forall b :: 0 <= b < |blocks| ==> |idx[b].value| <= 10
  {
    hide Body, Weight, Flatten, Tame, OffsetOf, HandleOf, EncodeHandle;
    forall b | 0 <= b < |blocks| ensures |idx[b].value| <= 10 && OffsetOf(idx, b) < TWO64 {
      HandleBound(c, blocks, idx, k, b);
    }
    forall b | 0 <= b < |blocks| ensures SmallBlock(blocks[b], k) {
      BlockWeight(blocks, b);
      WeightCount(blocks[b], 32);
      BodyBound(blocks[b], k);
    }
    IndexWeight(blocks, idx);
    BodyBound(idx, k);
  }
}

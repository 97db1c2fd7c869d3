/** The layout of an sstable file: framed data blocks and an index block of separator keys
    (sstable/src/table_builder.rs, sstable/src/block.rs). */
module TableFormat {
  import opened Bytes
  import opened Runs
  import opened Coding
  import opened BlockFormat

  /** How blocks are written: compressed or not, and the CRC as a function. */
  datatype Codec = Codec(compressed: bool, snappy: Snappy, crc: seq<byte> -> bv32) {
    ghost predicate Sound() {
      snappy.Sound()
    }
  }

  function WordToNat(w: bv32): (n: nat)
    ensures n < TWO32
  {
    w as nat
  }

  function NatToWord(n: nat): bv32
    requires n < TWO32
  {
    n as bv32
  }

  lemma WordRoundTrip(w: bv32)
    ensures NatToWord(WordToNat(w)) == w
  {
  }

  /** A block as it is written to the file: contents, compression type, masked checksum. */
  function Frame(c: Codec, raw: seq<byte>): seq<byte> {
    var body := (if c.compressed then c.snappy.compress(raw) else raw) + [if c.compressed then 1 else 0];
    body + EncodeFixed32(WordToNat(MaskCrc(c.crc(body))))
  }

  /** Reads a framed block; `None` is a checksum error or an unknown compression type. */
  function Unframe(c: Codec, data: seq<byte>): Option<seq<byte>> {
    if |data| < 5 then None
    else
      var n := |data| - 4;
      var stored := DecodeFixed32(data[n..]);
      if UnmaskCrc(NatToWord(stored)) != c.crc(data[..n]) then None
      else if data[n - 1] == 0 then Some(data[..n - 1])
      else if data[n - 1] == 1 then c.snappy.decompress(data[..n - 1])
      else None
  }

  lemma FrameRoundTrip(c: Codec, raw: seq<byte>)
    requires c.Sound()
    ensures Unframe(c, Frame(c, raw)) == Some(raw)
  {
    hide EncodeFixed32, DecodeFixed32, MaskCrc, UnmaskCrc, WordToNat, NatToWord;
    var stored := if c.compressed then c.snappy.compress(raw) else raw;
    var body := stored + [if c.compressed then 1 else 0];
    var word := WordToNat(MaskCrc(c.crc(body)));
    var data := Frame(c, raw);
    var n := |data| - 4;
    assert data[n..] == EncodeFixed32(word) && data[..n] == body;
    assert data[..n - 1] == stored;
    Fixed32RoundTrip(word);
    WordRoundTrip(MaskCrc(c.crc(body)));
    MaskRoundTrip(c.crc(body));
  }

  /** The block a handle points at. */
  function ReadAt(c: Codec, file: seq<byte>, h: Handle): Option<seq<byte>> {
    if h.offset + h.size <= |file| then Unframe(c, file[h.offset..h.offset + h.size]) else None
  }

  lemma ReadAppended(c: Codec, file: seq<byte>, raw: seq<byte>)
    requires c.Sound()
    ensures ReadAt(c, file + Frame(c, raw), Handle(|file|, |Frame(c, raw)|)) == Some(raw)
  {
    hide Frame, Unframe;
    FrameRoundTrip(c, raw);
    assert (file + Frame(c, raw))[|file|..|file| + |Frame(c, raw)|] == Frame(c, raw);
  }

  lemma ReadKept(c: Codec, file: seq<byte>, more: seq<byte>, h: Handle)
    requires ReadAt(c, file, h).Some?
    ensures ReadAt(c, file + more, h) == ReadAt(c, file, h)
  {
    hide Unframe;
    assert (file + more)[h.offset..h.offset + h.size] == file[h.offset..h.offset + h.size];
  }

  /** A finished table. The meta block and the footer are given by their decoded contents. */
  datatype TableFile = TableFile(bytes: seq<byte>, index: Handle, min: Key, max: Key, filter: set<Key>)

  // ---- runs of blocks ----

  function Flatten(blocks: seq<Run>): Run {
    if blocks == [] then [] else Flatten(blocks[..|blocks| - 1]) + blocks[|blocks| - 1]
  }

  /** Index of the first entry of block `b` among all entries. */
  function Start(blocks: seq<Run>, b: nat): nat
    requires b <= |blocks|
  {
    |Flatten(blocks[..b])|
  }

  lemma {:induction false} FlattenAt(blocks: seq<Run>, b: nat, p: nat)
    requires b < |blocks| && p < |blocks[b]|
    ensures Start(blocks, b + 1) == Start(blocks, b) + |blocks[b]| <= |Flatten(blocks)|
    ensures Flatten(blocks)[Start(blocks, b) + p] == blocks[b][p]
  {
    assert blocks[..b + 1][..b] == blocks[..b];
    if b == |blocks| - 1 {
      assert blocks[..b + 1] == blocks;
    } else {
      var front := blocks[..|blocks| - 1];
      FlattenAt(front, b, p);
      assert front[..b] == blocks[..b] && front[..b + 1] == blocks[..b + 1];
    }
  }

  lemma StartEnds(blocks: seq<Run>)
    ensures Start(blocks, 0) == 0 && Start(blocks, |blocks|) == |Flatten(blocks)|
  {
    assert blocks[..|blocks|] == blocks;
  }

  // ---- the index ----

  /** Every index key separates its block from all later blocks. */
  ghost predicate Separates(blocks: seq<Run>, idx: Run) {
    && |idx| == |blocks|
    && (forall b :: 0 <= b < |blocks| ==> blocks[b] != [] && Less(blocks[b][|blocks[b]| - 1].key, idx[b].key))
    && (forall b :: 0 <= b < |blocks| - 1 ==> Less(idx[b].key, blocks[b + 1][0].key))
  }

  ghost predicate SmallBlock(es: Run, k: nat)
    requires k >= 1
  {
    |Body(es, k)| + 4 < TWO32
  }

  /** The offset an index entry points to. */
  function OffsetOf(idx: Run, b: nat): nat
    requires b < |idx|
  {
    DecodeHandle(idx[b].value).offset
  }

  /** The file is a table of these blocks. */
  ghost predicate Represents(c: Codec, f: TableFile, blocks: seq<Run>, idx: Run, k: nat) {
    && c.Sound() && k >= 1 && blocks != [] && Separates(blocks, idx)
    && Sorted(Flatten(blocks)) && NonEmptyKeys(Flatten(blocks))
    && SmallBlock(idx, k) && (forall b :: 0 <= b < |blocks| ==> SmallBlock(blocks[b], k))
    && ReadAt(c, f.bytes, f.index) == Some(Block(idx, k))
    && (forall b :: 0 <= b < |blocks| ==> ReadAt(c, f.bytes, DecodeHandle(idx[b].value)) == Some(Block(blocks[b], k)))
    && (forall a, b :: 0 <= a < b < |blocks| ==> OffsetOf(idx, a) < OffsetOf(idx, b))
    && (forall b :: 0 <= b < |blocks| ==> OffsetOf(idx, b) < TWO64)
    && f.min == Flatten(blocks)[0].key && f.max == Flatten(blocks)[|Flatten(blocks)| - 1].key
    && (forall i :: 0 <= i < |Flatten(blocks)| ==> Flatten(blocks)[i].key in f.filter)
  }

  /** A block of a sorted table is sorted and has non-empty keys. */
  lemma BlockSorted(blocks: seq<Run>, b: nat)
    requires b < |blocks| && Sorted(Flatten(blocks)) && NonEmptyKeys(Flatten(blocks))
    ensures Sorted(blocks[b]) && NonEmptyKeys(blocks[b])
  {
    hide Less, Start, Flatten;
    var all, es, s := Flatten(blocks), blocks[b], Start(blocks, b);
    forall i, j | 0 <= i < j < |es| ensures Less(es[i].key, es[j].key) {
      FlattenAt(blocks, b, i);
      FlattenAt(blocks, b, j);
      assert Less(all[s + i].key, all[s + j].key);
    }
    forall i | 0 <= i < |es| ensures es[i].key != [] {
      FlattenAt(blocks, b, i);
      assert all[s + i].key != [];
    }
  }

  /** Index keys strictly increase. */
  lemma {:induction false} IndexSorted(blocks: seq<Run>, idx: Run)
    requires Separates(blocks, idx) && forall b :: 0 <= b < |blocks| ==> Sorted(blocks[b])
    ensures Sorted(idx) && NonEmptyKeys(idx)
  {
    hide Less;
    if blocks != [] {
      var n := |blocks| - 1;
      IndexSorted(blocks[..n], idx[..n]);
      NonEmptyAbove(blocks[n][|blocks[n]| - 1].key, idx[n].key);
      if n > 0 {
        var first, last := blocks[n][0].key, blocks[n][|blocks[n]| - 1].key;
        LessTransitive(idx[n - 1].key, first, if first == last then idx[n].key else last);
        if first != last { LessTransitive(idx[n - 1].key, last, idx[n].key); }
      }
      SortedPush(idx[..n], idx[n]);
      assert idx == idx[..n] + [idx[n]];
    }
  }

  lemma NonEmptyAbove(a: Key, b: Key)
    requires Less(a, b)
    ensures b != []
  {
  }
}

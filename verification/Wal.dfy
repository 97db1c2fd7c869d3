/** The write-ahead log: record encoding, segments, and the order segments are found in
    (mirdb-server/src/wal.rs, `make_file_name` in mirdb-server/src/utils.rs). */
module Wals {
  import opened Bytes
  import opened Runs
  import opened Coding

  /** Bytes up to the next record, as `4usize.wrapping_sub(len) & 7` computes it. */
  function Padding(len: nat): (p: nat)
    ensures p < 8 && (len + p) % 8 == 4
  {
    (4 - len) % 8
  }

  function Zeros(n: nat): (z: seq<byte>)
    ensures |z| == n
  {
    seq(n, _ => 0)
  }

  /** One record: total size, key size, compressed key, compressed value, padding. */
  function RecordBytes(c: Snappy, e: Entry): seq<byte> {
    var k, v := c.compress(e.key), c.compress(e.value);
    EncodeFixed32(|k| + |v|) + EncodeFixed32(|k|) + k + v + Zeros(Padding(|k| + |v|))
  }

  function SegBytes(c: Snappy, records: seq<Entry>): seq<byte> {
    if records == [] then [] else SegBytes(c, records[..|records| - 1]) + RecordBytes(c, records[|records| - 1])
  }

  /** The sizes the record header can hold. */
  ghost predicate Fits(c: Snappy, e: Entry) {
    |c.compress(e.key)| + |c.compress(e.value)| < TWO32
  }

  ghost predicate AllFit(c: Snappy, records: seq<Entry>) {
    forall i :: 0 <= i < |records| ==> Fits(c, records[i])
  }

  /** Where record `i` starts. */
  function RecordOff(c: Snappy, records: seq<Entry>, i: nat): nat
    requires i <= |records|
  {
    |SegBytes(c, records[..i])|
  }

  lemma {:induction false} SegPrefix(c: Snappy, records: seq<Entry>, i: nat)
    requires i <= |records|
    ensures RecordOff(c, records, i) <= |SegBytes(c, records)|
    ensures SegBytes(c, records)[..RecordOff(c, records, i)] == SegBytes(c, records[..i])
  {
    hide RecordBytes;
    if i == |records| {
      assert records[..i] == records;
    } else {
      var front := records[..|records| - 1];
      SegPrefix(c, front, i);
      assert front[..i] == records[..i];
    }
  }

  lemma RecordAt(c: Snappy, records: seq<Entry>, i: nat)
    requires i < |records|
    ensures RecordOff(c, records, i + 1) ==
            RecordOff(c, records, i) + |RecordBytes(c, records[i])| <= |SegBytes(c, records)|
    ensures SegBytes(c, records)[RecordOff(c, records, i)..RecordOff(c, records, i + 1)] == RecordBytes(c, records[i])
  {
    hide RecordBytes;
    SegPrefix(c, records, i + 1);
    var upto := records[..i + 1];
    assert upto[..i] == records[..i];
    assert SegBytes(c, upto) == SegBytes(c, records[..i]) + RecordBytes(c, records[i]);
    assert SegBytes(c, records)[RecordOff(c, records, i)..RecordOff(c, records, i + 1)] ==
        SegBytes(c, upto)[RecordOff(c, records, i)..];
  }

  /** A segment file. */
  class WalSeg {
    const snappy: Snappy
    var file: seq<byte>
    var size: nat
    ghost var records: seq<Entry>

    ghost predicate Valid()
      reads this
    {
      file == SegBytes(snappy, records) && size == |file|
    }

    constructor (snappy: Snappy)
      ensures Valid() && records == [] && this.snappy == snappy
    {
      this.snappy := snappy;
      file, size := [], 0;
      records := [];
    }

    method Append(key: Key, value: Value)
      requires Valid()
      modifies this
      ensures Valid() && records == old(records) + [Entry(key, value)]
    {
      var keyBuf, valueBuf := snappy.compress(key), snappy.compress(value);
      var padding := Padding(|keyBuf| + |valueBuf|);
      var buf := EncodeFixed32(|keyBuf| + |valueBuf|) + EncodeFixed32(|keyBuf|) + keyBuf + valueBuf + Zeros(padding);
      file := file + buf;
      size := size + |buf|;
      records := records + [Entry(key, value)];
      assert records[..|records| - 1] == old(records);
    }
  }

  /** Reads a segment from the front. */
  class WalSegIter {
    const snappy: Snappy
    const file: seq<byte>
    var offset: nat
    ghost const records: seq<Entry>

    ghost predicate At(i: nat)
      reads this
    {
      && snappy.Sound() && AllFit(snappy, records) && file == SegBytes(snappy, records)
      && i <= |records| && offset == RecordOff(snappy, records, i)
    }

    constructor (snappy: Snappy, file: seq<byte>, ghost records: seq<Entry>)
      requires snappy.Sound() && AllFit(snappy, records) && file == SegBytes(snappy, records)
      ensures At(0) && this.records == records && this.snappy == snappy
    {
      this.snappy, this.file := snappy, file;
      offset := 0;
      this.records := records;
    }

    /** The next record, or none at the end of the file. */
    method Next(ghost i: nat) returns (r: Option<Entry>)
      requires At(i)
      modifies this
      ensures i < |records| ==> r == Some(records[i]) && At(i + 1)
      ensures i == |records| ==> r == None && At(i)
    {
      hide SegBytes, EncodeFixed32, DecodeFixed32, RecordOff;
      SegPrefix(snappy, records, i);
      AtEnd(snappy, records);
      if i < |records| {
        RecordAt(snappy, records, i);
        ParseRecord(snappy, file, offset, records[i]);
      }
      if offset >= |file| {
        return None;
      }
      var size := DecodeFixed32(file[offset..offset + 4]);
      if size == 0 {
        return None;
      }
      var off := offset + 4;
      var keySize := DecodeFixed32(file[off..off + 4]);
      off := off + 4;
      var data := file[off..off + size];
      var key := snappy.decompress(data[..keySize]);
      var value := snappy.decompress(data[keySize..]);
      offset := off + size + Padding(size);
      return Some(Entry(key.value, value.value));
    }
  }

  lemma AtEnd(c: Snappy, records: seq<Entry>)
    ensures RecordOff(c, records, |records|) == |SegBytes(c, records)|
  {
    assert records[..|records|] == records;
  }

  /** What the reader finds at the offset of a record. */
  lemma ParseRecord(c: Snappy, file: seq<byte>, off: nat, e: Entry)
    requires c.Sound() && Fits(c, e) && off + |RecordBytes(c, e)| <= |file|
    requires file[off..off + |RecordBytes(c, e)|] == RecordBytes(c, e)
    ensures var k, v := c.compress(e.key), c.compress(e.value);
            var size := |k| + |v|;
            && off + 8 + size + Padding(size) == off + |RecordBytes(c, e)| <= |file| && off < |file|
            && DecodeFixed32(file[off..off + 4]) == size > 0
            && DecodeFixed32(file[off + 4..off + 8]) == |k| <= size
            && file[off + 8..off + 8 + size][..|k|] == k
            && file[off + 8..off + 8 + size][|k|..] == v
            && c.decompress(k) == Some(e.key) && c.decompress(v) == Some(e.value)
  {
    hide EncodeFixed32, DecodeFixed32, Padding;
    var k, v := c.compress(e.key), c.compress(e.value);
    var size := |k| + |v|;
    var rec := RecordBytes(c, e);
    SliceOf(file, off, rec, 0, 4);
    SliceOf(file, off, rec, 4, 8);
    SliceOf(file, off, rec, 8, 8 + size);
    assert rec[0..4] == EncodeFixed32(size) && rec[4..8] == EncodeFixed32(|k|);
    assert rec[8..8 + size] == k + v;
    Fixed32RoundTrip(size);
    Fixed32RoundTrip(|k|);
  }

  /** Reading a segment back gives exactly the appended records, in order. */
  method ReadSegment(snappy: Snappy, file: seq<byte>, ghost records: seq<Entry>) returns (out: seq<Entry>)
    requires snappy.Sound() && AllFit(snappy, records) && file == SegBytes(snappy, records)
    ensures out == records
  {
    hide SegBytes, RecordOff, AllFit;
    var iter := new WalSegIter(snappy, file, records);
    out := [];
    ghost var i := 0;
    while true
      invariant fresh(iter) && iter.At(i) && iter.records == records && i <= |records|
      invariant out == records[..i]
      decreases |records| - i
    {
      var r := iter.Next(i);
      if r.None? {
        break;
      }
      out := out + [r.value];
      i := i + 1;
    }
  }

  function ConcatRecords(segs: seq<seq<Entry>>): seq<Entry> {
    if segs == [] then [] else segs[0] + ConcatRecords(segs[1..])
  }

  /** The records of earlier segments come before those of later ones. */
  lemma {:induction false} ConcatRecordsJoin(a: seq<seq<Entry>>, b: seq<seq<Entry>>)
    ensures ConcatRecords(a + b) == ConcatRecords(a) + ConcatRecords(b)
    ensures |a| == 1 ==> ConcatRecords(a) == a[0]
  {
    if a == [] {
      assert a + b == b;
    } else {
      ConcatRecordsJoin(a[1..], b);
      assert (a + b)[1..] == a[1..] + b;
    }
  }

  ghost predicate EncodedSegs(snappy: Snappy, files: seq<seq<byte>>, segs: seq<seq<Entry>>) {
    |files| == |segs| && forall i :: 0 <= i < |segs| ==>
        AllFit(snappy, segs[i]) && files[i] == SegBytes(snappy, segs[i])
  }

  /** `WALIter`: all records of all segments, oldest first. */
  method ReadLog(snappy: Snappy, files: seq<seq<byte>>, ghost segs: seq<seq<Entry>>) returns (out: seq<Entry>)
    requires snappy.Sound() && EncodedSegs(snappy, files, segs)
    ensures out == ConcatRecords(segs)
  {
    hide SegBytes, AllFit;
    out := [];
    var i := 0;
    while i < |files|
      invariant 0 <= i <= |files|
      invariant out + ConcatRecords(segs[i..]) == ConcatRecords(segs)
    {
      var part := ReadSegment(snappy, files[i], segs[i]);
      assert segs[i..][1..] == segs[i + 1..];
      assert out + (part + ConcatRecords(segs[i + 1..])) == out + part + ConcatRecords(segs[i + 1..]);
      out := out + part;
      i := i + 1;
    }
    assert segs[i..] == [];
    assert out + [] == out;
  }

  // ---- segment file names ----

  /** The last `width` decimal digits. */
  function Digits(n: nat, width: nat): (s: seq<byte>)
    ensures |s| == width
  {
    if width == 0 then [] else Digits(n / 10, width - 1) + [48 + n % 10]
  }

  /** How many digits a number has. */
  function DigitCount(n: nat): nat {
    if n < 10 then 1 else 1 + DigitCount(n / 10)
  }

  /** How long the number part of a file name is: at least eight digits. */
  function Width(n: nat): nat {
    if DigitCount(n) < 8 then 8 else DigitCount(n)
  }

  /** The number part of a file name. */
  function FileNumber(n: nat): (s: seq<byte>)
    ensures |s| == Width(n)
  {
    Digits(n, Width(n))
  }

  function Pow10(w: nat): (p: nat)
    ensures p >= 1
  {
    if w == 0 then 1 else 10 * Pow10(w - 1)
  }

  /** Numbers that fit in the same width sort like their digits. */
  lemma {:induction false} DigitsOrder(a: nat, b: nat, width: nat)
    requires a < b < Pow10(width)
    ensures Less(Digits(a, width), Digits(b, width))
  {
    var da, db := Digits(a / 10, width - 1), Digits(b / 10, width - 1);
    if a / 10 == b / 10 {
      LessAfterPrefix(da + [48 + a % 10], db + [48 + b % 10], width - 1);
      assert (da + [48 + a % 10])[width - 1..] == [48 + a % 10];
      assert (db + [48 + b % 10])[width - 1..] == [48 + b % 10];
    } else {
      DigitsOrder(a / 10, b / 10, width - 1);
      LessExtended(da, db, [48 + a % 10], [48 + b % 10]);
    }
  }

  lemma {:induction false} LessExtended(a: seq<byte>, b: seq<byte>, x: seq<byte>, y: seq<byte>)
    requires |a| == |b| && Less(a, b)
    ensures Less(a + x, b + y)
  {
    if a != [] && a[0] == b[0] {
      LessExtended(a[1..], b[1..], x, y);
      assert (a + x)[1..] == a[1..] + x && (b + y)[1..] == b[1..] + y;
    }
  }

  /** A number with `d` digits lies between two powers of ten. */
  lemma {:induction false} DigitCountRange(n: nat)
    ensures DigitCount(n) >= 1 && n < Pow10(DigitCount(n)) && (n >= 10 ==> n >= Pow10(DigitCount(n) - 1))
  {
    if n >= 10 {
      DigitCountRange(n / 10);
      if n / 10 < 10 { assert Pow10(1) == 10 * Pow10(0); }
    } else {
      assert Pow10(1) == 10 * Pow10(0);
    }
  }

  lemma {:induction false} PowMonotone(v: nat, w: nat)
    requires v <= w
    ensures Pow10(v) <= Pow10(w)
  {
    if v < w { PowMonotone(v, w - 1); }
  }

  lemma FitsWidth(n: nat, w: nat)
    requires Width(n) <= w
    ensures n < Pow10(w)
  {
    DigitCountRange(n);
    PowMonotone(DigitCount(n), w);
  }

  lemma {:induction false} DigitCountMonotone(a: nat, b: nat)
    requires a <= b
    ensures DigitCount(a) <= DigitCount(b)
  {
    if a >= 10 { DigitCountMonotone(a / 10, b / 10); }
  }

  /** Names of the same length sort like their numbers. */
  lemma SameWidthInOrder(a: nat, b: nat)
    requires a < b && Width(a) == Width(b)
    ensures Less(FileNumber(a), FileNumber(b))
  {
    FitsWidth(b, Width(b));
    DigitsOrder(a, b, Width(b));
  }

  /** Different numbers have different names. */
  lemma NamesDiffer(a: nat, b: nat)
    requires a != b
    ensures FileNumber(a) != FileNumber(b)
  {
    hide Less, Digits, DigitCount;
    if Width(a) == Width(b) {
      SameWidthInOrder(if a < b then a else b, if a < b then b else a);
      LessIrreflexive(FileNumber(a));
    }
  }

  /** The first digit does not depend on the ones behind it. */
  lemma {:induction false} FirstDigit(n: nat, w: nat)
    ensures Digits(n, w + 1)[0] == 48 + Leading(n, w)
  {
    if w > 0 { FirstDigit(n / 10, w - 1); }
  }

  function Leading(n: nat, w: nat): (d: nat)
    ensures d < 10
  {
    if w == 0 then n % 10 else Leading(n / 10, w - 1)
  }

  lemma {:induction false} PowerDigits(w: nat)
    ensures DigitCount(Pow10(w)) == w + 1 && Leading(Pow10(w), w) == 1
  {
    if w > 0 {
      PowerDigits(w - 1);
      assert Pow10(w) / 10 == Pow10(w - 1);
    }
  }

  lemma {:induction false} NinesDigits(w: nat)
    requires w >= 1
    ensures DigitCount(Pow10(w) - 1) == w && Leading(Pow10(w) - 1, w - 1) == 9
  {
    if w > 1 {
      NinesDigits(w - 1);
      assert (Pow10(w) - 1) / 10 == Pow10(w - 1) - 1;
      assert Pow10(w - 1) - 1 >= 1 by { assert Pow10(w - 1) == 10 * Pow10(w - 2); }
    } else {
      assert Pow10(1) == 10 * Pow10(0);
    }
  }

  /** Where the names get longer the order breaks: the first longer one sorts before the last shorter one. */
  lemma OrderBreaksAt(w: nat)
    requires w >= 8
    ensures Less(FileNumber(Pow10(w)), FileNumber(Pow10(w) - 1))
  {
    PowerDigits(w);
    NinesDigits(w);
    FirstDigit(Pow10(w), w);
    FirstDigit(Pow10(w) - 1, w - 1);
  }

  /** Consecutive segments sort by path in creation order exactly when the first and the last name have
      the same length. */
  lemma PathOrderExact(lo: nat, hi: nat)
    requires lo < hi
    ensures (forall a, b :: lo <= a < b < hi ==> Less(FileNumber(a), FileNumber(b))) <==> Width(lo) == Width(hi - 1)
  {
    hide Less, FileNumber, Pow10, DigitCount;
    if Width(lo) == Width(hi - 1) {
      forall a, b | lo <= a < b < hi ensures Less(FileNumber(a), FileNumber(b)) {
        DigitCountMonotone(lo, a);
        DigitCountMonotone(a, b);
        DigitCountMonotone(b, hi - 1);
        SameWidthInOrder(a, b);
      }
    } else {
      DigitCountMonotone(lo, hi - 1);
      var w := DigitCount(hi - 1) - 1;
      LongerNames(lo, hi - 1);
      OrderBreaksAt(w);
      LessAsymmetric(FileNumber(Pow10(w)), FileNumber(Pow10(w) - 1));
      assert lo <= Pow10(w) - 1 < Pow10(w) < hi && !Less(FileNumber(Pow10(w) - 1), FileNumber(Pow10(w)));
    }
  }

  lemma LongerNames(a: nat, b: nat)
    requires Width(a) < Width(b)
    ensures DigitCount(b) >= 9 && a < Pow10(DigitCount(b) - 1) <= b
  {
    DigitCountRange(b);
    FitsWidth(a, DigitCount(b) - 1);
  }

  /** The same in numbers: they fit in eight digits, or all have the same number of digits. */
  lemma WidthInDigits(lo: nat, hi: nat)
    requires lo < hi
    ensures Width(lo) == Width(hi - 1) <==> hi <= 100_000_000 || DigitCount(lo) == DigitCount(hi - 1)
  {
    hide Pow10;
    EightDigits();
    DigitCountMonotone(lo, hi - 1);
    DigitCountRange(hi - 1);
    if DigitCount(hi - 1) <= 8 { PowMonotone(DigitCount(hi - 1), 8); } else { PowMonotone(8, DigitCount(hi - 1) - 1); }
  }

  lemma EightDigits()
    ensures Pow10(8) == 100_000_000
  {
    assert Pow10(2) == 100 && Pow10(4) == 100 * Pow10(2) && Pow10(6) == 100 * Pow10(4) && Pow10(8) == 100 * Pow10(6);
  }
}

/** Integer encodings of the on-disk formats: LEB128 varints, little-endian fixed-width integers,
    block handles (sstable/src/block_handle.rs) and masked checksums (sstable/src/util.rs). */
module Coding {
  import opened Bytes

  // ---- varints ----

  function EncodeVar(n: nat): (s: seq<byte>)
    ensures |s| >= 1
  {
    if n < 128 then [n] else [n % 128 + 128] + EncodeVar(n / 128)
  }

  /** The decoded number and how many bytes it took. */
  function DecodeVar(s: seq<byte>): (nat, nat) {
    if s == [] then (0, 0)
    else if s[0] < 128 then (s[0], 1)
    else
      var (n, len) := DecodeVar(s[1..]);
      (s[0] - 128 + 128 * n, len + 1)
  }

  lemma {:induction false} VarRoundTrip(n: nat, rest: seq<byte>)
    ensures DecodeVar(EncodeVar(n) + rest) == (n, |EncodeVar(n)|)
  {
    var s := EncodeVar(n) + rest;
    if n >= 128 {
      VarRoundTrip(n / 128, rest);
      assert s[1..] == EncodeVar(n / 128) + rest;
    }
  }

  /** The same at an offset of a larger buffer. */
  lemma VarAt(buf: seq<byte>, off: nat, n: nat)
    requires off + |EncodeVar(n)| <= |buf|
    requires buf[off..off + |EncodeVar(n)|] == EncodeVar(n)
    ensures DecodeVar(buf[off..]) == (n, |EncodeVar(n)|)
  {
    var len := |EncodeVar(n)|;
    assert buf[off..] == buf[off..off + len] + buf[off + len..];
    VarRoundTrip(n, buf[off + len..]);
  }

  function Pow128(d: nat): nat {
    if d == 0 then 1 else 128 * Pow128(d - 1)
  }

  /** Seven bits to a byte. */
  lemma {:induction false} VarLength(n: nat, d: nat)
    requires d >= 1 && n < Pow128(d)
    ensures |EncodeVar(n)| <= d
  {
    if n >= 128 { VarLength(n / 128, d - 1); }
  }

  lemma VarAtMost5(n: nat)
    requires n < 8 * TWO32
    ensures |EncodeVar(n)| <= 5
  {
    assert Pow128(2) == 16384 && Pow128(4) == 16384 * Pow128(2) && Pow128(5) == 128 * Pow128(4);
    VarLength(n, 5);
  }

  // ---- fixed-width integers ----

  /** `n as u32`, little-endian. */
  function EncodeFixed32(n: nat): (s: seq<byte>)
    ensures |s| == 4
  {
    [n % 256, n / 256 % 256, n / 65536 % 256, n / 16777216 % 256]
  }

  function DecodeFixed32(s: seq<byte>): (n: nat)
    requires |s| >= 4
    ensures n < TWO32
  {
    s[0] + 256 * (s[1] as int) + 65536 * (s[2] as int) + 16777216 * (s[3] as int)
  }

  lemma Fixed32RoundTrip(n: nat)
    requires n < TWO32
    ensures DecodeFixed32(EncodeFixed32(n)) == n
  {
    assert n / 256 / 256 == n / 65536;
    assert n / 65536 / 256 == n / 16777216;
  }

  /** Only the low 32 bits are written. */
  lemma Fixed32Truncates(n: nat)
    ensures EncodeFixed32(n % TWO32) == EncodeFixed32(n)
  {
    var m := n % TWO32;
    ShiftByte32(n);
    ShiftByte24(n / 256);
    ShiftByte16(n / 256 / 256);
    assert n / 256 / 256 == n / 65536 && n / 65536 / 256 == n / 16777216;
    assert m / 256 / 256 == m / 65536 && m / 65536 / 256 == m / 16777216;
  }

  /** The lowest byte and the rest of a number cut to `256 * w`. */
  lemma ShiftByte(n: nat, w: nat)
    requires w >= 1
    ensures n % (256 * w) % 256 == n % 256 && n % (256 * w) / 256 == n / 256 % w
  {
    var m := n / 256;
    var q, r := m / w, m % w;
    assert m == q * w + r;
    var low := 256 * r + n % 256;
    assert n == q * (256 * w) + low;
    assert low < 256 * w;
    ModUnique(n, 256 * w, q, low);
  }

  lemma ModUnique(n: nat, k: nat, q: nat, r: nat)
    requires k >= 1 && n == q * k + r && r < k
    ensures n % k == r
  {
    var d := n / k - q;
    assert n == (n / k) * k + n % k;
    assert d * k == r - n % k;
    if d >= 1 {
      MulAtLeast(d, k);
    } else if d <= -1 {
      MulAtLeast(-d, k);
      assert (-d) * k == -(d * k);
    }
  }

  lemma MulAtLeast(x: nat, k: nat)
    requires x >= 1
    ensures x * k >= k
  {
    assert x * k == (x - 1) * k + k;
  }

  lemma ShiftByte32(n: nat)
    ensures n % TWO32 % 256 == n % 256 && n % TWO32 / 256 == n / 256 % 0x100_0000
  {
    ShiftByte(n, 0x100_0000);
  }

  lemma ShiftByte24(n: nat)
    ensures n % 0x100_0000 % 256 == n % 256 && n % 0x100_0000 / 256 == n / 256 % 0x1_0000
  {
    ShiftByte(n, 0x1_0000);
  }

  lemma ShiftByte16(n: nat)
    ensures n % 0x1_0000 % 256 == n % 256 && n % 0x1_0000 / 256 % 256 == n / 256 % 256
  {
    ShiftByte(n, 0x100);
  }

  /** `n as u64`, little-endian. */
  function EncodeFixed64(n: nat): (s: seq<byte>)
    ensures |s| == 8
  {
    EncodeFixed32(n % TWO32) + EncodeFixed32(n / TWO32)
  }

  lemma Fixed64Injective(n: nat, m: nat)
    requires n < TWO64 && m < TWO64
    requires EncodeFixed64(n) == EncodeFixed64(m)
    ensures n == m
  {
    hide EncodeFixed32, DecodeFixed32;
    var b := TWO32;
    assert EncodeFixed64(n)[..4] == EncodeFixed32(n % b) && EncodeFixed64(n)[4..] == EncodeFixed32(n / b);
    assert EncodeFixed64(m)[..4] == EncodeFixed32(m % b) && EncodeFixed64(m)[4..] == EncodeFixed32(m / b);
    Fixed32RoundTrip(n % b);
    Fixed32RoundTrip(m % b);
    Fixed32RoundTrip(n / b);
    Fixed32RoundTrip(m / b);
  }

  // ---- compression ----

  /** Snappy, as a pair of functions. */
  datatype Snappy = Snappy(compress: seq<byte> -> seq<byte>, decompress: seq<byte> -> Option<seq<byte>>) {
    /** Decompression inverts compression, and nothing compresses to nothing. */
    ghost predicate Sound() {
      forall s :: decompress(compress(s)) == Some(s) && compress(s) != []
    }

    /** Snappy's own bound on the length of its output (`max_compress_len`). */
    ghost predicate Tame() {
      forall s :: |compress(s)| <= 32 + |s| + |s| / 6
    }
  }

  // ---- block handles ----

  datatype Handle = Handle(offset: nat, size: nat)

  function EncodeHandle(h: Handle): seq<byte> {
    EncodeVar(h.offset) + EncodeVar(h.size)
  }

  function DecodeHandle(s: seq<byte>): Handle {
    var (off, len) := DecodeVar(s);
    if len <= |s| then Handle(off, DecodeVar(s[len..]).0) else Handle(off, 0)
  }

  lemma HandleRoundTrip(h: Handle)
    ensures DecodeHandle(EncodeHandle(h)) == h
  {
    var s := EncodeHandle(h);
    VarRoundTrip(h.offset, EncodeVar(h.size));
    assert s[|EncodeVar(h.offset)|..] == EncodeVar(h.size) + [];
    VarRoundTrip(h.size, []);
  }

  // ---- masked checksums ----

  const MASK_DELTA: bv32 := 0xa282_ead8

  function MaskCrc(c: bv32): bv32 {
    ((c >> 15) | (c << 17)) + MASK_DELTA
  }

  function UnmaskCrc(mc: bv32): bv32 {
    var rot := mc - MASK_DELTA;
    (rot >> 17) | (rot << 15)
  }

  lemma MaskRoundTrip(c: bv32)
    ensures UnmaskCrc(MaskCrc(c)) == c
  {
    var rot := (c >> 15) | (c << 17);
    assert MaskCrc(c) - MASK_DELTA == rot;
  }

  // ---- bytes within a file ----

  /** A part of something stored in a buffer. */
  lemma SliceOf(buf: seq<byte>, off: nat, rec: seq<byte>, lo: nat, hi: nat)
    requires off + |rec| <= |buf| && buf[off..off + |rec|] == rec && lo <= hi <= |rec|
    ensures buf[off + lo..off + hi] == rec[lo..hi]
  {
    forall i | 0 <= i < |rec| ensures buf[off + i] == rec[i] {
      assert buf[off..off + |rec|][i] == rec[i];
    }
  }

  lemma PrefixSlice(buf: seq<byte>, n: nat, lo: nat, hi: nat)
    requires lo <= hi <= n <= |buf|
    ensures buf[..n][lo..hi] == buf[lo..hi]
  {
  }
}

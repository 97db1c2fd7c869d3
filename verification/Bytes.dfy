/** Byte strings and the order Rust's `Ord for [u8]` gives them. */
module Bytes {

  type byte = x: int | 0 <= x < 256

  const TWO32: nat := 0x1_0000_0000

  const TWO64: nat := 0x1_0000_0000_0000_0000

  type Key = seq<byte>

  type Value = seq<byte>

  datatype Option<+T> = None | Some(value: T)

  /** No element occurs twice. */
  ghost predicate Distinct<T>(s: seq<T>) {
    forall i, j :: 0 <= i < j < |s| ==> s[i] != s[j]
  }

  /** Lexicographic order; a proper prefix comes first. */
  predicate Less(a: seq<byte>, b: seq<byte>)
  {
    b != [] && (a == [] || a[0] < b[0] || (a[0] == b[0] && Less(a[1..], b[1..])))
  }

  /** The larger of two keys. */
  function MaxKey(a: Key, b: Key): Key {
    if Less(a, b) then b else a
  }

  /** The smaller of two keys. */
  function MinKey(a: Key, b: Key): Key {
    if Less(b, a) then b else a
  }

  lemma {:induction false} LessIrreflexive(a: seq<byte>)
    ensures !Less(a, a)
  {
    if a != [] {
      LessIrreflexive(a[1..]);
    }
  }

  lemma {:induction false} LessTransitive(a: seq<byte>, b: seq<byte>, c: seq<byte>)
    requires Less(a, b) && Less(b, c)
    ensures Less(a, c)
  {
    if a != [] && a[0] == b[0] == c[0] {
      LessTransitive(a[1..], b[1..], c[1..]);
    }
  }

  lemma {:induction false} LessTotal(a: seq<byte>, b: seq<byte>)
    ensures Less(a, b) || a == b || Less(b, a)
  {
    if a != [] && b != [] && a[0] == b[0] {
      LessTotal(a[1..], b[1..]);
      assert a == [a[0]] + a[1..] && b == [b[0]] + b[1..];
    }
  }

  lemma LessAsymmetric(a: seq<byte>, b: seq<byte>)
    ensures !(Less(a, b) && Less(b, a))
  {
    if Less(a, b) && Less(b, a) {
      LessTransitive(a, b, a);
      LessIrreflexive(a);
    }
  }

  /** The order in one package, for proofs that compare many keys. */
  lemma LessIsStrictTotalOrder()
    ensures forall a: seq<byte> :: !Less(a, a)
    ensures forall a: seq<byte>, b: seq<byte> :: Less(a, b) || a == b || Less(b, a)
    ensures forall a: seq<byte>, b: seq<byte>, c: seq<byte> :: Less(a, b) && Less(b, c) ==> Less(a, c)
  {
    forall a: seq<byte> ensures !Less(a, a) { LessIrreflexive(a); }
    forall a: seq<byte>, b: seq<byte> ensures Less(a, b) || a == b || Less(b, a) { LessTotal(a, b); }
    forall a: seq<byte>, b: seq<byte>, c: seq<byte> | Less(a, b) && Less(b, c) ensures Less(a, c) {
      LessTransitive(a, b, c);
    }
  }

  /** A common prefix can be cut off both sides of a comparison. */
  lemma {:induction false} LessAfterPrefix(a: seq<byte>, b: seq<byte>, d: nat)
    requires d <= |a| && d <= |b| && a[..d] == b[..d]
    ensures Less(a, b) <==> Less(a[d..], b[d..])
  {
    if d == 0 {
      assert a[0..] == a && b[0..] == b;
    } else {
      assert a[0] == a[..d][0] == b[0];
      assert a[1..][..d - 1] == a[..d][1..] == b[..d][1..] == b[1..][..d - 1];
      LessAfterPrefix(a[1..], b[1..], d - 1);
      assert a[1..][d - 1..] == a[d..] && b[1..][d - 1..] == b[d..];
    }
  }
}

/** Short index keys between data blocks (sstable/src/util.rs). */
module Separators {
  import opened Bytes

  /** Length of the common prefix. */
  function CommonPrefix(a: seq<byte>, b: seq<byte>): (d: nat)
    ensures d <= |a| && d <= |b| && a[..d] == b[..d]
    ensures d < |a| && d < |b| ==> a[d] != b[d]
  {
    if a != [] && b != [] && a[0] == b[0] then
      var d := CommonPrefix(a[1..], b[1..]);
      assert a[..d + 1] == [a[0]] + a[1..][..d] && b[..d + 1] == [b[0]] + b[1..][..d];
      d + 1
    else 0
  }

  lemma CommonPrefixUnique(a: seq<byte>, b: seq<byte>, d: nat)
    requires d <= |a| && d <= |b| && a[..d] == b[..d]
    requires d < |a| && d < |b| ==> a[d] != b[d]
    ensures CommonPrefix(a, b) == d
  {
    var e := CommonPrefix(a, b);
    assert forall i :: 0 <= i < d ==> a[i] == a[..d][i] == b[..d][i] == b[i];
    assert forall i :: 0 <= i < e ==> a[i] == a[..e][i] == b[..e][i] == b[i];
  }

  /** How two different strings compare is decided right after their common prefix. */
  lemma LessAtDifference(a: seq<byte>, b: seq<byte>)
    ensures var d := CommonPrefix(a, b);
            Less(a, b) <==> d < |b| && (d == |a| || a[d] < b[d])
  {
    var d := CommonPrefix(a, b);
    LessAfterPrefix(a, b, d);
    if d < |a| && d < |b| { assert a[d..][0] == a[d] && b[d..][0] == b[d]; }
  }

  lemma LessByByte(a: seq<byte>, b: seq<byte>, d: nat)
    requires d < |a| && d < |b| && a[..d] == b[..d] && a[d] < b[d]
    ensures Less(a, b)
  {
    CommonPrefixUnique(a, b, d);
    LessAtDifference(a, b);
  }

  lemma LessByPrefix(a: seq<byte>, b: seq<byte>)
    requires |a| < |b| && b[..|a|] == a
    ensures Less(a, b)
  {
    CommonPrefixUnique(a, b, |a|);
    LessAtDifference(a, b);
  }

  /** A key that separates `a` from a larger `b`. The result is never below `a` nor above `b`, and it is
      strictly between them exactly when there is a key between them at all. It ends at the first place
      behind the common prefix that has room for a byte in between. */
  method FindShortestSep(a: seq<byte>, b: seq<byte>) returns (sep: seq<byte>)
    ensures a == b ==> sep == a
    ensures Less(a, b) ==> Less(a, sep)
    ensures Less(a, b) ==> (Less(sep, b) <==> b != a + [0])
    ensures b == a + [0] ==> sep == b
    ensures |sep| <= |a| + 1
    ensures forall d :: CommonPrefix(a, b) <= d < |a| && d < |b| && a[d] as int + 1 < b[d] ==> |sep| <= d + 1
  {
    if a == b {
      LessIrreflexive(a);
      return a;
    }
    var min := if |a| < |b| then |a| else |b|;
    var diffAt := 0;
    while diffAt < min && a[diffAt] == b[diffAt]
      invariant 0 <= diffAt <= min && a[..diffAt] == b[..diffAt]
    {
      diffAt := diffAt + 1;
    }
    ghost var first := diffAt;
    CommonPrefixUnique(a, b, first);
    LessAtDifference(a, b);
    while diffAt < min
      invariant first <= diffAt <= min
      invariant forall d :: first <= d < diffAt ==> a[d] as int + 1 >= b[d]
    {
      var diff := a[diffAt];
      if diff < 0xff && diff + 1 < b[diffAt] {
        sep := a[..diffAt] + [diff + 1];
        SepByByte(a, b, first, diffAt);
        return;
      }
      diffAt := diffAt + 1;
    }
    sep := a + [0];
    SepByZero(a, b, first);
  }

  lemma SepByByte(a: seq<byte>, b: seq<byte>, first: nat, at: nat)
    requires first <= at < |a| && at < |b| && a[..first] == b[..first] && a[first] != b[first]
    requires a[at] as int + 1 < b[at]
    ensures Less(a, a[..at] + [a[at] + 1])
    ensures Less(a, b) ==> Less(a[..at] + [a[at] + 1], b)
    ensures b != a + [0]
  {
    var sep := a[..at] + [a[at] + 1];
    assert sep[..at] == a[..at];
    LessByByte(a, sep, at);
    CommonPrefixUnique(a, b, first);
    LessAtDifference(a, b);
    if Less(a, b) {
      assert sep[..first] == a[..at][..first] == a[..first];
      LessByByte(sep, b, first);
    }
  }

  lemma SepByZero(a: seq<byte>, b: seq<byte>, first: nat)
    requires first <= |a| && first <= |b| && a[..first] == b[..first] && a != b
    requires first < |a| && first < |b| ==> a[first] != b[first]
    ensures Less(a, a + [0])
    ensures Less(a, b) ==> (Less(a + [0], b) <==> b != a + [0])
  {
    var sep := a + [0];
    LessByPrefix(a, sep);
    CommonPrefixUnique(a, b, first);
    LessAtDifference(a, b);
    LessIrreflexive(sep);
    if Less(a, b) && b != sep {
      if first < |a| {
        assert sep[..first] == a[..first];
        LessByByte(sep, b, first);
      } else {
        assert b[..|a|] == a;
        if b[|a|] == 0 {
          assert b[..|sep|] == sep by { assert b[..|a| + 1] == b[..|a|] + [b[|a|]]; }
          assert b == b[..|b|];
          LessByPrefix(sep, b);
        } else {
          LessByByte(sep, b, |a|);
        }
      }
    }
  }

  /** The boundary case is real: between "a" and "a\0" there is no key, and the separator is the larger one. */
  lemma NoKeyBeforeZeroSuffix(a: seq<byte>, k: seq<byte>)
    ensures !(Less(a, k) && Less(k, a + [0]))
  {
    if Less(a, k) {
      LessAtDifference(a, k);
      LessAtDifference(k, a + [0]);
      var d := CommonPrefix(a, k);
      if d < |a| {
        assert (a + [0])[..d] == a[..d] == k[..d];
        CommonPrefixUnique(k, a + [0], d);
      } else {
        assert k[..|a|] == a == (a + [0])[..|a|];
        if k[|a|] == 0 {
          assert k[..|a| + 1] == k[..|a|] + [k[|a|]] == a + [0] == (a + [0])[..|a| + 1];
          CommonPrefixUnique(k, a + [0], |a| + 1);
        } else {
          CommonPrefixUnique(k, a + [0], |a|);
        }
      }
    }
  }

  /** A short key above `a`, for every `a`. */
  method FindShortSucc(a: seq<byte>) returns (result: seq<byte>)
    ensures Less(a, result)
    ensures result != []
    ensures |result| <= |a| + 1
    ensures 0 !in result
    ensures forall i :: 0 <= i < |a| && a[i] != 0xff ==> |result| <= i + 1
  {
    var i := 0;
    while i < |a|
      invariant 0 <= i <= |a|
      invariant forall j :: 0 <= j < i ==> a[j] == 0xff
    {
      if a[i] != 0xff {
        result := a[..i] + [a[i] + 1];
        LessByByte(a, result, i);
        return;
      }
      i := i + 1;
    }
    result := a + [255];
    LessByPrefix(a, result);
  }
}

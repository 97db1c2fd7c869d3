/** The log as a directory of segment files (`WAL` in mirdb-server/src/wal.rs). */
module WalLogs {
  import opened Bytes
  import opened Runs
  import opened Coding
  import opened Wals

  // ---- finding the segments again ----

  ghost predicate Increasing(ns: seq<nat>) {
    forall i, j :: 0 <= i < j < |ns| ==> ns[i] < ns[j]
  }

  /** Puts a path behind all smaller ones. */
  function InsertPath(ns: seq<nat>, n: nat): seq<nat> {
    if ns == [] || Less(FileNumber(ns[|ns| - 1]), FileNumber(n)) then ns + [n]
    else InsertPath(ns[..|ns| - 1], n) + [ns[|ns| - 1]]
  }

  /** Segment numbers in the order of their sorted paths. */
  function SortPaths(ns: seq<nat>): seq<nat> {
    if ns == [] then [] else InsertPath(SortPaths(ns[..|ns| - 1]), ns[|ns| - 1])
  }

  /** Earlier names sort before later ones. */
  ghost predicate NamesInOrder(ns: seq<nat>) {
    forall i, j :: 0 <= i < j < |ns| ==> Less(FileNumber(ns[i]), FileNumber(ns[j]))
  }

  lemma {:induction false} InsertPathSorted(ns: seq<nat>, n: nat)
    requires NamesInOrder(ns) && n !in ns
    ensures NamesInOrder(InsertPath(ns, n))
    ensures forall m :: m in InsertPath(ns, n) <==> m == n || m in ns
  {
    hide Less, FileNumber;
    if ns != [] {
      var front, last := ns[..|ns| - 1], ns[|ns| - 1];
      assert ns == front + [last];
      NamesDiffer(last, n);
      LessTotal(FileNumber(last), FileNumber(n));
      if Less(FileNumber(last), FileNumber(n)) {
        forall i | 0 <= i < |front| ensures Less(FileNumber(ns[i]), FileNumber(n)) {
          LessTransitive(FileNumber(ns[i]), FileNumber(last), FileNumber(n));
        }
      } else {
        InsertPathSorted(front, n);
        var r := InsertPath(front, n);
        forall i | 0 <= i < |r| ensures Less(FileNumber(r[i]), FileNumber(last)) {
          assert r[i] in r;
        }
      }
    }
  }

  /** Sorting paths loses nothing and puts the names in order. */
  lemma {:induction false} SortPathsSorted(ns: seq<nat>)
    requires Distinct(ns)
    ensures NamesInOrder(SortPaths(ns)) && forall m :: m in SortPaths(ns) <==> m in ns
  {
    hide InsertPath, Less, FileNumber;
    if ns != [] {
      var front, last := ns[..|ns| - 1], ns[|ns| - 1];
      assert ns == front + [last];
      SortPathsSorted(front);
      assert forall i :: 0 <= i < |front| ==> front[i] == ns[i];
      InsertPathSorted(SortPaths(front), last);
    }
  }

  ghost predicate SameMembers(a: seq<nat>, b: seq<nat>) {
    forall m :: m in a <==> m in b
  }

  lemma FrontMember(front: seq<nat>, x: nat, m: nat)
    requires NamesInOrder(front + [x])
    ensures m in front <==> m in front + [x] && m != x
    ensures m in front ==> Less(FileNumber(m), FileNumber(x))
  {
    hide Less, FileNumber;
    var a := front + [x];
    assert forall i :: 0 <= i < |front| ==> front[i] == a[i] && Less(FileNumber(a[i]), FileNumber(a[|front|]));
    LessIrreflexive(FileNumber(x));
  }

  lemma SameLast(fa: seq<nat>, x: nat, fb: seq<nat>, y: nat)
    requires NamesInOrder(fa + [x]) && NamesInOrder(fb + [y]) && SameMembers(fa + [x], fb + [y])
    ensures x == y && SameMembers(fa, fb)
  {
    hide NamesInOrder, Less, FileNumber;
    assert x in fa + [x] && y in fb + [y];
    FrontMember(fa, x, y);
    FrontMember(fb, y, x);
    LessAsymmetric(FileNumber(x), FileNumber(y));
    forall m ensures m in fa <==> m in fb {
      FrontMember(fa, x, m);
      FrontMember(fb, y, m);
    }
  }

  /** A set of paths can be listed in order in one way only. */
  lemma {:induction false} OrderUnique(a: seq<nat>, b: seq<nat>)
    requires NamesInOrder(a) && NamesInOrder(b) && SameMembers(a, b)
    ensures a == b
  {
    hide Less, FileNumber;
    assert b != [] ==> b[0] in b;
    assert a != [] ==> a[0] in a;
    if a != [] {
      var fa, fb := a[..|a| - 1], b[..|b| - 1];
      assert a == fa + [a[|a| - 1]] && b == fb + [b[|b| - 1]];
      SameLast(fa, a[|a| - 1], fb, b[|b| - 1]);
      OrderUnique(fa, fb);
    }
  }

  /** Sorting a directory listing gives the segments back in their order exactly when their names are in
      order. */
  lemma SortedListing(listing: seq<nat>, was: seq<nat>)
    requires Distinct(listing) && SameMembers(listing, was)
    ensures SortPaths(listing) == was <==> NamesInOrder(was)
  {
    hide SortPaths, NamesInOrder;
    SortPathsSorted(listing);
    if NamesInOrder(was) { OrderUnique(SortPaths(listing), was); }
  }

  /** The numbers from `lo` up to but not including `hi`. */
  function Range(lo: nat, hi: nat): (ns: seq<nat>)
    requires lo <= hi
    ensures |ns| == hi - lo && forall i :: 0 <= i < |ns| ==> ns[i] == lo + i
  {
    seq(hi - lo, i requires 0 <= i < hi - lo => lo + i)
  }

  /** For the consecutive segments of a log that is a matter of the first and the last name's length. */
  lemma RangeInOrder(lo: nat, hi: nat)
    requires lo <= hi
    ensures NamesInOrder(Range(lo, hi)) <==> lo == hi || Width(lo) == Width(hi - 1)
  {
    hide Less, FileNumber, Width;
    var ns := Range(lo, hi);
    if lo < hi {
      PathOrderExact(lo, hi);
      if NamesInOrder(ns) {
        forall a, b | lo <= a < b < hi ensures Less(FileNumber(a), FileNumber(b)) {
          assert ns[a - lo] == a && ns[b - lo] == b;
        }
      }
    }
  }

  // ---- the log ----

  /** The segments hold the records, oldest first, and nothing else lies in the directory. */
  ghost predicate Holds(snappy: Snappy, dir: map<nat, seq<byte>>, segs: seq<nat>, records: seq<seq<Entry>>) {
    && |segs| == |records| && Increasing(segs)
    && (forall n :: n in dir <==> n in segs)
    && (forall i :: 0 <= i < |segs| ==> segs[i] in dir && dir[segs[i]] == SegBytes(snappy, records[i]))
  }

  lemma EmptySegment(snappy: Snappy, records: seq<Entry>)
    ensures SegBytes(snappy, records) == [] <==> records == []
  {
  }

  /** A path that comes after the first `i`. */
  predicate Beyond(paths: seq<nat>, i: nat, n: nat)
    requires i <= |paths|
  {
    n in paths && (i > 0 ==> n > paths[i - 1])
  }

  lemma BeyondStep(paths: seq<nat>, i: nat, n: nat)
    requires i < |paths| && Increasing(paths) && Beyond(paths, i, n)
    ensures n == paths[i] || Beyond(paths, i + 1, n)
  {
    var j :| 0 <= j < |paths| && paths[j] == n;
    assert !(j < i - 1) && j != i - 1;
  }

  lemma NothingBeyond(paths: seq<nat>)
    requires Increasing(paths)
    ensures forall n :: !Beyond(paths, |paths|, n)
  {
  }

  ghost predicate Stored(snappy: Snappy, dir: map<nat, seq<byte>>, n: nat, seg: seq<Entry>) {
    n in dir && dir[n] == SegBytes(snappy, seg)
  }

  /** What opening the first `i` paths has found. */
  ghost predicate Found(snappy: Snappy, paths: seq<nat>, records: seq<seq<Entry>>, i: nat, segs: seq<nat>,
                        left: map<nat, seq<byte>>)
    requires i <= |paths| == |records|
  {
    && |segs| == |NonEmptySegs(records[..i])| && Increasing(segs)
    && (forall j :: 0 <= j < |segs| ==>
        i > 0 && segs[j] <= paths[i - 1] && Stored(snappy, left, segs[j], NonEmptySegs(records[..i])[j]))
    && (forall j :: i <= j < |paths| ==> Stored(snappy, left, paths[j], records[j]))
    && (forall n :: n in left ==> n in segs || Beyond(paths, i, n))
  }

  lemma FindNext(snappy: Snappy, paths: seq<nat>, records: seq<seq<Entry>>, i: nat, segs: seq<nat>,
                 left: map<nat, seq<byte>>)
    requires i < |paths| == |records| && Increasing(paths) && Found(snappy, paths, records, i, segs, left)
    ensures paths[i] in left
    ensures left[paths[i]] == [] ==> Found(snappy, paths, records, i + 1, segs, left - {paths[i]})
    ensures left[paths[i]] != [] ==> Found(snappy, paths, records, i + 1, segs + [paths[i]], left)
  {
    hide SegBytes, NonEmptySegs, Beyond;
    EmptySegment(snappy, records[i]);
    assert Stored(snappy, left, paths[i], records[i]);
    NonEmptyStep(records, i);
    forall n | n in left && n !in segs ensures n == paths[i] || Beyond(paths, i + 1, n) {
      BeyondStep(paths, i, n);
    }
  }

  /** Opens the files of a directory, listed in any order: paths are sorted, empty files removed. */
  method OpenSegments(snappy: Snappy, dir: map<nat, seq<byte>>, listing: seq<nat>, ghost was: seq<nat>,
                      ghost records: seq<seq<Entry>>)
    returns (segs: seq<nat>, left: map<nat, seq<byte>>)
    requires Holds(snappy, dir, was, records) && NamesInOrder(was)
    requires Distinct(listing) && forall n :: n in listing <==> n in dir
    ensures Holds(snappy, left, segs, NonEmptySegs(records))
  {
    hide SegBytes, NonEmptySegs, SortPaths, NamesInOrder;
    var paths := SortPaths(listing);
    SortedListing(listing, was);
    segs, left := [], dir;
    NoSegs();
    assert records[..0] == [];
    var i := 0;
    while i < |paths|
      invariant 0 <= i <= |paths| && Found(snappy, paths, records, i, segs, left)
    {
      FindNext(snappy, paths, records, i, segs, left);
      if left[paths[i]] == [] {
        left := left - {paths[i]};
      } else {
        segs := segs + [paths[i]];
      }
      i := i + 1;
    }
    assert records[..i] == records;
    NothingBeyond(paths);
    assert forall j :: 0 <= j < |segs| ==> Stored(snappy, left, segs[j], NonEmptySegs(records)[j]);
  }

  lemma HoldsLength(snappy: Snappy, dir: map<nat, seq<byte>>, segs: seq<nat>, records: seq<seq<Entry>>)
    requires Holds(snappy, dir, segs, records)
    ensures |segs| == |records|
  {
  }

  /** Bytes behind the newest segment are one more record of it. */
  lemma HoldsAppend(snappy: Snappy, dir: map<nat, seq<byte>>, segs: seq<nat>, records: seq<seq<Entry>>, e: Entry)
    requires Holds(snappy, dir, segs, records) && segs != []
    ensures var n, last := |segs| - 1, segs[|segs| - 1];
            && |records| == |segs| && last in dir
            && Holds(snappy, dir[last := dir[last] + RecordBytes(snappy, e)], segs, records[n := records[n] + [e]])
  {
    hide RecordBytes;
    var n := |segs| - 1;
    var more := records[n] + [e];
    assert more[..|more| - 1] == records[n];
    assert SegBytes(snappy, more) == SegBytes(snappy, records[n]) + RecordBytes(snappy, e);
    assert segs[n] in segs;
    hide SegBytes;
  }

  lemma HoldsNew(snappy: Snappy, dir: map<nat, seq<byte>>, segs: seq<nat>, records: seq<seq<Entry>>, n: nat)
    requires Holds(snappy, dir, segs, records) && forall i :: 0 <= i < |segs| ==> segs[i] < n
    ensures Holds(snappy, dir[n := []], segs + [n], records + [[]])
  {
    EmptySegment(snappy, []);
    hide SegBytes;
  }

  lemma HoldsConsume(snappy: Snappy, dir: map<nat, seq<byte>>, segs: seq<nat>, records: seq<seq<Entry>>)
    requires Holds(snappy, dir, segs, records) && segs != []
    ensures |records| == |segs| && Holds(snappy, dir - {segs[0]}, segs[1..], records[1..])
  {
    hide SegBytes, Increasing;
    var first, rest := segs[0], segs[1..];
    assert segs == [first] + rest;
    RestIncreasing(first, rest);
    forall n ensures n in dir - {first} <==> n in rest { RestMember(first, rest, n); }
    forall i | 0 <= i < |rest|
      ensures rest[i] in dir && rest[i] != first && dir[rest[i]] == SegBytes(snappy, records[1..][i])
    {
      RestMember(first, rest, rest[i]);
      assert rest[i] == segs[i + 1];
    }
  }

  lemma RestIncreasing(first: nat, rest: seq<nat>)
    requires Increasing([first] + rest)
    ensures Increasing(rest)
  {
    var all := [first] + rest;
    assert forall i :: 0 <= i < |rest| ==> rest[i] == all[i + 1];
  }

  lemma RestMember(first: nat, rest: seq<nat>, n: nat)
    requires Increasing([first] + rest)
    ensures n in rest <==> n in [first] + rest && n != first
  {
    var all := [first] + rest;
    assert all[0] == first && forall i :: 0 <= i < |rest| ==> rest[i] == all[i + 1];
  }

  class Wal {
    const snappy: Snappy
    /** The `.wal` files of the work directory. */
    var dir: map<nat, seq<byte>>
    /** The open segments, oldest first. */
    var segs: seq<nat>
    var currentFileNum: nat
    ghost var records: seq<seq<Entry>>

    ghost predicate Readable()
      reads this
    {
      Holds(snappy, dir, segs, records)
    }

    /** A log that can be written to: consecutive segments up to the counter. */
    ghost predicate Valid()
      reads this
    {
      Readable() && |segs| <= currentFileNum && segs == Range(currentFileNum - |segs|, currentFileNum)
    }

    /** Whether the next process will find the segments in order. */
    ghost predicate Reopenable()
      requires Valid()
      reads this
    {
      segs == [] || Width(currentFileNum - |segs|) == Width(currentFileNum - 1)
    }

    lemma ReopenableExactly()
      requires Valid()
      ensures Reopenable() <==> NamesInOrder(segs)
    {
      hide Holds, Width, NamesInOrder;
      RangeInOrder(currentFileNum - |segs|, currentFileNum);
    }

    /** The log left behind by an earlier process. */
    constructor (snappy: Snappy, dir: map<nat, seq<byte>>, listing: seq<nat>, ghost was: seq<nat>,
                 ghost left: seq<seq<Entry>>)
      requires Holds(snappy, dir, was, left) && NamesInOrder(was)
      requires Distinct(listing) && forall n :: n in listing <==> n in dir
      ensures Readable() && this.snappy == snappy && records == NonEmptySegs(left) && currentFileNum == 0
      ensures segs == [] ==> Valid()
    {
      var segs, files := OpenSegments(snappy, dir, listing, was, left);
      this.snappy, this.segs, this.dir := snappy, segs, files;
      currentFileNum := 0;
      records := NonEmptySegs(left);
    }

    /** Appends to the newest segment; the first record creates one. */
    method Append(key: Key, value: Value)
      requires Valid()
      modifies this
      ensures Valid() && records == LogAppend(old(records), Entry(key, value))
      ensures segs == if old(segs) == [] then [old(currentFileNum)] else old(segs)
      ensures currentFileNum == old(currentFileNum) + if old(segs) == [] then 1 else 0
    {
      hide Holds, RecordBytes, Range;
      var e := Entry(key, value);
      HoldsLength(snappy, dir, segs, records);
      if |segs| == 0 {
        NewSeg();
        HoldsLength(snappy, dir, segs, records);
      }
      HoldsAppend(snappy, dir, segs, records, e);
      ghost var n := |records| - 1;
      var last := segs[|segs| - 1];
      dir := dir[last := dir[last] + RecordBytes(snappy, e)];
      records := records[n := records[n] + [e]];
      assert [] + [e] == [e];
    }

    method NewSeg()
      requires Valid()
      modifies this
      ensures Valid() && records == old(records) + [[]]
      ensures segs == old(segs) + [old(currentFileNum)] && currentFileNum == old(currentFileNum) + 1
    {
      hide Holds;
      var n := currentFileNum;
      HoldsNew(snappy, dir, segs, records, n);
      currentFileNum := currentFileNum + 1;
      segs := segs + [n];
      dir := dir[n := []];
      records := records + [[]];
    }

    /** Drops the oldest segment and its file. */
    method ConsumeSeg()
      requires Valid()
      modifies this
      ensures Valid() && records == if old(records) == [] then [] else old(records)[1..]
      ensures segs == (if old(segs) == [] then [] else old(segs)[1..]) && currentFileNum == old(currentFileNum)
    {
      hide Holds;
      HoldsLength(snappy, dir, segs, records);
      if |segs| > 0 {
        HoldsConsume(snappy, dir, segs, records);
        var first := segs[0];
        segs := segs[1..];
        dir := dir - {first};
        records := records[1..];
      }
    }

    method CurrentSegSize() returns (size: nat)
      requires Valid()
      ensures size == if records == [] then 0 else |SegBytes(snappy, records[|records| - 1])|
    {
      hide SegBytes;
      if |segs| > 0 {
        return |dir[segs[|segs| - 1]]|;
      }
      return 0;
    }
  }
}

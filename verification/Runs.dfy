/** Sorted runs of entries: the contents of a memtable, of an sstable, and of a merged stream. */
module Runs {
  import opened Bytes

  datatype Entry = Entry(key: Key, value: Value)

  type Run = seq<Entry>

  /** Keys strictly increase. */
  ghost predicate Sorted(es: Run) {
    forall i, j :: 0 <= i < j < |es| ==> Less(es[i].key, es[j].key)
  }

  /** No entry has the empty key. */
  ghost predicate NonEmptyKeys(es: Run) {
    forall i :: 0 <= i < |es| ==> es[i].key != []
  }

  /** Keys hold no NUL byte, as the request grammar ensures. */
  ghost predicate NulFree(run: Run) {
    forall i :: 0 <= i < |run| ==> 0 !in run[i].key
  }

  /** Index of the first entry whose key is not below `k`. */
  function LowerBound(es: Run, k: Key): (r: nat)
    ensures r <= |es|
    ensures forall i :: 0 <= i < r ==> Less(es[i].key, k)
    ensures r < |es| ==> !Less(es[r].key, k)
  {
    if es == [] || !Less(es[0].key, k) then 0 else 1 + LowerBound(es[1..], k)
  }

  /** The value stored under `k`. */
  function Find(es: Run, k: Key): Option<Value> {
    var r := LowerBound(es, k);
    if r < |es| && es[r].key == k then Some(es[r].value) else None
  }

  /** Adds an entry or overwrites the value of its key, keeping the order. */
  function Insert(es: Run, k: Key, v: Value): Run {
    var r := LowerBound(es, k);
    if r < |es| && es[r].key == k then es[r := Entry(k, v)] else es[..r] + [Entry(k, v)] + es[r..]
  }

  /** Drops the entry of `k`, if there is one. */
  function Remove(es: Run, k: Key): Run {
    var r := LowerBound(es, k);
    if r < |es| && es[r].key == k then es[..r] + es[r + 1..] else es
  }

  /** Inserts a list of entries from front to back. */
  function InsertAll(es: Run, news: seq<Entry>): Run {
    if news == [] then es
    else Insert(InsertAll(es, news[..|news| - 1]), news[|news| - 1].key, news[|news| - 1].value)
  }

  /** What a memtable holds after the logged writes, oldest first. */
  function Replay(records: seq<Entry>): Run {
    InsertAll([], records)
  }

  /** The segment the next record goes to; the first record creates it. */
  function LogAppend(wal: seq<seq<Entry>>, e: Entry): seq<seq<Entry>> {
    if wal == [] then [[e]] else wal[|wal| - 1 := wal[|wal| - 1] + [e]]
  }

  /** The segments that hold something. */
  function NonEmptySegs(wal: seq<seq<Entry>>): seq<seq<Entry>> {
    if wal == [] then []
    else NonEmptySegs(wal[..|wal| - 1]) + if wal[|wal| - 1] == [] then [] else [wal[|wal| - 1]]
  }

  /** The first hit in a list of runs, searched from index 0. */
  function FindFirst(runs: seq<Run>, k: Key): Option<Value> {
    if runs == [] then None
    else if Find(runs[0], k).Some? then Find(runs[0], k)
    else FindFirst(runs[1..], k)
  }

  /** The reference merge: lower indices win. */
  function MergeRuns(runs: seq<Run>): Run {
    if runs == [] then [] else InsertAll(MergeRuns(runs[1..]), runs[0])
  }

  // ---- lookups in one run ----

  lemma LowerBoundUnique(es: Run, k: Key, r: nat)
    requires Sorted(es) && r <= |es|
    requires forall i :: 0 <= i < r ==> Less(es[i].key, k)
    requires r < |es| ==> !Less(es[r].key, k)
    ensures LowerBound(es, k) == r
  {
    var l := LowerBound(es, k);
    assert !(l < r) && !(r < l);
  }

  lemma FindAt(es: Run, i: nat)
    requires Sorted(es) && i < |es|
    ensures LowerBound(es, es[i].key) == i && Find(es, es[i].key) == Some(es[i].value)
  {
    LessIrreflexive(es[i].key);
    LowerBoundUnique(es, es[i].key, i);
  }

  /** In a sorted run a lookup finds exactly the entry with that key. */
  lemma FindIff(es: Run, k: Key)
    requires Sorted(es)
    ensures forall v :: Find(es, k) == Some(v) <==> Entry(k, v) in es
  {
    forall v | Entry(k, v) in es
      ensures Find(es, k) == Some(v)
    {
      var i :| 0 <= i < |es| && es[i] == Entry(k, v);
      FindAt(es, i);
    }
  }

  /** Sorted runs with the same entries for a key look it up the same way. */
  lemma FindSame(a: Run, b: Run, k: Key)
    requires Sorted(a) && Sorted(b)
    requires forall v :: Entry(k, v) in a <==> Entry(k, v) in b
    ensures Find(a, k) == Find(b, k)
  {
    FindIff(a, k);
    FindIff(b, k);
    assert Find(a, k).Some? ==> Entry(k, Find(a, k).value) in a;
    assert Find(b, k).Some? ==> Entry(k, Find(b, k).value) in b;
  }

  lemma FindNone(es: Run, k: Key)
    requires Sorted(es)
    requires forall i :: 0 <= i < |es| ==> es[i].key != k
    ensures Find(es, k) == None
  {
  }

  lemma SortedSlice(es: Run, lo: nat, hi: nat)
    requires Sorted(es) && lo <= hi <= |es|
    ensures Sorted(es[lo..hi])
  {
  }

  lemma SortedPush(es: Run, e: Entry)
    requires Sorted(es)
    requires es != [] ==> Less(es[|es| - 1].key, e.key)
    ensures Sorted(es + [e])
  {
    var n := |es|;
    forall i, j | 0 <= i < j < n + 1
      ensures Less((es + [e])[i].key, (es + [e])[j].key)
    {
      if j == n && i < n - 1 {
        LessTransitive(es[i].key, es[n - 1].key, e.key);
      }
    }
  }

  lemma InsertSorted(es: Run, k: Key, v: Value)
    requires Sorted(es)
    ensures Sorted(Insert(es, k, v))
  {
    var r := LowerBound(es, k);
    var out := Insert(es, k, v);
    if !(r < |es| && es[r].key == k) {
      forall i, j | 0 <= i < j < |out|
        ensures Less(out[i].key, out[j].key)
      {
        if j > r {
          LessTotal(k, es[r].key);
          if r < j - 1 { LessTransitive(k, es[r].key, es[j - 1].key); }
        }
      }
    }
  }

  lemma AboveLowerBound(es: Run, k: Key)
    requires Sorted(es)
    ensures forall i :: LowerBound(es, k) < i < |es| ==> Less(k, es[i].key)
  {
    var r := LowerBound(es, k);
    forall i | r < i < |es|
      ensures Less(k, es[i].key)
    {
      LessTotal(k, es[r].key);
      if k != es[r].key { LessTransitive(k, es[r].key, es[i].key); }
    }
  }

  /** A sorted run is the entries below a key, the entry of the key if any, and the entries above it. */
  lemma SplitAtKey(es: Run, k: Key)
    requires Sorted(es)
    ensures forall x :: x in es[..LowerBound(es, k)] ==> x.key != k
    ensures forall x :: LowerBound(es, k) < |es| && x in es[LowerBound(es, k) + 1..] ==> x.key != k
  {
    LessIrreflexive(k);
    AboveLowerBound(es, k);
  }

  lemma InsertEntries(es: Run, k: Key, v: Value, e: Entry)
    requires Sorted(es)
    ensures e in Insert(es, k, v) <==> e == Entry(k, v) || (e.key != k && e in es)
  {
    hide LowerBound, Less;
    var r := LowerBound(es, k);
    var below := es[..r];
    SplitAtKey(es, k);
    if r < |es| {
      var above := es[r + 1..];
      assert es == below + [es[r]] + above;
      if es[r].key == k {
        assert Insert(es, k, v) == below + [Entry(k, v)] + above;
      } else {
        assert es[r..] == [es[r]] + above;
      }
    } else {
      assert es == below && es[r..] == [];
    }
  }

  lemma InsertFind(es: Run, k: Key, v: Value, q: Key)
    requires Sorted(es)
    ensures Find(Insert(es, k, v), q) == if q == k then Some(v) else Find(es, q)
  {
    InsertSorted(es, k, v);
    forall w ensures Entry(q, w) in Insert(es, k, v) <==> if q == k then w == v else Entry(q, w) in es {
      InsertEntries(es, k, v, Entry(q, w));
    }
    if q == k {
      FindIff(Insert(es, k, v), k);
      assert Entry(k, v) in Insert(es, k, v);
    } else {
      FindSame(Insert(es, k, v), es, q);
    }
  }

  lemma RemoveFind(es: Run, k: Key, q: Key)
    requires Sorted(es)
    ensures Find(Remove(es, k), q) == if q == k then None else Find(es, q)
  {
    hide LowerBound, Less;
    var r := LowerBound(es, k);
    var out := Remove(es, k);
    FindIff(es, k);
    SplitAtKey(es, k);
    if r < |es| && es[r].key == k {
      assert es == es[..r] + [es[r]] + es[r + 1..];
      if q == k {
        FindNone(out, k);
      } else {
        FindSame(out, es, q);
      }
    }
  }

  lemma {:induction false} InsertAllSorted(es: Run, news: seq<Entry>)
    requires Sorted(es)
    ensures Sorted(InsertAll(es, news))
  {
    if news != [] {
      var n := |news| - 1;
      InsertAllSorted(es, news[..n]);
      InsertSorted(InsertAll(es, news[..n]), news[n].key, news[n].value);
    }
  }

  lemma FindWithoutLast(a: Run, k: Key)
    requires Sorted(a) && a != []
    ensures Find(a[..|a| - 1], k) == if k == a[|a| - 1].key then None else Find(a, k)
  {
    var n := |a| - 1;
    assert a == a[..n] + [a[n]];
    LessIrreflexive(k);
    if k == a[n].key {
      FindNone(a[..n], k);
    } else {
      FindSame(a[..n], a, k);
    }
  }

  /** Inserting a sorted run puts it in front of what was there. */
  lemma {:induction false} InsertAllFind(es: Run, news: Run, k: Key)
    requires Sorted(es) && Sorted(news)
    ensures Find(InsertAll(es, news), k) == if Find(news, k).Some? then Find(news, k) else Find(es, k)
  {
    if news != [] {
      var n := |news| - 1;
      InsertAllFind(es, news[..n], k);
      InsertAllSorted(es, news[..n]);
      InsertFind(InsertAll(es, news[..n]), news[n].key, news[n].value, k);
      FindWithoutLast(news, k);
      FindAt(news, n);
    }
  }

  /** Sorted runs are determined by their lookups. */
  lemma {:induction false} SortedExtensional(a: Run, b: Run)
    requires Sorted(a) && Sorted(b)
    requires forall k :: Find(a, k) == Find(b, k)
    ensures a == b
  {
    if a != [] { FindAt(a, 0); assert Find(b, a[0].key).Some?; }
    if b != [] { FindAt(b, 0); assert Find(a, b[0].key).Some?; }
    if a != [] {
      var fa, fb := a[..|a| - 1], b[..|b| - 1];
      SameLast(a, b);
      forall k ensures Find(fa, k) == Find(fb, k) {
        FindWithoutLast(a, k);
        FindWithoutLast(b, k);
      }
      SortedExtensional(fa, fb);
      assert a == fa + [a[|a| - 1]] && b == fb + [b[|b| - 1]];
    }
  }

  lemma SameLast(a: Run, b: Run)
    requires Sorted(a) && Sorted(b) && a != [] && b != []
    requires forall k :: Find(a, k) == Find(b, k)
    ensures a[|a| - 1] == b[|b| - 1]
  {
    var ka, kb := a[|a| - 1].key, b[|b| - 1].key;
    FindAt(a, |a| - 1);
    FindAt(b, |b| - 1);
    KeyAtMostLast(a, kb);
    KeyAtMostLast(b, ka);
    LessAsymmetric(ka, kb);
  }

  lemma KeyAtMostLast(a: Run, k: Key)
    requires Sorted(a) && Find(a, k).Some?
    ensures a != [] && (k == a[|a| - 1].key || Less(k, a[|a| - 1].key))
  {
  }

  /** Looking up a concatenation of sorted runs that is itself sorted. */
  lemma FindConcat(a: Run, b: Run, k: Key)
    requires Sorted(a + b)
    ensures Sorted(a) && Sorted(b)
    ensures Find(a + b, k) == if Find(a, k).Some? then Find(a, k) else Find(b, k)
  {
    assert a == (a + b)[0..|a|] && b == (a + b)[|a|..|a + b|];
    SortedSlice(a + b, 0, |a|);
    SortedSlice(a + b, |a|, |a + b|);
    FindIff(a, k);
    FindIff(b, k);
    FindIff(a + b, k);
    if Find(a, k).Some? {
      assert Entry(k, Find(a, k).value) in a + b;
    } else if Find(b, k).Some? {
      assert Entry(k, Find(b, k).value) in a + b;
    } else {
      assert forall v :: Entry(k, v) !in a + b;
    }
  }

  // ---- lookups in several runs ----

  ghost predicate AllSorted(runs: seq<Run>) {
    forall i :: 0 <= i < |runs| ==> Sorted(runs[i])
  }

  lemma {:induction false} FindFirstConcat(a: seq<Run>, b: seq<Run>, k: Key)
    ensures FindFirst(a + b, k) == if FindFirst(a, k).Some? then FindFirst(a, k) else FindFirst(b, k)
  {
    if a == [] {
      assert a + b == b;
    } else {
      assert (a + b)[1..] == a[1..] + b;
      FindFirstConcat(a[1..], b, k);
    }
  }

  /** A hit of `FindFirst` is the hit of its lowest holder. */
  lemma {:induction false} FindFirstAt(runs: seq<Run>, k: Key, i: nat)
    requires i < |runs| && Find(runs[i], k).Some?
    requires forall j :: 0 <= j < i ==> Find(runs[j], k).None?
    ensures FindFirst(runs, k) == Find(runs[i], k)
  {
    if i > 0 {
      assert Find(runs[0], k).None?;
      FindFirstAt(runs[1..], k, i - 1);
    }
  }

  lemma {:induction false} FindFirstNone(runs: seq<Run>, k: Key)
    ensures FindFirst(runs, k).None? <==> forall j :: 0 <= j < |runs| ==> Find(runs[j], k).None?
  {
    if runs != [] {
      FindFirstNone(runs[1..], k);
      assert forall j :: 0 < j < |runs| ==> runs[j] == runs[1..][j - 1];
    }
  }

  /** The reference merge is sorted and looks up like a first-hit search. */
  lemma {:induction false} MergeRunsSorted(runs: seq<Run>)
    requires AllSorted(runs)
    ensures Sorted(MergeRuns(runs))
  {
    if runs != [] {
      MergeRunsSorted(runs[1..]);
      InsertAllSorted(MergeRuns(runs[1..]), runs[0]);
    }
  }

  lemma {:induction false} MergeRunsFind(runs: seq<Run>, k: Key)
    requires AllSorted(runs)
    ensures Find(MergeRuns(runs), k) == FindFirst(runs, k)
  {
    if runs != [] {
      MergeRunsFind(runs[1..], k);
      MergeRunsSorted(runs[1..]);
      InsertAllFind(MergeRuns(runs[1..]), runs[0], k);
    }
  }

  lemma {:induction false} FirstHolder(runs: seq<Run>, k: Key) returns (i: nat)
    requires FindFirst(runs, k).Some?
    ensures i < |runs| && Find(runs[i], k) == FindFirst(runs, k)
  {
    if Find(runs[0], k).Some? {
      i := 0;
    } else {
      i := FirstHolder(runs[1..], k);
      i := i + 1;
    }
  }

  // ---- log segments ----

  lemma NoSegs()
    ensures NonEmptySegs([]) == []
  {
  }

  lemma NonEmptyStep(wal: seq<seq<Entry>>, i: nat)
    requires i < |wal|
    ensures NonEmptySegs(wal[..i + 1]) ==
            if wal[i] == [] then NonEmptySegs(wal[..i]) else NonEmptySegs(wal[..i]) + [wal[i]]
  {
    assert wal[..i + 1][..i] == wal[..i];
  }

  /** Empty segments hold nothing. */
  lemma {:induction false} NonEmptySegsFind(runs: seq<Run>, k: Key)
    ensures FindFirst(NonEmptySegs(runs), k) == FindFirst(runs, k)
  {
    hide Find;
    if runs != [] {
      var front, run := runs[..|runs| - 1], runs[|runs| - 1];
      NonEmptySegsFind(front, k);
      assert runs == front + [run];
      FindFirstConcat(front, [run], k);
      FindFirstConcat(NonEmptySegs(front), [run], k);
      OneRun(run, k);
      assert NonEmptySegs(front) + [] == NonEmptySegs(front);
    }
  }

  lemma OneRun(run: Run, k: Key)
    ensures FindFirst([run], k) == Find(run, k) && (run == [] ==> Find(run, k) == None)
  {
    assert [run][1..] == [];
  }

  lemma {:induction false} NonEmptySegsSorted(runs: seq<Run>)
    requires AllSorted(runs)
    ensures AllSorted(NonEmptySegs(runs))
  {
    hide Sorted;
    if runs != [] { NonEmptySegsSorted(runs[..|runs| - 1]); }
  }
}

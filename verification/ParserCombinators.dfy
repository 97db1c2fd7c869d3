/** The byte-level parser combinators (mirdb-server/src/parser_util/macros.rs). */
module ParserCombinators {
  import opened Bytes

  datatype IR<+T> = Ok(rest: seq<byte>, value: T) | Err | Incomplete(needed: nat)

  type Parser<T> = seq<byte> -> IR<T>

  // ---- tag! ----

  datatype CompareResult = Same | Different | Short

  /** Compares the input with a tag as far as both go. */
  function Compare(i: seq<byte>, t: seq<byte>): CompareResult {
    if t == [] then Same
    else if i == [] then Short
    else if i[0] != t[0] then Different
    else Compare(i[1..], t[1..])
  }

  lemma {:induction false} CompareMeaning(i: seq<byte>, t: seq<byte>)
    ensures Compare(i, t) == Same <==> |t| <= |i| && i[..|t|] == t
    ensures Compare(i, t) == Short <==> |i| < |t| && t[..|i|] == i
  {
    if t != [] && i != [] {
      CompareMeaning(i[1..], t[1..]);
      if i[0] == t[0] {
        assert |t| <= |i| ==> i[..|t|] == [i[0]] + i[1..][..|t| - 1];
        assert |i| <= |t| ==> t[..|i|] == [t[0]] + t[1..][..|i| - 1];
        assert t == [t[0]] + t[1..] && i == [i[0]] + i[1..];
      } else {
        assert |t| <= |i| ==> i[..|t|][0] == i[0];
        assert |i| <= |t| ==> t[..|i|][0] == t[0];
      }
    }
  }

  /** A decided comparison stays decided. */
  lemma {:induction false} CompareExtends(i: seq<byte>, t: seq<byte>, e: seq<byte>)
    requires Compare(i, t) != Short
    ensures Compare(i + e, t) == Compare(i, t)
  {
    if t != [] {
      assert (i + e)[1..] == i[1..] + e;
      if i[0] == t[0] { CompareExtends(i[1..], t[1..], e); }
    }
  }

  function TagOn(i: seq<byte>, t: seq<byte>): IR<seq<byte>> {
    CompareMeaning(i, t);
    match Compare(i, t)
    case Same => Ok(i[|t|..], t)
    case Different => Err
    case Short => Incomplete(|t| - |i|)
  }

  function Tag(t: seq<byte>): Parser<seq<byte>> {
    (i: seq<byte>) => TagOn(i, t)
  }

  // ---- is_not!, space, digit ----

  /** Length of the longest prefix of bytes outside (or inside) a set. */
  function Span(i: seq<byte>, s: set<byte>, inside: bool): (n: nat)
    ensures n <= |i|
    ensures forall j :: 0 <= j < n ==> ((i[j] in s) <==> inside)
    ensures n < |i| ==> !((i[n] in s) <==> inside)
  {
    if i == [] || !((i[0] in s) <==> inside) then 0 else 1 + Span(i[1..], s, inside)
  }

  lemma SpanUnique(i: seq<byte>, s: set<byte>, inside: bool, n: nat)
    requires n <= |i| && (forall j :: 0 <= j < n ==> ((i[j] in s) <==> inside)) &&
             (n < |i| ==> !((i[n] in s) <==> inside))
    ensures Span(i, s, inside) == n
  {
    var m := Span(i, s, inside);
    assert !(m < n) && !(n < m);
  }

  /** Everything before the first stop byte; empty input is accepted as an empty match. */
  function IsNotOn(i: seq<byte>, stop: set<byte>): IR<seq<byte>> {
    var n := Span(i, stop, false);
    if n == |i| || n > 0 then Ok(i[n..], i[..n]) else Err
  }

  function IsNot(stop: set<byte>): Parser<seq<byte>> {
    (i: seq<byte>) => IsNotOn(i, stop)
  }

  const SPACE: set<byte> := {32}

  const DIGITS: set<byte> := {48, 49, 50, 51, 52, 53, 54, 55, 56, 57}

  /** One or more spaces. */
  function Space(i: seq<byte>): IR<seq<byte>> {
    var n := Span(i, SPACE, true);
    if n == 0 then Err else Ok(i[n..], i[..n])
  }

  function DecimalValue(s: seq<byte>): nat
    requires forall j :: 0 <= j < |s| ==> s[j] in DIGITS
  {
    if s == [] then 0 else 10 * DecimalValue(s[..|s| - 1]) + (s[|s| - 1] - 48)
  }

  /** One or more digits whose value is below the limit of the integer type. */
  function DigitOn(i: seq<byte>, limit: nat): IR<nat> {
    var n := Span(i, DIGITS, true);
    if n == 0 then Err
    else
      var v := DecimalValue(i[..n]);
      if v < limit then Ok(i[n..], v) else Err
  }

  function Digit(limit: nat): Parser<nat> {
    (i: seq<byte>) => DigitOn(i, limit)
  }

  // ---- take_at_least! ----

  predicate TagAt(s: seq<byte>, tag: seq<byte>, j: nat) {
    j + |tag| <= |s| && s[j..j + |tag|] == tag
  }

  /** Index of the first occurrence of a tag. */
  function FindTag(s: seq<byte>, tag: seq<byte>): (r: Option<nat>)
    ensures r.Some? ==> TagAt(s, tag, r.value) && forall j :: 0 <= j < r.value ==> !TagAt(s, tag, j)
    ensures r.None? ==> forall j :: 0 <= j ==> !TagAt(s, tag, j)
  {
    if |s| < |tag| then None
    else if TagAt(s, tag, 0) then Some(0)
    else
      var r := FindTag(s[1..], tag);
      assert forall j :: 1 <= j ==> TagAt(s, tag, j) == TagAt(s[1..], tag, j - 1);
      if r.None? then None else Some(r.value + 1)
  }

  /** At least `size` bytes, up to the next tag; without a tag everything. */
  function TakeAtLeastOn(i: seq<byte>, size: nat, tag: seq<byte>): IR<seq<byte>> {
    if |i| < size then Incomplete(size - |i|)
    else
      var found := if tag == [] then None else FindTag(i[size..], tag);
      if found.Some? then Ok(i[size + found.value..], i[..size + found.value]) else Ok([], i)
  }

  function TakeAtLeast(size: nat, tag: seq<byte>): Parser<seq<byte>> {
    (i: seq<byte>) => TakeAtLeastOn(i, size, tag)
  }

  /** The search loop of the macro. */
  method TakeAtLeastLoop(i: seq<byte>, size: nat, tag: seq<byte>) returns (r: IR<seq<byte>>)
    ensures r == TakeAtLeastOn(i, size, tag)
  {
    var l, tl := |i|, |tag|;
    if l < size {
      return Incomplete(size - l);
    }
    var ni := i[size..];
    var nl := |ni|;
    if nl > 0 && tl > 0 && nl >= tl {
      var ii := 0;
      while ii < nl - tl + 1
        invariant 0 <= ii <= nl - tl + 1
        invariant forall j :: 0 <= j < ii ==> !TagAt(ni, tag, j)
      {
        if ni[ii..ii + tl] == tag {
          assert TagAt(ni, tag, ii);
          return Ok(i[size + ii..], i[..size + ii]);
        }
        ii := ii + 1;
      }
    }
    return Ok([], i);
  }

  // ---- split! ----

  /** Keys separated by spaces; it stops in front of the first byte that is neither. */
  function SplitFrom(i: seq<byte>, stop: set<byte>, res: seq<seq<byte>>): IR<seq<seq<byte>>>
    decreases |i|
  {
    match IsNotOn(i, stop)
    case Err => if res == [] then Err else Ok(i, res)
    case Incomplete(n) => Incomplete(n)
    case Ok(r, key) =>
      match Space(r)
      case Err => Ok(r, res + [key])
      case Incomplete(n) => Incomplete(n)
      case Ok(r2, _) => SplitFrom(r2, stop, res + [key])
  }

  function Split(stop: set<byte>): Parser<seq<seq<byte>>> {
    (i: seq<byte>) => SplitFrom(i, stop, [])
  }

  /** The alternating loop of the macro. */
  method SplitLoop(i: seq<byte>, stop: set<byte>) returns (r: IR<seq<seq<byte>>>)
    ensures r == SplitFrom(i, stop, [])
  {
    var res: seq<seq<byte>> := [];
    var input := i;
    var even := true;
    while true
      invariant even ==> SplitFrom(i, stop, []) == SplitFrom(input, stop, res)
      invariant !even ==> res != [] && SplitFrom(i, stop, []) == AfterKey(input, stop, res)
      decreases |input|, even
    {
      if even {
        match IsNotOn(input, stop) {
          case Incomplete(n) => return Incomplete(n);
          case Err => break;
          case Ok(rest, o) =>
            input := rest;
            res := res + [o];
        }
      } else {
        match Space(input) {
          case Incomplete(n) => return Incomplete(n);
          case Err => break;
          case Ok(rest, _) => input := rest;
        }
      }
      even := !even;
    }
    if |res| > 0 {
      r := Ok(input, res);
    } else {
      r := Err;
    }
  }

  /** The other half of `SplitFrom`: what follows a key. */
  function AfterKey(i: seq<byte>, stop: set<byte>, res: seq<seq<byte>>): IR<seq<seq<byte>>> {
    match Space(i)
    case Err => Ok(i, res)
    case Incomplete(n) => Incomplete(n)
    case Ok(r, _) => SplitFrom(r, stop, res)
  }

  // ---- chain!, opt!, alt! ----

  function Then<A, B>(p: Parser<A>, f: A -> Parser<B>): Parser<B> {
    (i: seq<byte>) =>
      match p(i)
      case Ok(r, v) => f(v)(r)
      case Err => Err
      case Incomplete(n) => Incomplete(n)
  }

  function Return<T>(v: T): Parser<T> {
    (i: seq<byte>) => Ok(i, v)
  }

  function Opt<T>(p: Parser<T>): Parser<Option<T>> {
    (i: seq<byte>) =>
      match p(i)
      case Ok(r, v) => Ok(r, Some(v))
      case Err => Ok(i, None)
      case Incomplete(n) => Incomplete(n)
  }

  function Alt<T>(p: Parser<T>, q: Parser<T>): Parser<T> {
    (i: seq<byte>) =>
      match p(i)
      case Ok(r, v) => Ok(r, v)
      case Incomplete(n) => Incomplete(n)
      case Err => q(i)
  }

  // ---- stability under extension ----

  /** A successful parse that left something over is not changed by more input. */
  ghost predicate WeaklyStable<T(!new)>(p: Parser<T>) {
    forall i, e :: p(i).Ok? && p(i).rest != [] ==> p(i + e) == Ok(p(i).rest + e, p(i).value)
  }

  /** A successful parse is not changed by more input. */
  ghost predicate Stable<T(!new)>(p: Parser<T>) {
    forall i, e :: p(i).Ok? ==> p(i + e) == Ok(p(i).rest + e, p(i).value)
  }

  /** A rejected non-empty input stays rejected. */
  ghost predicate StaysRejected<T(!new)>(p: Parser<T>) {
    forall i, e :: p(i).Err? && i != [] ==> p(i + e).Err?
  }

  /** What is left over is an end of the input. */
  ghost predicate LeavesSuffix<T(!new)>(p: Parser<T>) {
    forall i :: p(i).Ok? ==> EndOf(p(i).rest, i)
  }

  predicate EndOf(r: seq<byte>, i: seq<byte>) {
    |r| <= |i| && i[|i| - |r|..] == r
  }

  lemma EndOfTransitive(a: seq<byte>, b: seq<byte>, c: seq<byte>)
    requires EndOf(a, b) && EndOf(b, c)
    ensures EndOf(a, c)
  {
    assert c[|c| - |a|..] == c[|c| - |b|..][|b| - |a|..];
  }

  /** A success takes at least one byte. */
  ghost predicate Consumes<T(!new)>(p: Parser<T>) {
    forall i :: p(i).Ok? ==> |p(i).rest| < |i|
  }

  lemma TagStable(t: seq<byte>)
    ensures Stable(Tag(t)) && StaysRejected(Tag(t)) && LeavesSuffix(Tag(t)) && (t != [] ==> Consumes(Tag(t)))
  {
    forall i: seq<byte>, e: seq<byte>
      ensures TagOn(i, t).Ok? ==> TagOn(i + e, t) == Ok(TagOn(i, t).rest + e, t)
      ensures TagOn(i, t).Err? ==> TagOn(i + e, t).Err?
    {
      CompareMeaning(i, t);
      if Compare(i, t) != Short { CompareExtends(i, t, e); }
      if Compare(i, t) == Same { assert (i + e)[|t|..] == i[|t|..] + e; }
    }
    var p := Tag(t);
    forall i | p(i).Ok? ensures |p(i).rest| + |t| == |i| && EndOf(p(i).rest, i) { CompareMeaning(i, t); }
  }

  lemma SpanExtends(i: seq<byte>, e: seq<byte>, s: set<byte>, inside: bool)
    ensures Span(i, s, inside) < |i| ==> Span(i + e, s, inside) == Span(i, s, inside)
  {
    var n := Span(i, s, inside);
    if n < |i| {
      assert forall j :: 0 <= j <= n ==> (i + e)[j] == i[j];
      SpanUnique(i + e, s, inside, n);
    }
  }

  lemma IsNotStable(stop: set<byte>)
    ensures WeaklyStable(IsNot(stop)) && LeavesSuffix(IsNot(stop))
  {
    forall i: seq<byte>, e: seq<byte> | IsNotOn(i, stop).Ok? && IsNotOn(i, stop).rest != []
      ensures IsNotOn(i + e, stop) == Ok(IsNotOn(i, stop).rest + e, IsNotOn(i, stop).value)
    {
      var n := Span(i, stop, false);
      SpanExtends(i, e, stop, false);
      assert (i + e)[n..] == i[n..] + e && (i + e)[..n] == i[..n];
    }
  }

  lemma SpaceStable()
    ensures WeaklyStable(Space) && LeavesSuffix(Space) && Consumes(Space) && StaysRejected(Space)
  {
    forall i: seq<byte>, e: seq<byte>
      ensures Space(i).Ok? && Space(i).rest != [] ==> Space(i + e) == Ok(Space(i).rest + e, Space(i).value)
      ensures Space(i).Err? && i != [] ==> Space(i + e).Err?
    {
      var n := Span(i, SPACE, true);
      SpanExtends(i, e, SPACE, true);
      assert (i + e)[n..] == i[n..] + e && (i + e)[..n] == i[..n];
    }
  }

  lemma DigitStable(limit: nat)
    ensures WeaklyStable(Digit(limit)) && LeavesSuffix(Digit(limit)) && Consumes(Digit(limit))
  {
    forall i: seq<byte>, e: seq<byte> | DigitOn(i, limit).Ok? && DigitOn(i, limit).rest != []
      ensures DigitOn(i + e, limit) == Ok(DigitOn(i, limit).rest + e, DigitOn(i, limit).value)
    {
      var n := Span(i, DIGITS, true);
      SpanExtends(i, e, DIGITS, true);
      assert (i + e)[n..] == i[n..] + e && (i + e)[..n] == i[..n];
    }
  }

  lemma FindTagExtends(s: seq<byte>, e: seq<byte>, tag: seq<byte>)
    requires FindTag(s, tag).Some?
    ensures FindTag(s + e, tag) == FindTag(s, tag)
  {
    var n := FindTag(s, tag).value;
    var m := FindTag(s + e, tag);
    assert forall j :: 0 <= j <= n ==> TagAt(s + e, tag, j) == TagAt(s, tag, j);
    assert m.Some? && !(m.value < n) && !(n < m.value);
  }

  lemma TakeAtLeastStable(size: nat, tag: seq<byte>)
    ensures WeaklyStable(TakeAtLeast(size, tag)) && LeavesSuffix(TakeAtLeast(size, tag))
  {
    hide FindTag;
    forall i: seq<byte>, e: seq<byte> | TakeAtLeastOn(i, size, tag).Ok? && TakeAtLeastOn(i, size, tag).rest != []
      ensures TakeAtLeastOn(i + e, size, tag) ==
              Ok(TakeAtLeastOn(i, size, tag).rest + e, TakeAtLeastOn(i, size, tag).value)
    {
      var n := FindTag(i[size..], tag).value;
      FindTagExtends(i[size..], e, tag);
      assert (i + e)[size..] == i[size..] + e;
      assert (i + e)[size + n..] == i[size + n..] + e && (i + e)[..size + n] == i[..size + n];
    }
  }

  lemma {:induction false} SplitExtends(i: seq<byte>, stop: set<byte>, res: seq<seq<byte>>, e: seq<byte>)
    requires SplitFrom(i, stop, res).Ok?
    ensures EndOf(SplitFrom(i, stop, res).rest, i)
    ensures SplitFrom(i, stop, res).rest != [] ==>
              SplitFrom(i + e, stop, res) == Ok(SplitFrom(i, stop, res).rest + e, SplitFrom(i, stop, res).value)
    decreases |i|
  {
    hide Space, Span;
    SpaceStable();
    IsNotStable(stop);
    var p := IsNot(stop);
    assert p(i) == IsNotOn(i, stop) && p(i + e) == IsNotOn(i + e, stop);
    if p(i).Err? {
      RejectedKey(i, e, stop);
    } else {
      var r, key := p(i).rest, p(i).value;
      if Space(r).Ok? {
        SplitExtends(Space(r).rest, stop, res + [key], e);
        EndOfTransitive(Space(r).rest, r, i);
        EndOfTransitive(SplitFrom(i, stop, res).rest, Space(r).rest, i);
      }
    }
  }

  lemma RejectedKey(i: seq<byte>, e: seq<byte>, stop: set<byte>)
    requires IsNotOn(i, stop).Err?
    ensures IsNotOn(i + e, stop).Err?
  {
    SpanExtends(i, e, stop, false);
  }

  lemma SplitStable(stop: set<byte>)
    ensures WeaklyStable(Split(stop)) && LeavesSuffix(Split(stop))
  {
    hide SplitFrom;
    var p := Split(stop);
    forall i, e | p(i).Ok? && p(i).rest != [] ensures p(i + e) == Ok(p(i).rest + e, p(i).value) {
      SplitExtends(i, stop, [], e);
    }
    forall i | p(i).Ok? ensures EndOf(p(i).rest, i) { SplitExtends(i, stop, [], []); }
  }

  lemma OptStable<T(!new)>(p: Parser<T>)
    requires WeaklyStable(p) && StaysRejected(p) && LeavesSuffix(p)
    ensures WeaklyStable(Opt(p)) && LeavesSuffix(Opt(p))
  {
    var q := Opt(p);
    forall i, e | q(i).Ok? && q(i).rest != [] ensures q(i + e) == Ok(q(i).rest + e, q(i).value) {
      if p(i).Ok? {
        assert p(i + e) == Ok(p(i).rest + e, p(i).value);
      } else {
        assert p(i + e).Err?;
      }
    }
  }

  /** A parser whose successes are final and which never succeeds on nothing. */
  ghost predicate Tight<T(!new)>(p: Parser<T>) {
    Stable(p) && Consumes(p) && LeavesSuffix(p)
  }

  /** Followed by a tight parser, a weakly stable one becomes tight. */
  lemma ThenTight<A(!new), B(!new)>(p: Parser<A>, f: A -> Parser<B>)
    requires WeaklyStable(p) && LeavesSuffix(p)
    requires forall v :: Tight(f(v))
    ensures Tight(Then(p, f))
  {
    hide WeaklyStable;
    var q := Then(p, f);
    forall i, e | q(i).Ok? ensures q(i + e) == Ok(q(i).rest + e, q(i).value) { ThenStep(p, f, i, e); }
    forall i | q(i).Ok? ensures EndOf(q(i).rest, i) && |q(i).rest| < |i| { ThenStep(p, f, i, []); }
  }

  lemma ThenStep<A(!new), B(!new)>(p: Parser<A>, f: A -> Parser<B>, i: seq<byte>, e: seq<byte>)
    requires WeaklyStable(p) && LeavesSuffix(p)
    requires p(i).Ok? && f(p(i).value)(p(i).rest).Ok? && Tight(f(p(i).value))
    ensures p(i + e) == Ok(p(i).rest + e, p(i).value)
    ensures f(p(i).value)(p(i).rest + e) == Ok(f(p(i).value)(p(i).rest).rest + e, f(p(i).value)(p(i).rest).value)
    ensures EndOf(f(p(i).value)(p(i).rest).rest, i) && |f(p(i).value)(p(i).rest).rest| < |i|
  {
    hide EndOf;
    var r, v := p(i).rest, p(i).value;
    var g := f(v);
    assert |g(r).rest| < |r| && EndOf(r, i) && EndOf(g(r).rest, r);
    assert |r| <= |i| by { Shorter(r, i); }
    EndOfTransitive(g(r).rest, r, i);
    assert g(r + e) == Ok(g(r).rest + e, g(r).value);
  }

  lemma Shorter(r: seq<byte>, i: seq<byte>)
    requires EndOf(r, i)
    ensures |r| <= |i|
  {
  }

  /** A tight parser whose value is replaced at the end of a chain. */
  lemma LastTight<A(!new), B(!new)>(p: Parser<A>, f: A -> Parser<B>)
    requires Tight(p) && forall v, i :: f(v)(i).Ok? && f(v)(i).rest == i
    requires forall v, i, j :: f(v)(i).value == f(v)(j).value
    ensures Tight(Then(p, f))
  {
    var q := Then(p, f);
    forall i, e | q(i).Ok? ensures q(i + e) == Ok(q(i).rest + e, q(i).value) {
      assert p(i + e) == Ok(p(i).rest + e, p(i).value);
      assert f(p(i).value)(p(i).rest + e).value == f(p(i).value)(p(i).rest).value;
    }
    forall i | q(i).Ok? ensures EndOf(q(i).rest, i) && |q(i).rest| < |i| { assert p(i).Ok?; }
  }

  // ---- the first byte of a request ----

  /** Inputs that start with any other byte are rejected at once. */
  ghost predicate StartsIn<T(!new)>(p: Parser<T>, s: set<byte>) {
    forall i :: i != [] && i[0] !in s ==> p(i).Err?
  }

  lemma TagStarts(t: seq<byte>)
    requires t != []
    ensures StartsIn(Tag(t), {t[0]})
  {
  }

  lemma ThenStarts<A(!new), B(!new)>(p: Parser<A>, f: A -> Parser<B>, s: set<byte>)
    requires StartsIn(p, s)
    ensures StartsIn(Then(p, f), s)
  {
  }

  lemma AltStarts<T(!new)>(p: Parser<T>, q: Parser<T>, s: set<byte>, t: set<byte>)
    requires StartsIn(p, s) && StartsIn(q, t)
    ensures StartsIn(Alt(p, q), s + t)
  {
    forall i | i != [] && i[0] !in s + t ensures Alt(p, q)(i).Err? {
      assert p(i).Err? && q(i).Err?;
    }
  }

  /** Alternatives that start with different bytes do not get in each other's way. */
  lemma AltTight<T(!new)>(p: Parser<T>, q: Parser<T>, s: set<byte>, t: set<byte>)
    requires Tight(p) && Tight(q) && StartsIn(p, s) && StartsIn(q, t) && s !! t
    ensures Tight(Alt(p, q))
  {
    forall i, e | p(i).Err? && q(i).Ok? ensures p(i + e).Err? {
      assert i != [];
      assert i[0] in t && (i + e)[0] == i[0];
    }
    AltStable(p, q);
  }

  lemma AltStable<T(!new)>(p: Parser<T>, q: Parser<T>)
    requires Stable(p) && Stable(q)
    requires forall i, e :: p(i).Err? && q(i).Ok? ==> p(i + e).Err?
    ensures Stable(Alt(p, q))
  {
    var a := Alt(p, q);
    forall i, e | a(i).Ok? ensures a(i + e) == Ok(a(i).rest + e, a(i).value) {
      if p(i).Ok? {
        assert p(i + e) == Ok(p(i).rest + e, p(i).value);
      } else {
        assert p(i + e).Err?;
        assert q(i + e) == Ok(q(i).rest + e, q(i).value);
      }
    }
  }
}

/** The memcached request grammar (mirdb-server/src/parser.rs). */
module Parsers {
  import opened Bytes
  import opened ParserCombinators

  datatype GetterType = Get | Gets

  datatype SetterType = Set | Add | Replace | Append | Prepend

  datatype Request =
    | Getter(getter: GetterType, keys: seq<Key>)
    | Setter(setter: SetterType, key: Key, flags: nat, ttl: nat, bytes: nat, payload: seq<byte>, noReply: bool)
    | Deleter(key: Key, noReply: bool)
    | Info
    | Error
    | MajorCompaction

  // Literals of the protocol, in ASCII.
  const GET: seq<byte> := [103, 101, 116]
  const GETS: seq<byte> := [103, 101, 116, 115]
  const SET: seq<byte> := [115, 101, 116]
  const ADD: seq<byte> := [97, 100, 100]
  const REPLACE: seq<byte> := [114, 101, 112, 108, 97, 99, 101]
  const APPEND: seq<byte> := [97, 112, 112, 101, 110, 100]
  const PREPEND: seq<byte> := [112, 114, 101, 112, 101, 110, 100]
  const DELETE: seq<byte> := [100, 101, 108, 101, 116, 101]
  const INFO: seq<byte> := [105, 110, 102, 111]
  const MAJOR_COMPACTION: seq<byte> := [109, 97, 106, 111, 114, 95, 99, 111, 109, 112, 97, 99, 116, 105, 111, 110]
  const NOREPLY: seq<byte> := [110, 111, 114, 101, 112, 108, 121]
  const CRLF: seq<byte> := [13, 10]
  const SP: seq<byte> := [32]

  /** A key ends at a space, a tab, CR, LF or NUL. */
  const KEY_STOP: set<byte> := {32, 9, 13, 10, 0}

  function ToGetterType(x: seq<byte>): GetterType {
    if x == GETS then Gets else Get
  }

  function ToSetterType(x: seq<byte>): SetterType {
    if x == SET then Set
    else if x == ADD then Add
    else if x == REPLACE then Replace
    else if x == APPEND then Append
    else Prepend
  }

  // ---- the grammar ----

  function SpaceThen<T>(q: Parser<T>): Parser<T> {
    Then(Space, (_: seq<byte>) => q)
  }

  function CrlfThen<T>(q: Parser<T>): Parser<T> {
    Then(Tag(CRLF), (_: seq<byte>) => q)
  }

  function CrlfEnd(r: Request): Parser<Request> {
    Then(Tag(CRLF), (_: seq<byte>) => Return(r))
  }

  function GetterName(): Parser<seq<byte>> {
    Alt(Tag(GETS), Tag(GET))
  }

  function GetterKeys(name: seq<byte>): Parser<Request> {
    Then(Split(KEY_STOP), (keys: seq<Key>) => CrlfEnd(Getter(ToGetterType(name), keys)))
  }

  function GetterP(): Parser<Request> {
    Then(GetterName(), (name: seq<byte>) => SpaceThen(GetterKeys(name)))
  }

  function SetterName(): Parser<seq<byte>> {
    Alt(Tag(SET), Alt(Tag(ADD), Alt(Tag(REPLACE), Alt(Tag(APPEND), Tag(PREPEND)))))
  }

  /** The fixed part of a storage command. */
  datatype Line = Line(name: seq<byte>, key: Key, flags: nat, ttl: nat, bytes: nat)

  function SetterRequest(l: Line, noReply: bool, payload: seq<byte>): Request {
    Setter(ToSetterType(l.name), l.key, l.flags, l.ttl, l.bytes, payload, noReply)
  }

  function SetterPayload(l: Line, noReply: bool): Parser<Request> {
    Then(TakeAtLeast(l.bytes, CRLF), (payload: seq<byte>) => CrlfEnd(SetterRequest(l, noReply, payload)))
  }

  function SetterNoReply(l: Line): Parser<Request> {
    Then(Opt(Tag(NOREPLY)), (x: Option<seq<byte>>) => CrlfThen(SetterPayload(l, x.Some?)))
  }

  function SetterOptions(l: Line): Parser<Request> {
    Then(Opt(Space), (_: Option<seq<byte>>) => SetterNoReply(l))
  }

  function SetterBytes(name: seq<byte>, key: Key, flags: nat, ttl: nat): Parser<Request> {
    Then(Digit(TWO64), (bytes: nat) => SetterOptions(Line(name, key, flags, ttl, bytes)))
  }

  function SetterTtl(name: seq<byte>, key: Key, flags: nat): Parser<Request> {
    Then(Digit(TWO32), (ttl: nat) => SpaceThen(SetterBytes(name, key, flags, ttl)))
  }

  function SetterFlags(name: seq<byte>, key: Key): Parser<Request> {
    Then(Digit(TWO32), (flags: nat) => SpaceThen(SetterTtl(name, key, flags)))
  }

  function SetterKey(name: seq<byte>): Parser<Request> {
    Then(IsNot(KEY_STOP), (key: Key) => SpaceThen(SetterFlags(name, key)))
  }

  function SetterP(): Parser<Request> {
    Then(SetterName(), (name: seq<byte>) => SpaceThen(SetterKey(name)))
  }

  function DeleterNoReply(key: Key): Parser<Request> {
    Then(Opt(Tag(NOREPLY)), (x: Option<seq<byte>>) => CrlfEnd(Deleter(key, x.Some?)))
  }

  function DeleterOptions(key: Key): Parser<Request> {
    Then(Opt(Space), (_: Option<seq<byte>>) => DeleterNoReply(key))
  }

  function DeleterKey(): Parser<Request> {
    Then(IsNot(KEY_STOP), (key: Key) => DeleterOptions(key))
  }

  function DeleterP(): Parser<Request> {
    Then(Tag(DELETE), (_: seq<byte>) => SpaceThen(DeleterKey()))
  }

  function InfoP(): Parser<Request> {
    Then(Tag(INFO), (_: seq<byte>) => CrlfEnd(Info))
  }

  function MajorCompactionP(): Parser<Request> {
    Then(Tag(MAJOR_COMPACTION), (_: seq<byte>) => CrlfEnd(MajorCompaction))
  }

  function ParseP(): Parser<Request> {
    Alt(GetterP(), Alt(SetterP(), Alt(DeleterP(), Alt(InfoP(), MajorCompactionP()))))
  }

  function Parse(i: seq<byte>): IR<Request> {
    ParseP()(i)
  }

  // ---- stability ----

  lemma StableIsWeak<T(!new)>(p: Parser<T>)
    requires Stable(p)
    ensures WeaklyStable(p)
  {
  }

  lemma SpaceThenTight<T(!new)>(q: Parser<T>)
    requires Tight(q)
    ensures Tight(SpaceThen(q))
  {
    SpaceStable();
    ThenTight(Space, (_: seq<byte>) => q);
  }

  lemma CrlfThenTight<T(!new)>(q: Parser<T>)
    requires Tight(q)
    ensures Tight(CrlfThen(q))
  {
    TagStable(CRLF);
    StableIsWeak(Tag(CRLF));
    ThenTight(Tag(CRLF), (_: seq<byte>) => q);
  }

  lemma CrlfEndTight(r: Request)
    ensures Tight(CrlfEnd(r))
  {
    TagStable(CRLF);
    LastTight(Tag(CRLF), (_: seq<byte>) => Return(r));
  }

  // The continuations of the grammar never look at what a separator matched, so
  // every chain is tight as soon as its tail is.

  lemma GetterKeysTight(name: seq<byte>)
    ensures Tight(GetterKeys(name))
  {
    SplitStable(KEY_STOP);
    hide Tight, WeaklyStable, LeavesSuffix, Split, CrlfEnd;
    var f := (keys: seq<Key>) => CrlfEnd(Getter(ToGetterType(name), keys));
    forall keys ensures Tight(f(keys)) { CrlfEndTight(Getter(ToGetterType(name), keys)); }
    ThenTight(Split(KEY_STOP), f);
  }

  lemma SetterPayloadTight(l: Line, noReply: bool)
    ensures Tight(SetterPayload(l, noReply))
  {
    TakeAtLeastStable(l.bytes, CRLF);
    hide Tight, WeaklyStable, LeavesSuffix, TakeAtLeast, CrlfEnd;
    var f := (payload: seq<byte>) => CrlfEnd(SetterRequest(l, noReply, payload));
    forall payload ensures Tight(f(payload)) { CrlfEndTight(SetterRequest(l, noReply, payload)); }
    ThenTight(TakeAtLeast(l.bytes, CRLF), f);
  }

  lemma OptionsStable()
    ensures WeaklyStable(Opt(Space)) && LeavesSuffix(Opt(Space))
    ensures WeaklyStable(Opt(Tag(NOREPLY))) && LeavesSuffix(Opt(Tag(NOREPLY)))
  {
    SpaceStable();
    TagStable(NOREPLY);
    StableIsWeak(Tag(NOREPLY));
    OptStable(Space);
    OptStable(Tag(NOREPLY));
  }

  lemma SetterOptionsTight(l: Line)
    ensures Tight(SetterOptions(l))
  {
    OptionsStable();
    hide Tight, WeaklyStable, LeavesSuffix, SetterPayload, Opt, CrlfThen;
    var f := (x: Option<seq<byte>>) => CrlfThen(SetterPayload(l, x.Some?));
    forall x ensures Tight(f(x)) {
      SetterPayloadTight(l, x.Some?);
      CrlfThenTight(SetterPayload(l, x.Some?));
    }
    ThenTight(Opt(Tag(NOREPLY)), f);
    ThenTight(Opt(Space), (_: Option<seq<byte>>) => SetterNoReply(l));
  }

  lemma SetterBytesTight(name: seq<byte>, key: Key, flags: nat, ttl: nat)
    ensures Tight(SetterBytes(name, key, flags, ttl))
  {
    DigitStable(TWO64);
    hide Tight, WeaklyStable, LeavesSuffix, SetterOptions, Digit;
    var f := (bytes: nat) => SetterOptions(Line(name, key, flags, ttl, bytes));
    forall bytes ensures Tight(f(bytes)) { SetterOptionsTight(Line(name, key, flags, ttl, bytes)); }
    ThenTight(Digit(TWO64), f);
  }

  lemma SetterTtlTight(name: seq<byte>, key: Key, flags: nat)
    ensures Tight(SetterTtl(name, key, flags))
  {
    DigitStable(TWO32);
    hide Tight, WeaklyStable, LeavesSuffix, SetterBytes, Digit, SpaceThen;
    var f := (ttl: nat) => SpaceThen(SetterBytes(name, key, flags, ttl));
    forall ttl ensures Tight(f(ttl)) {
      SetterBytesTight(name, key, flags, ttl);
      SpaceThenTight(SetterBytes(name, key, flags, ttl));
    }
    ThenTight(Digit(TWO32), f);
  }

  lemma SetterFlagsTight(name: seq<byte>, key: Key)
    ensures Tight(SetterFlags(name, key))
  {
    DigitStable(TWO32);
    hide Tight, WeaklyStable, LeavesSuffix, SetterTtl, Digit, SpaceThen;
    var f := (flags: nat) => SpaceThen(SetterTtl(name, key, flags));
    forall flags ensures Tight(f(flags)) {
      SetterTtlTight(name, key, flags);
      SpaceThenTight(SetterTtl(name, key, flags));
    }
    ThenTight(Digit(TWO32), f);
  }

  lemma SetterKeyTight(name: seq<byte>)
    ensures Tight(SetterKey(name))
  {
    IsNotStable(KEY_STOP);
    hide Tight, WeaklyStable, LeavesSuffix, SetterFlags, IsNot, SpaceThen;
    var f := (key: Key) => SpaceThen(SetterFlags(name, key));
    forall key ensures Tight(f(key)) {
      SetterFlagsTight(name, key);
      SpaceThenTight(SetterFlags(name, key));
    }
    ThenTight(IsNot(KEY_STOP), f);
  }

  lemma DeleterKeyTight()
    ensures Tight(DeleterKey())
  {
    IsNotStable(KEY_STOP);
    OptionsStable();
    hide Tight, WeaklyStable, LeavesSuffix, IsNot, Opt, CrlfEnd;
    forall key ensures Tight(DeleterOptions(key)) {
      var f := (x: Option<seq<byte>>) => CrlfEnd(Deleter(key, x.Some?));
      forall x ensures Tight(f(x)) { CrlfEndTight(Deleter(key, x.Some?)); }
      ThenTight(Opt(Tag(NOREPLY)), f);
      ThenTight(Opt(Space), (_: Option<seq<byte>>) => DeleterNoReply(key));
    }
    ThenTight(IsNot(KEY_STOP), (key: Key) => DeleterOptions(key));
  }

  /** A command is a name followed by a tight tail. */
  lemma CommandTight<T(!new)>(name: Parser<seq<byte>>, f: seq<byte> -> Parser<T>, s: set<byte>)
    requires Named(name, s) && forall v :: Tight(f(v))
    ensures Tight(Then(name, f)) && StartsIn(Then(name, f), s)
  {
    StableIsWeak(name);
    ThenTight(name, f);
    ThenStarts(name, f, s);
  }

  ghost predicate Named(p: Parser<seq<byte>>, s: set<byte>) {
    Stable(p) && StaysRejected(p) && LeavesSuffix(p) && Consumes(p) && StartsIn(p, s)
  }

  lemma TagNamed(t: seq<byte>)
    requires t != []
    ensures Named(Tag(t), {t[0]})
  {
    TagStable(t);
    TagStarts(t);
  }

  lemma AltNamed(p: Parser<seq<byte>>, q: Parser<seq<byte>>, s: set<byte>, t: set<byte>)
    requires Named(p, s) && Named(q, t)
    ensures Named(Alt(p, q), s + t)
  {
    AltStable(p, q);
    AltStarts(p, q, s, t);
    forall i, e | p(i).Err? && q(i).Err? && i != [] ensures Alt(p, q)(i + e).Err? {
      assert p(i + e).Err? && q(i + e).Err?;
    }
  }

  lemma GetterTight()
    ensures Tight(GetterP()) && StartsIn(GetterP(), {103})
  {
    hide Tight, Named, StartsIn, Tag, SpaceThen, GetterKeys;
    TagNamed(GETS);
    TagNamed(GET);
    AltNamed(Tag(GETS), Tag(GET), {103}, {103});
    assert {103 as byte} + {103} == {103};
    var f := (name: seq<byte>) => SpaceThen(GetterKeys(name));
    forall name ensures Tight(f(name)) {
      GetterKeysTight(name);
      SpaceThenTight(GetterKeys(name));
    }
    CommandTight(GetterName(), f, {103});
  }

  const SETTER_BYTES: set<byte> := {115, 97, 114, 112}

  lemma SetterNamed()
    ensures Named(SetterName(), SETTER_BYTES)
  {
    hide Named, Tag, Alt;
    TagNamed(SET);
    TagNamed(ADD);
    TagNamed(REPLACE);
    TagNamed(APPEND);
    TagNamed(PREPEND);
    AltNamed(Tag(APPEND), Tag(PREPEND), {97}, {112});
    AltNamed(Tag(REPLACE), Alt(Tag(APPEND), Tag(PREPEND)), {114}, {97} + {112});
    AltNamed(Tag(ADD), Alt(Tag(REPLACE), Alt(Tag(APPEND), Tag(PREPEND))), {97}, {114} + ({97} + {112}));
    AltNamed(Tag(SET), Alt(Tag(ADD), Alt(Tag(REPLACE), Alt(Tag(APPEND), Tag(PREPEND)))), {115},
        {97} + ({114} + ({97} + {112})));
    assert {115 as byte} + ({97} + ({114} + ({97} + {112}))) == SETTER_BYTES;
  }

  lemma SetterTight()
    ensures Tight(SetterP()) && StartsIn(SetterP(), SETTER_BYTES)
  {
    hide Tight, Named, StartsIn, SetterName, SpaceThen, SetterKey;
    SetterNamed();
    var f := (name: seq<byte>) => SpaceThen(SetterKey(name));
    forall name ensures Tight(f(name)) {
      SetterKeyTight(name);
      SpaceThenTight(SetterKey(name));
    }
    CommandTight(SetterName(), f, SETTER_BYTES);
  }

  lemma DeleterTight()
    ensures Tight(DeleterP()) && StartsIn(DeleterP(), {100})
  {
    hide Tight, Named, StartsIn, Tag, SpaceThen, DeleterKey;
    TagNamed(DELETE);
    DeleterKeyTight();
    SpaceThenTight(DeleterKey());
    CommandTight(Tag(DELETE), (_: seq<byte>) => SpaceThen(DeleterKey()), {100});
  }

  lemma PlainTight(name: seq<byte>, r: Request)
    requires name != []
    ensures Tight(Then(Tag(name), (_: seq<byte>) => CrlfEnd(r)))
    ensures StartsIn(Then(Tag(name), (_: seq<byte>) => CrlfEnd(r)), {name[0]})
  {
    hide Tight, Named, StartsIn, Tag, CrlfEnd;
    TagNamed(name);
    CrlfEndTight(r);
    CommandTight(Tag(name), (_: seq<byte>) => CrlfEnd(r), {name[0]});
  }

  lemma ParseTight()
    ensures Tight(ParseP())
  {
    hide Tight, StartsIn, GetterP, SetterP, DeleterP, Alt, Then, Tag, CrlfEnd;
    GetterTight();
    SetterTight();
    DeleterTight();
    PlainTight(INFO, Info);
    PlainTight(MAJOR_COMPACTION, MajorCompaction);
    AltStarts(InfoP(), MajorCompactionP(), {105}, {109});
    AltTight(InfoP(), MajorCompactionP(), {105}, {109});
    var p2 := Alt(InfoP(), MajorCompactionP());
    AltStarts(DeleterP(), p2, {100}, {105} + {109});
    AltTight(DeleterP(), p2, {100}, {105} + {109});
    var p3 := Alt(DeleterP(), p2);
    AltStarts(SetterP(), p3, SETTER_BYTES, {100} + ({105} + {109}));
    AltTight(SetterP(), p3, SETTER_BYTES, {100} + ({105} + {109}));
    AltTight(GetterP(), Alt(SetterP(), p3), {103}, SETTER_BYTES + ({100} + ({105} + {109})));
  }

  /** Once a request parses, bytes that arrive later only join the remainder. */
  lemma ParseStable(i: seq<byte>, e: seq<byte>)
    requires Parse(i).Ok?
    ensures Parse(i + e) == Ok(Parse(i).rest + e, Parse(i).value)
    ensures |Parse(i).rest| < |i| && EndOf(Parse(i).rest, i)
  {
    hide ParseP;
    ParseTight();
  }

  // ---- what a parsed request looks like ----

  /** Keys are never empty and hold no space, tab, line end or NUL. */
  predicate GoodKey(k: Key) {
    k != [] && forall j :: 0 <= j < |k| ==> k[j] !in KEY_STOP
  }

  /** A storage command carries at least the announced number of payload bytes. */
  predicate Sound(r: Request) {
    match r
    case Getter(_, keys) => keys != [] && forall j :: 0 <= j < |keys| ==> GoodKey(keys[j])
    case Setter(_, key, flags, ttl, bytes, payload, _) => GoodKey(key) && flags < TWO32 && ttl < TWO32 &&
        bytes < TWO64 && |payload| >= bytes
    case Deleter(key, _) => GoodKey(key)
    case Error => false
    case _ => true
  }

  ghost predicate Yields(p: Parser<Request>) {
    forall i :: p(i).Ok? ==> Sound(p(i).value)
  }

  lemma KeyIsGood(i: seq<byte>)
    requires IsNotOn(i, KEY_STOP).Ok? && IsNotOn(i, KEY_STOP).rest != []
    ensures GoodKey(IsNotOn(i, KEY_STOP).value)
  {
  }

  lemma {:induction false} SplitGood(i: seq<byte>, res: seq<Key>)
    requires SplitFrom(i, KEY_STOP, res).Ok? && SplitFrom(i, KEY_STOP, res).rest != []
    requires forall j :: 0 <= j < |res| ==> GoodKey(res[j])
    ensures SplitFrom(i, KEY_STOP, res).value != []
    ensures forall k :: k in SplitFrom(i, KEY_STOP, res).value ==> GoodKey(k)
    decreases |i|
  {
    hide IsNotOn, Span, GoodKey, KEY_STOP;
    IsNotStable(KEY_STOP);
    var p := IsNot(KEY_STOP);
    assert p(i) == IsNotOn(i, KEY_STOP);
    if p(i).Ok? {
      var r, key := p(i).rest, p(i).value;
      KeyIsGood(i);
      if Space(r).Ok? { SplitGood(Space(r).rest, res + [key]); }
    }
  }

  lemma GetterYields()
    ensures Yields(GetterP())
  {
    hide Tag, CrlfEnd, SplitFrom, Space, GoodKey, KEY_STOP;
    var p := GetterP();
    forall i | p(i).Ok? ensures Sound(p(i).value) {
      var a := GetterName()(i);
      var s: Parser<seq<byte>> := Space;
      var x := s(a.rest).rest;
      var keys := Split(KEY_STOP)(x);
      assert p(i) == CrlfEnd(Getter(ToGetterType(a.value), keys.value))(keys.rest);
      EndYields(Getter(ToGetterType(a.value), keys.value), keys.rest);
      SplitGood(x, []);
    }
  }

  lemma EndYields(r: Request, i: seq<byte>)
    requires CrlfEnd(r)(i).Ok?
    ensures CrlfEnd(r)(i).value == r && i != []
  {
  }

  lemma SetterPayloadYields(l: Line, noReply: bool)
    requires GoodKey(l.key) && l.flags < TWO32 && l.ttl < TWO32 && l.bytes < TWO64
    ensures Yields(SetterPayload(l, noReply))
  {
    hide GoodKey, CrlfEnd, FindTag;
    var p := SetterPayload(l, noReply);
    forall i | p(i).Ok? ensures Sound(p(i).value) {
      var t := TakeAtLeast(l.bytes, CRLF)(i);
      EndYields(SetterRequest(l, noReply, t.value), t.rest);
    }
  }

  lemma SetterOptionsYields(l: Line)
    requires GoodKey(l.key) && l.flags < TWO32 && l.ttl < TWO32 && l.bytes < TWO64
    ensures Yields(SetterOptions(l))
  {
    hide GoodKey, Tag, Opt, SetterPayload;
    SetterPayloadYields(l, true);
    SetterPayloadYields(l, false);
  }

  lemma SetterNumbersYields(name: seq<byte>, key: Key)
    requires GoodKey(key)
    ensures Yields(SetterFlags(name, key))
  {
    hide GoodKey, SetterOptions, Space, Digit;
    var p := SetterFlags(name, key);
    forall i | p(i).Ok? ensures Sound(p(i).value) {
      var s: Parser<seq<byte>> := Space;
      var flags := Digit(TWO32)(i);
      var ttl := Digit(TWO32)(s(flags.rest).rest);
      var bytes := Digit(TWO64)(s(ttl.rest).rest);
      var l := Line(name, key, flags.value, ttl.value, bytes.value);
      DigitBound(TWO32, i);
      DigitBound(TWO32, s(flags.rest).rest);
      DigitBound(TWO64, s(ttl.rest).rest);
      SetterOptionsYields(l);
      assert p(i) == SetterOptions(l)(bytes.rest);
    }
  }

  lemma DigitBound(limit: nat, i: seq<byte>)
    requires Digit(limit)(i).Ok?
    ensures Digit(limit)(i).value < limit
  {
  }

  lemma SetterYields()
    ensures Yields(SetterP())
  {
    hide GoodKey, SetterName, SetterFlags, Space, IsNotOn, KEY_STOP;
    var p := SetterP();
    var s: Parser<seq<byte>> := Space;
    SpaceStable();
    assert !s([]).Ok?;
    forall i | p(i).Ok? ensures Sound(p(i).value) {
      var a := SetterName()(i);
      var x := s(a.rest).rest;
      var key := IsNot(KEY_STOP)(x);
      assert key.rest != [];
      KeyIsGood(x);
      SetterNumbersYields(a.value, key.value);
      assert p(i) == SetterFlags(a.value, key.value)(s(key.rest).rest);
    }
  }

  lemma DeleterYields()
    ensures Yields(DeleterP())
  {
    hide GoodKey, Tag, Space, IsNotOn, KEY_STOP, CrlfEnd;
    var p := DeleterP();
    var s: Parser<seq<byte>> := Space;
    forall i | p(i).Ok? ensures Sound(p(i).value) {
      var a := Tag(DELETE)(i);
      var x := s(a.rest).rest;
      var key := IsNot(KEY_STOP)(x);
      var o := Opt(Space)(key.rest);
      var n := Opt(Tag(NOREPLY))(o.rest);
      assert p(i) == CrlfEnd(Deleter(key.value, n.value.Some?))(n.rest);
      EndYields(Deleter(key.value, n.value.Some?), n.rest);
      DeleterOptionsLeave(key.rest);
      KeyIsGood(x);
    }
  }

  lemma DeleterOptionsLeave(i: seq<byte>)
    requires Opt(Space)(i).Ok? && Opt(Tag(NOREPLY))(Opt(Space)(i).rest).Ok?
    ensures i != []
  {
    var q := Tag(NOREPLY);
    assert q([]).Incomplete? by { CompareMeaning([], NOREPLY); }
    var s: Parser<seq<byte>> := Space;
    assert s([]) == Err;
    assert i == [] ==> Opt(Space)(i) == Ok([], None);
  }

  /** Whatever the grammar accepts is a real command with usable keys and a long enough payload. */
  lemma ParsedIsSound(i: seq<byte>)
    requires Parse(i).Ok?
    ensures Sound(Parse(i).value)
  {
    hide GetterP, SetterP, DeleterP, GoodKey;
    GetterYields();
    SetterYields();
    DeleterYields();
  }
}

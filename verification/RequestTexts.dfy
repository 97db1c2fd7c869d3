/** Canonical request texts and what the grammar makes of them
    (mirdb-server/src/parser.rs). */
module RequestTexts {
  import opened Bytes
  import opened ParserCombinators
  import opened Parsers

  // ---- writing requests ----

  function Decimal(n: nat): (s: seq<byte>)
    ensures s != [] && forall j :: 0 <= j < |s| ==> s[j] in DIGITS
  {
    var d: byte := 48 + n % 10;
    if n < 10 then [d] else Decimal(n / 10) + [d]
  }

  function GetterText(t: GetterType): seq<byte> {
    match t case Get => GET case Gets => GETS
  }

  function SetterText(t: SetterType): seq<byte> {
    match t case Set => SET case Add => ADD case Replace => REPLACE case Append => APPEND case Prepend => PREPEND
  }

  function KeysText(keys: seq<Key>): seq<byte>
    requires keys != []
  {
    keys[0] + if |keys| == 1 then CRLF else SP + KeysText(keys[1..])
  }

  /** What follows the last mandatory field of a line. */
  function OptionsText(noReply: bool, tail: seq<byte>): seq<byte> {
    if noReply then SP + (NOREPLY + (CRLF + tail)) else CRLF + tail
  }

  function BytesText(bytes: nat, noReply: bool, payload: seq<byte>): seq<byte> {
    Decimal(bytes) + OptionsText(noReply, payload + CRLF)
  }

  function TtlText(r: Request): seq<byte>
    requires r.Setter?
  {
    Decimal(r.ttl) + (SP + BytesText(r.bytes, r.noReply, r.payload))
  }

  function FlagsText(r: Request): seq<byte>
    requires r.Setter?
  {
    Decimal(r.flags) + (SP + TtlText(r))
  }

  /** The canonical text: single spaces, the payload and its line end. */
  function Encode(r: Request): seq<byte>
    requires Canonical(r)
  {
    match r
    case Getter(t, keys) => GetterText(t) + (SP + KeysText(keys))
    case Setter(t, key, _, _, _, _, _) => SetterText(t) + (SP + (key + (SP + FlagsText(r))))
    case Deleter(key, noReply) => DELETE + (SP + (key + OptionsText(noReply, [])))
    case Info => INFO + CRLF
    case MajorCompaction => MAJOR_COMPACTION + CRLF
  }

  /** The line end behind a payload is the first one at or behind the announced length. A payload of that
      length may hold anything; a longer one has no line end after it. */
  predicate EndsHere(payload: seq<byte>, bytes: nat) {
    bytes <= |payload| && forall j :: bytes <= j < |payload| ==> !TagAt(payload + CRLF, CRLF, j)
  }

  /** The requests a client can send. */
  predicate Canonical(r: Request) {
    match r
    case Getter(_, keys) => keys != [] && forall j :: 0 <= j < |keys| ==> GoodKey(keys[j])
    case Setter(_, key, flags, ttl, bytes, payload, _) => GoodKey(key) && flags < TWO32 && ttl < TWO32 &&
        bytes < TWO64 && EndsHere(payload, bytes)
    case Deleter(key, _) => GoodKey(key)
    case Info => true
    case Error => false
    case MajorCompaction => true
  }

  // ---- one parser, one field ----

  lemma {:induction false} DecimalRoundTrip(n: nat)
    ensures DecimalValue(Decimal(n)) == n
  {
    if n >= 10 {
      DecimalRoundTrip(n / 10);
      var s := Decimal(n);
      assert s[..|s| - 1] == Decimal(n / 10);
    } else {
      assert Decimal(n)[..0] == [];
    }
  }

  lemma SpanOf(a: seq<byte>, i: seq<byte>, s: set<byte>, inside: bool)
    requires forall j :: 0 <= j < |a| ==> ((a[j] in s) <==> inside)
    requires i != [] ==> !((i[0] in s) <==> inside)
    ensures Span(a + i, s, inside) == |a| && (a + i)[..|a|] == a && (a + i)[|a|..] == i
  {
    SpanUnique(a + i, s, inside, |a|);
  }

  lemma ReadTag(t: seq<byte>, i: seq<byte>)
    ensures Tag(t)(t + i) == Ok(i, t)
  {
    CompareMeaning(t + i, t);
    assert (t + i)[..|t|] == t && (t + i)[|t|..] == i;
  }

  lemma WrongTag(t: seq<byte>, i: seq<byte>, j: nat)
    requires j < |t| && j < |i| && t[j] != i[j]
    ensures Tag(t)(i) == Err
  {
    CompareMeaning(i, t);
    assert |t| <= |i| ==> i[..|t|][j] == i[j];
    assert |i| <= |t| ==> t[..|i|][j] == t[j];
  }

  predicate NotFirst(i: seq<byte>, s: set<byte>) {
    i != [] ==> i[0] !in s
  }

  lemma OneSpace(i: seq<byte>)
    requires NotFirst(i, SPACE)
    ensures Space(SP + i) == Ok(i, SP)
  {
    SpanOf(SP, i, SPACE, true);
  }

  lemma ReadSpace<T>(q: Parser<T>, i: seq<byte>)
    requires NotFirst(i, SPACE)
    ensures SpaceThen(q)(SP + i) == q(i) && Opt(Space)(SP + i) == Ok(i, Some(SP))
  {
    OneSpace(i);
    hide Span, SP;
    var s: Parser<seq<byte>> := Space;
    assert s(SP + i) == Ok(i, SP);
  }

  lemma NoSpace(i: seq<byte>)
    requires NotFirst(i, SPACE)
    ensures Space(i) == Err
  {
    SpanOf([], i, SPACE, true);
    assert [] + i == i;
  }

  lemma ReadKey(key: Key, i: seq<byte>)
    requires GoodKey(key) && (i != [] ==> i[0] in KEY_STOP)
    ensures IsNotOn(key + i, KEY_STOP) == Ok(i, key)
  {
    SpanOf(key, i, KEY_STOP, false);
  }

  lemma ReadDigits(n: nat, limit: nat, i: seq<byte>)
    requires n < limit && NotFirst(i, DIGITS)
    ensures Digit(limit)(Decimal(n) + i) == Ok(i, n)
  {
    SpanOf(Decimal(n), i, DIGITS, true);
    DecimalRoundTrip(n);
  }

  lemma DigitsStart(n: nat, i: seq<byte>)
    ensures NotFirst(Decimal(n) + i, SPACE)
  {
    assert Decimal(n)[0] in DIGITS;
  }

  lemma ReadOptions<T(!new)>(noReply: bool, tail: seq<byte>, f: bool -> Parser<T>)
    ensures Then(Opt(Space),
            (_: Option<seq<byte>>) => Then(Opt(Tag(NOREPLY)),
                (x: Option<seq<byte>>) => f(x.Some?)))(OptionsText(noReply, tail)) == f(noReply)(CRLF + tail)
  {
    if noReply {
      ReadSpace(Tag(NOREPLY), NOREPLY + (CRLF + tail));
      ReadTag(NOREPLY, CRLF + tail);
    } else {
      NoSpace(CRLF + tail);
      WrongTag(NOREPLY, CRLF + tail, 0);
    }
  }

  // ---- the commands ----

  lemma ReadEnd(r: Request, i: seq<byte>)
    ensures CrlfEnd(r)(CRLF + i) == Ok(i, r)
  {
    ReadTag(CRLF, i);
  }

  lemma {:induction false} ReadKeys(keys: seq<Key>, res: seq<Key>)
    requires keys != [] && forall j :: 0 <= j < |keys| ==> GoodKey(keys[j])
    ensures SplitFrom(KeysText(keys), KEY_STOP, res) == Ok(CRLF, res + keys)
    decreases |keys|
  {
    hide Span, Space, IsNotOn;
    if |keys| == 1 {
      ReadKey(keys[0], CRLF);
      NoSpace(CRLF);
      assert keys == [keys[0]];
    } else {
      var tail := KeysText(keys[1..]);
      assert GoodKey(keys[1]) && tail[0] == keys[1][0];
      ReadKey(keys[0], SP + tail);
      OneSpace(tail);
      ReadKeys(keys[1..], res + [keys[0]]);
      assert res + [keys[0]] + keys[1..] == res + keys;
    }
  }

  lemma ReadGetterName(t: GetterType, i: seq<byte>)
    requires i != [] && i[0] != 115
    ensures GetterName()(GetterText(t) + i) == Ok(i, GetterText(t)) && ToGetterType(GetterText(t)) == t
  {
    hide TagOn;
    ReadTag(GetterText(t), i);
    if t == Get { WrongTag(GETS, GET + i, 3); }
  }

  lemma ReadGetter(r: Request)
    requires Canonical(r) && r.Getter?
    ensures GetterP()(Encode(r)) == Ok([], r)
  {
    hide Tag, Space, SplitFrom;
    var text := KeysText(r.keys);
    assert GoodKey(r.keys[0]) && text[0] == r.keys[0][0];
    ReadGetterName(r.getter, SP + text);
    var name := GetterText(r.getter);
    ReadSpace(GetterKeys(name), text);
    ReadKeys(r.keys, []);
    assert [] + r.keys == r.keys && CRLF + [] == CRLF;
    ReadEnd(r, []);
  }

  lemma ReadSetterName(t: SetterType, i: seq<byte>)
    ensures SetterName()(SetterText(t) + i) == Ok(i, SetterText(t)) && ToSetterType(SetterText(t)) == t
  {
    hide TagOn;
    var s := SetterText(t) + i;
    ReadTag(SetterText(t), i);
    if t != Set { WrongTag(SET, s, 0); }
    if t == Append { WrongTag(ADD, s, 1); }
    if t == Replace || t == Prepend { WrongTag(ADD, s, 0); }
    if t == Append || t == Prepend { WrongTag(REPLACE, s, 0); }
    if t == Prepend { WrongTag(APPEND, s, 0); }
  }

  /** What is taken for the payload of a storage command, whatever follows its line: everything up to the
      first line end at or behind the announced length, and nothing as long as there is none. */
  lemma PayloadExact(l: Line, noReply: bool, i: seq<byte>, j: nat)
    ensures l.bytes <= j && TagAt(i, CRLF, j) && (forall x :: l.bytes <= x < j ==> !TagAt(i, CRLF, x)) ==>
              SetterPayload(l, noReply)(i) == Ok(i[j + 2..], SetterRequest(l, noReply, i[..j]))
    ensures (forall x :: l.bytes <= x ==> !TagAt(i, CRLF, x)) ==> SetterPayload(l, noReply)(i).Incomplete?
  {
    hide Tag, FindTag;
    if l.bytes <= |i| {
      var tail := i[l.bytes..];
      var found := FindTag(tail, CRLF);
      TagsBehind(i, CRLF, l.bytes);
      NoTagOnNothing(SetterRequest(l, noReply, i));
      if l.bytes <= j && TagAt(i, CRLF, j) && (forall x :: l.bytes <= x < j ==> !TagAt(i, CRLF, x)) {
        assert TagAt(tail, CRLF, j - l.bytes);
        assert forall x :: 0 <= x < j - l.bytes ==> TagAt(tail, CRLF, x) == TagAt(i, CRLF, x + l.bytes);
        assert found == Some(j - l.bytes);
        assert TakeAtLeast(l.bytes, CRLF)(i) == Ok(i[j..], i[..j]);
        assert i[j..] == CRLF + i[j + 2..];
        ReadEnd(SetterRequest(l, noReply, i[..j]), i[j + 2..]);
      } else if forall x :: l.bytes <= x ==> !TagAt(i, CRLF, x) {
        assert TakeAtLeast(l.bytes, CRLF)(i) == Ok([], i);
      }
    }
  }

  lemma TagsBehind(i: seq<byte>, tag: seq<byte>, at: nat)
    requires at <= |i|
    ensures forall x: nat :: TagAt(i[at..], tag, x) == TagAt(i, tag, at + x)
  {
    forall x: nat ensures TagAt(i[at..], tag, x) == TagAt(i, tag, at + x) {
      if at + x + |tag| <= |i| { assert i[at..][x..x + |tag|] == i[at + x..at + x + |tag|]; }
    }
  }

  lemma NoTagOnNothing(r: Request)
    ensures CrlfEnd(r)([]).Incomplete?
  {
    CompareMeaning([], CRLF);
  }

  lemma ReadPayload(l: Line, noReply: bool, payload: seq<byte>)
    requires EndsHere(payload, l.bytes)
    ensures SetterPayload(l, noReply)(payload + CRLF) == Ok([], SetterRequest(l, noReply, payload))
  {
    hide SetterPayload;
    var i := payload + CRLF;
    assert TagAt(i, CRLF, |payload|) && i[..|payload|] == payload && i[|payload| + 2..] == [];
    PayloadExact(l, noReply, i, |payload|);
  }

  lemma ReadSetterOptions(l: Line, noReply: bool, payload: seq<byte>)
    requires EndsHere(payload, l.bytes)
    ensures SetterOptions(l)(OptionsText(noReply, payload + CRLF)) == Ok([], SetterRequest(l, noReply, payload))
  {
    hide Opt, Tag, SetterPayload, EndsHere;
    ReadOptions(noReply, payload + CRLF, (n: bool) => CrlfThen(SetterPayload(l, n)));
    ReadTag(CRLF, payload + CRLF);
    ReadPayload(l, noReply, payload);
  }

  lemma OptionsStart(noReply: bool, tail: seq<byte>)
    ensures OptionsText(noReply, tail) != [] && NotFirst(OptionsText(noReply, tail), DIGITS) &&
            OptionsText(noReply, tail)[0] in KEY_STOP
  {
  }

  lemma ReadBytes(name: seq<byte>, r: Request)
    requires Canonical(r) && r.Setter? && ToSetterType(name) == r.setter
    ensures SetterBytes(name, r.key, r.flags, r.ttl)(BytesText(r.bytes, r.noReply, r.payload)) == Ok([], r)
  {
    hide Digit, SetterOptions, OptionsText;
    OptionsStart(r.noReply, r.payload + CRLF);
    ReadDigits(r.bytes, TWO64, OptionsText(r.noReply, r.payload + CRLF));
    ReadSetterOptions(Line(name, r.key, r.flags, r.ttl, r.bytes), r.noReply, r.payload);
  }

  lemma ReadTtl(name: seq<byte>, r: Request)
    requires Canonical(r) && r.Setter? && ToSetterType(name) == r.setter
    ensures SetterTtl(name, r.key, r.flags)(TtlText(r)) == Ok([], r)
  {
    hide Digit, SetterBytes, SpaceThen;
    var tail := BytesText(r.bytes, r.noReply, r.payload);
    DigitsStart(r.bytes, OptionsText(r.noReply, r.payload + CRLF));
    ReadDigits(r.ttl, TWO32, SP + tail);
    ReadSpace(SetterBytes(name, r.key, r.flags, r.ttl), tail);
    ReadBytes(name, r);
  }

  lemma ReadFlags(name: seq<byte>, r: Request)
    requires Canonical(r) && r.Setter? && ToSetterType(name) == r.setter
    ensures SetterFlags(name, r.key)(FlagsText(r)) == Ok([], r)
  {
    hide Digit, SetterTtl, SpaceThen;
    DigitsStart(r.ttl, SP + BytesText(r.bytes, r.noReply, r.payload));
    ReadDigits(r.flags, TWO32, SP + TtlText(r));
    ReadSpace(SetterTtl(name, r.key, r.flags), TtlText(r));
    ReadTtl(name, r);
  }

  lemma FlagsStart(r: Request)
    requires r.Setter?
    ensures NotFirst(FlagsText(r), SPACE)
  {
    DigitsStart(r.flags, SP + TtlText(r));
  }

  lemma ReadSetterKey(name: seq<byte>, r: Request)
    requires Canonical(r) && r.Setter? && ToSetterType(name) == r.setter
    ensures SetterKey(name)(r.key + (SP + FlagsText(r))) == Ok([], r)
  {
    hide SetterFlags, SpaceThen, IsNotOn, FlagsText;
    ReadKey(r.key, SP + FlagsText(r));
    FlagsStart(r);
    ReadSpace(SetterFlags(name, r.key), FlagsText(r));
    ReadFlags(name, r);
  }

  lemma ReadSetter(r: Request)
    requires Canonical(r) && r.Setter?
    ensures SetterP()(Encode(r)) == Ok([], r)
  {
    hide SetterName, SetterKey, SpaceThen, FlagsText;
    var name := SetterText(r.setter);
    var tail := r.key + (SP + FlagsText(r));
    ReadSetterName(r.setter, SP + tail);
    ReadSpace(SetterKey(name), tail);
    ReadSetterKey(name, r);
  }

  lemma ReadDeleter(r: Request)
    requires Canonical(r) && r.Deleter?
    ensures DeleterP()(Encode(r)) == Ok([], r)
  {
    hide Tag, Opt, Span, SpaceThen, OptionsText;
    var tail := OptionsText(r.noReply, []);
    ReadTag(DELETE, SP + (r.key + tail));
    ReadSpace(DeleterKey(), r.key + tail);
    OptionsStart(r.noReply, []);
    ReadKey(r.key, tail);
    ReadOptions(r.noReply, [], (n: bool) => CrlfEnd(Deleter(r.key, n)));
    ReadEnd(r, []);
  }

  lemma ReadPlain(name: seq<byte>, r: Request)
    ensures Then(Tag(name), (_: seq<byte>) => CrlfEnd(r))(name + CRLF) == Ok([], r)
  {
    hide Tag;
    ReadTag(name, CRLF);
    assert CRLF + [] == CRLF;
    ReadEnd(r, []);
  }

  /** Only the grammar's own first bytes get past an alternative. */
  lemma ParseChoice(i: seq<byte>)
    requires i != []
    ensures i[0] == 103 ==> Parse(i) == GetterP()(i)
    ensures i[0] in SETTER_BYTES ==> Parse(i) == SetterP()(i)
    ensures i[0] == 100 ==> Parse(i) == DeleterP()(i)
    ensures i[0] == 105 ==> Parse(i) == InfoP()(i)
    ensures i[0] == 109 ==> Parse(i) == MajorCompactionP()(i)
  {
    hide Tight, GetterP, SetterP, DeleterP, Then, Tag, CrlfEnd;
    GetterTight();
    SetterTight();
    DeleterTight();
    PlainTight(INFO, Info);
    PlainTight(MAJOR_COMPACTION, MajorCompaction);
  }

  /** Every request a client can write is read back, and nothing is left over. */
  lemma ParseRoundTrip(r: Request)
    requires Canonical(r)
    ensures Parse(Encode(r)) == Ok([], r)
  {
    hide Parse, GetterP, SetterP, DeleterP, Tag, CrlfEnd, KeysText, FlagsText;
    ParseChoice(Encode(r));
    match r {
      case Getter(_, _) => ReadGetter(r);
      case Setter(_, _, _, _, _, _, _) => ReadSetter(r);
      case Deleter(_, _) => ReadDeleter(r);
      case Info => ReadPlain(INFO, Info);
      case MajorCompaction => ReadPlain(MAJOR_COMPACTION, MajorCompaction);
    }
  }

  /** With anything at all behind it, the same request is read. */
  lemma ParseFirst(r: Request, rest: seq<byte>)
    requires Canonical(r)
    ensures Parse(Encode(r) + rest) == Ok(rest, r)
  {
    hide Parse;
    ParseRoundTrip(r);
    ParseStable(Encode(r), rest);
    assert [] + rest == rest;
  }

  // ---- the texts themselves ----

  function Ascii(s: string): (r: seq<byte>)
    requires forall i :: 0 <= i < |s| ==> s[i] as int < 128
    ensures |r| == |s| && forall i :: 0 <= i < |s| ==> r[i] == s[i] as int
  {
    seq(|s|, i requires 0 <= i < |s| => s[i] as int)
  }

  /** The words of the protocol. */
  lemma Words()
    ensures GET == Ascii("get") && GETS == Ascii("gets") && DELETE == Ascii("delete") && INFO == Ascii("info")
    ensures SET == Ascii("set") && ADD == Ascii("add") && REPLACE == Ascii("replace")
    ensures APPEND == Ascii("append") && PREPEND == Ascii("prepend") && NOREPLY == Ascii("noreply")
    ensures MAJOR_COMPACTION == Ascii("major_compaction") && CRLF == Ascii("\r\n") && SP == Ascii(" ")
  {
  }

  function Flat(parts: seq<seq<byte>>): seq<byte> {
    if parts == [] then [] else parts[0] + Flat(parts[1..])
  }

  lemma FlatPush(x: seq<byte>, parts: seq<seq<byte>>)
    ensures Flat([x] + parts) == x + Flat(parts)
  {
    assert ([x] + parts)[1..] == parts;
  }

  lemma FlatPush2(x: seq<byte>, y: seq<byte>, parts: seq<seq<byte>>)
    ensures Flat([x, y] + parts) == x + (y + Flat(parts))
  {
    hide Flat;
    FlatPush(y, parts);
    FlatPush(x, [y] + parts);
    assert [x] + ([y] + parts) == [x, y] + parts;
  }

  function Options(noReply: bool): seq<seq<byte>> {
    if noReply then [Ascii(" "), Ascii("noreply")] else []
  }

  lemma OptionsFlat(noReply: bool, tail: seq<seq<byte>>)
    ensures Flat(Options(noReply) + ([Ascii("\r\n")] + tail)) == OptionsText(noReply, Flat(tail))
  {
    hide Flat, Ascii;
    Words();
    var end := [Ascii("\r\n")] + tail;
    FlatPush(Ascii("\r\n"), tail);
    FlatPush2(Ascii(" "), Ascii("noreply"), end);
    assert !noReply ==> Options(noReply) + end == end;
  }

  function Name(t: SetterType): seq<byte> {
    match t
    case Set => Ascii("set")
    case Add => Ascii("add")
    case Replace => Ascii("replace")
    case Append => Ascii("append")
    case Prepend => Ascii("prepend")
  }

  /** A storage command on the wire: `<name> <key> <flags> <ttl> <bytes>[ noreply]`, a line end, the payload,
      a line end. */
  lemma SetterLine(r: Request)
    requires Canonical(r) && r.Setter?
    ensures var space := Ascii(" ");
            var line := [Name(r.setter), space, r.key, space, Decimal(r.flags), space, Decimal(r.ttl), space,
              Decimal(r.bytes)];
            Encode(r) == Flat(line + (Options(r.noReply) + [Ascii("\r\n"), r.payload, Ascii("\r\n")]))
  {
    hide Decimal, EndsHere, GoodKey, Ascii, Flat, OptionsText, Options;
    Words();
    var end, space := Ascii("\r\n"), Ascii(" ");
    FlatPush2(r.payload, end, []);
    assert r.payload + (end + []) == r.payload + CRLF;
    FlatNothing();
    OptionsFlat(r.noReply, [r.payload, end] + []);
    var opts := Options(r.noReply) + ([end] + ([r.payload, end] + []));
    assert opts == Options(r.noReply) + [end, r.payload, end];
    FlatPush(Decimal(r.bytes), opts);
    var ttl := [Decimal(r.ttl), space] + ([Decimal(r.bytes)] + opts);
    FlatPush2(Decimal(r.ttl), space, [Decimal(r.bytes)] + opts);
    FlatPush2(Decimal(r.flags), space, ttl);
    var flags := [Decimal(r.flags), space] + ttl;
    FlatPush2(r.key, space, flags);
    FlatPush2(Name(r.setter), space, [r.key, space] + flags);
    assert [Name(r.setter), space] + ([r.key, space] + flags) ==
           [Name(r.setter), space, r.key, space, Decimal(r.flags), space, Decimal(r.ttl), space, Decimal(r.bytes)]
           + opts;
  }

  lemma FlatNothing()
    ensures Flat([]) == []
  {
  }

  /** Every key with a space in front of it. */
  function SpacedKeys(keys: seq<Key>): seq<seq<byte>> {
    if keys == [] then [] else SpacedKeys(keys[..|keys| - 1]) + [Ascii(" "), keys[|keys| - 1]]
  }

  /** The other requests on the wire: `get` or `gets` with a space before every key, `delete <key>[ noreply]`,
      `info` and `major_compaction`, each with a line end. */
  lemma OtherLines(r: Request)
    requires Canonical(r) && !r.Setter?
    ensures var end := [Ascii("\r\n")];
            Encode(r) == Flat(match r
              case Getter(t, keys) => [if t == Get then Ascii("get") else Ascii("gets")] + (SpacedKeys(keys) + end)
              case Deleter(key, noReply) => [Ascii("delete"), Ascii(" "), key] + (Options(noReply) + end)
              case Info => [Ascii("info")] + end
              case MajorCompaction => [Ascii("major_compaction")] + end)
  {
    hide GoodKey, Ascii, Flat, OptionsText, Options, KeysText;
    Words();
    FlatNothing();
    var end := [Ascii("\r\n")];
    FlatPush(Ascii("\r\n"), []);
    assert end + [] == end && CRLF + [] == CRLF;
    match r
    case Getter(t, keys) =>
      KeysFlat(keys);
      FlatPush(GetterText(t), SpacedKeys(keys) + end);
    case Deleter(key, noReply) =>
      OptionsFlat(noReply, []);
      var opts := Options(noReply) + end;
      FlatPush(key, opts);
      FlatPush2(DELETE, SP, [key] + opts);
      assert [DELETE, SP] + ([key] + opts) == [DELETE, SP, key] + opts;
    case Info => FlatPush(INFO, end);
    case MajorCompaction => FlatPush(MAJOR_COMPACTION, end);
  }

  lemma {:induction false} SpacedKeysFront(keys: seq<Key>)
    requires keys != []
    ensures SpacedKeys(keys) == [Ascii(" "), keys[0]] + SpacedKeys(keys[1..])
  {
    hide Ascii;
    if |keys| == 1 {
      assert keys[..0] == [] && SpacedKeys(keys[1..]) == [] && SpacedKeys(keys[..0]) == [];
    } else {
      var n := |keys| - 1;
      SpacedKeysFront(keys[..n]);
      assert keys[..n][1..] == keys[1..][..n - 1];
    }
  }

  lemma {:induction false} KeysFlat(keys: seq<Key>)
    requires keys != []
    ensures Flat(SpacedKeys(keys) + [Ascii("\r\n")]) == SP + KeysText(keys)
  {
    hide Ascii, Flat;
    Words();
    var end := [Ascii("\r\n")];
    SpacedKeysFront(keys);
    var tail := SpacedKeys(keys[1..]) + end;
    FlatPush2(Ascii(" "), keys[0], tail);
    assert SpacedKeys(keys) + end == [Ascii(" "), keys[0]] + tail;
    if |keys| == 1 {
      FlatNothing();
      FlatPush(Ascii("\r\n"), []);
      assert end + [] == end && tail == end && CRLF + [] == CRLF;
    } else {
      KeysFlat(keys[1..]);
    }
  }

  /** Numbers are in base ten, written without leading zeros. */
  lemma {:induction false} DecimalDigits(n: nat)
    ensures n > 0 ==> Decimal(n)[0] != 48
    ensures Decimal(1024) == Ascii("1024") && DecimalValue(Decimal(1024)) == 1024
  {
    if n >= 10 { DecimalDigits(n / 10); }
    assert Decimal(10) == Decimal(1) + [48] && Decimal(102) == Decimal(10) + [50];
    DecimalRoundTrip(1024);
  }

  /** Spaces are taken as far as they go, and there must be one. */
  lemma SpacesExact(i: seq<byte>)
    ensures Space(i).Ok? <==> i != [] && i[0] == ' ' as int
    ensures Space(i).Ok? ==> Space(i).value + Space(i).rest == i && NotFirst(Space(i).rest, {32}) &&
                             forall j :: 0 <= j < |Space(i).value| ==> Space(i).value[j] == ' ' as int
  {
  }

  /** A key is taken up to the first space, tab, line end or NUL; it is empty only where the input ends. */
  lemma KeyTokenExact(i: seq<byte>)
    ensures var r := IsNotOn(i, KEY_STOP);
            && (r.Ok? <==> i == [] || i[0] !in {0, 9, 10, 13, 32})
            && (r.Ok? ==> r.value + r.rest == i && (r.rest != [] ==> r.rest[0] in {0, 9, 10, 13, 32}) &&
                          forall j :: 0 <= j < |r.value| ==> r.value[j] !in {0, 9, 10, 13, 32})
  {
    assert KEY_STOP == {0, 9, 10, 13, 32};
    hide KEY_STOP;
  }

  /** A number that does not fit its integer type is rejected, and so is the absence of one. */
  lemma NumberExact(n: nat, limit: nat, i: seq<byte>)
    requires NotFirst(i, DIGITS)
    ensures Digit(limit)(Decimal(n) + i) == if n < limit then Ok(i, n) else Err
    ensures Digit(limit)(i) == Err
  {
    hide Decimal;
    SpanOf(Decimal(n), i, DIGITS, true);
    SpanOf([], i, DIGITS, true);
    assert [] + i == i;
    DecimalRoundTrip(n);
  }
}

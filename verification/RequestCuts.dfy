/** A request cut short: which of its beginnings the grammar waits on and which it
    rejects (mirdb-server/src/parser.rs, mirdb-server/src/parser_util/macros.rs). */
module RequestCuts {
  import opened Bytes
  import opened ParserCombinators
  import opened Parsers
  import opened RequestTexts

  /** Beginnings that end where the grammar needs a separator or a digit and finds the end of input. */
  predicate CutRejected(r: Request, n: nat) {
    match r
    case Getter(t, _) => t == Gets && n == |GETS|
    case Setter(t, key, flags, ttl, _, _, _) =>
      |SetterText(t)| <= n <= |SetterText(t)| + 1 + |key| + 1 + |Decimal(flags)| + 1 + |Decimal(ttl)| + 1
    case Deleter(_, _) => n == |DELETE|
    case _ => false
  }

  lemma Cut(a: seq<byte>, b: seq<byte>, m: nat)
    requires m <= |a| + |b|
    ensures (a + b)[..m] == if m <= |a| then a[..m] else a + b[..m - |a|]
  {
  }

  lemma ShortTag(t: seq<byte>, n: nat)
    requires n < |t|
    ensures Tag(t)(t[..n]).Incomplete?
  {
    CompareMeaning(t[..n], t);
  }

  lemma NothingLeft<T>(q: Parser<T>)
    ensures Space([]).Err? && SpaceThen(q)([]).Err? && Opt(Space)([]) == Ok([], None)
  {
  }

  lemma DecimalPrefix(s: seq<byte>, m: nat)
    requires m <= |s| && forall j :: 0 <= j < |s| ==> s[j] in DIGITS
    ensures DecimalValue(s[..m]) <= DecimalValue(s)
  {
    if m == |s| {
      assert s[..m] == s;
    } else {
      DecimalPrefix(s[..|s| - 1], m);
      assert s[..|s| - 1][..m] == s[..m];
    }
  }

  /** A number cut short is a smaller number. */
  lemma CutDigits(n: nat, limit: nat, m: nat)
    requires n < limit && m <= |Decimal(n)|
    ensures m == 0 ==> Digit(limit)(Decimal(n)[..m]).Err?
    ensures m > 0 ==> Digit(limit)(Decimal(n)[..m]).Ok? && Digit(limit)(Decimal(n)[..m]).rest == []
  {
    var s := Decimal(n)[..m];
    SpanOf(s, [], DIGITS, true);
    assert s + [] == s && s[..|s|] == s && s[|s|..] == [];
    DecimalPrefix(Decimal(n), m);
    DecimalRoundTrip(n);
  }

  lemma CutKey(key: Key, m: nat)
    requires GoodKey(key) && m <= |key|
    ensures IsNotOn(key[..m], KEY_STOP) == Ok([], key[..m])
  {
    var s := key[..m];
    SpanOf(s, [], KEY_STOP, false);
    assert s + [] == s && s[..|s|] == s && s[|s|..] == [];
  }

  lemma CutEnd(r: Request, m: nat)
    requires m < 2
    ensures CrlfEnd(r)(CRLF[..m]).Incomplete?
  {
    ShortTag(CRLF, m);
  }

  lemma {:induction false} CutKeys(keys: seq<Key>, res: seq<Key>, m: nat)
    requires keys != [] && (forall j :: 0 <= j < |keys| ==> GoodKey(keys[j])) && m < |KeysText(keys)|
    ensures SplitFrom(KeysText(keys)[..m], KEY_STOP, res).Ok?
    ensures SplitFrom(KeysText(keys)[..m], KEY_STOP, res).rest == [] ||
            SplitFrom(KeysText(keys)[..m], KEY_STOP, res).rest == CRLF[..1]
    decreases |keys|
  {
    hide Span, Space, IsNotOn;
    var tail := if |keys| == 1 then CRLF else SP + KeysText(keys[1..]);
    Cut(keys[0], tail, m);
    if m <= |keys[0]| {
      CutKey(keys[0], m);
      NothingLeft(Space);
    } else if |keys| == 1 {
      ReadKey(keys[0], CRLF[..1]);
      NoSpace(CRLF[..1]);
    } else {
      var k := m - |keys[0]|;
      var rest := KeysText(keys[1..])[..k - 1];
      Cut(SP, KeysText(keys[1..]), k);
      assert GoodKey(keys[1]) && KeysText(keys[1..])[0] == keys[1][0];
      assert tail[..k] == SP + rest;
      ReadKey(keys[0], SP + rest);
      OneSpace(rest);
      CutKeys(keys[1..], res + [keys[0]], k - 1);
    }
  }

  lemma CutGetter(r: Request, n: nat)
    requires Canonical(r) && r.Getter? && n < |Encode(r)|
    ensures CutRejected(r, n) ==> GetterP()(Encode(r)[..n]).Err?
    ensures !CutRejected(r, n) ==> GetterP()(Encode(r)[..n]).Incomplete?
  {
    hide TagOn, Space, SplitFrom, KeysText, CrlfEnd;
    var name, text := GetterText(r.getter), KeysText(r.keys);
    Cut(name, SP + text, n);
    if n <= 3 {
      ShortTag(GETS, n);
      assert name[..n] == GETS[..n];
    } else if n == 4 && r.getter == Gets {
      ReadTag(GETS, []);
      assert Encode(r)[..n] == GETS + [];
      NothingLeft(GetterKeys(name));
    } else {
      var m := n - |name| - 1;
      Cut(SP, text, m + 1);
      assert Encode(r)[..n] == name + (SP + text[..m]);
      ReadGetterName(r.getter, SP + text[..m]);
      KeysStart(r.keys);
      ReadSpace(GetterKeys(name), text[..m]);
      CutKeys(r.keys, [], m);
      CutGetterEnd(r, name, text[..m]);
    }
  }

  lemma KeysStart(keys: seq<Key>)
    requires keys != [] && GoodKey(keys[0])
    ensures KeysText(keys) != [] && KeysText(keys)[0] !in SPACE
  {
    assert KeysText(keys)[0] == keys[0][0];
  }

  lemma CutGetterEnd(r: Request, name: seq<byte>, x: seq<byte>)
    requires SplitFrom(x, KEY_STOP, []).Ok?
    requires SplitFrom(x, KEY_STOP, []).rest == [] || SplitFrom(x, KEY_STOP, []).rest == CRLF[..1]
    ensures GetterKeys(name)(x).Incomplete?
  {
    hide SplitFrom, CrlfEnd;
    var rest, keys := SplitFrom(x, KEY_STOP, []).rest, SplitFrom(x, KEY_STOP, []).value;
    CutEnd(Getter(ToGetterType(name), keys), |rest|);
    assert CRLF[..|rest|] == rest;
  }

  /** Cut inside the options, the command either waits or goes on to what the line end starts. */
  lemma CutOptions<T(!new)>(noReply: bool, tail: seq<byte>, f: bool -> Parser<T>, m: nat)
    requires m < |OptionsText(noReply, tail)|
    requires forall k :: 0 <= k < |CRLF + tail| ==> f(noReply)((CRLF + tail)[..k]).Incomplete?
    ensures Then(Opt(Space),
            (_: Option<seq<byte>>) => Then(Opt(Tag(NOREPLY)),
                (x: Option<seq<byte>>) => f(x.Some?)))(OptionsText(noReply, tail)[..m]).Incomplete?
  {
    hide Space, TagOn;
    var text := CRLF + tail;
    if m == 0 {
      NothingLeft(Space);
      ShortTag(NOREPLY, 0);
    } else if noReply {
      var k := m - 1;
      var rest := (NOREPLY + text)[..k];
      Cut(SP, NOREPLY + text, m);
      assert OptionsText(noReply, tail)[..m] == SP + rest;
      ReadSpace(Tag(NOREPLY), rest);
      Cut(NOREPLY, text, k);
      if k < |NOREPLY| {
        ShortTag(NOREPLY, k);
      } else {
        var x := text[..k - |NOREPLY|];
        assert rest == NOREPLY + x;
        ReadTag(NOREPLY, x);
      }
    } else {
      NoSpace(text[..m]);
      WrongTag(NOREPLY, text[..m], 0);
    }
  }

  lemma CutPayload(l: Line, noReply: bool, payload: seq<byte>, m: nat)
    requires EndsHere(payload, l.bytes) && m < |payload + CRLF|
    ensures SetterPayload(l, noReply)((payload + CRLF)[..m]).Incomplete?
  {
    hide SetterPayload;
    var i := (payload + CRLF)[..m];
    forall x | l.bytes <= x ensures !TagAt(i, CRLF, x) {
      if x + 2 <= m {
        assert i[x..x + 2] == (payload + CRLF)[x..x + 2];
        assert TagAt(i, CRLF, x) == TagAt(payload + CRLF, CRLF, x);
      }
    }
    PayloadExact(l, noReply, i, 0);
  }

  lemma CutSetterOptions(l: Line, noReply: bool, payload: seq<byte>, m: nat)
    requires EndsHere(payload, l.bytes) && m < |OptionsText(noReply, payload + CRLF)|
    ensures SetterOptions(l)(OptionsText(noReply, payload + CRLF)[..m]).Incomplete?
  {
    hide Opt, Tag, SetterPayload;
    var f := (n: bool) => CrlfThen(SetterPayload(l, n));
    var tail := payload + CRLF;
    forall k | 0 <= k < |CRLF + tail| ensures f(noReply)((CRLF + tail)[..k]).Incomplete? {
      Cut(CRLF, tail, k);
      if k < 2 {
        ShortTag(CRLF, k);
      } else {
        assert (CRLF + tail)[..k] == CRLF + tail[..k - 2];
        ReadTag(CRLF, tail[..k - 2]);
        CutPayload(l, noReply, payload, k - 2);
      }
    }
    CutOptions(noReply, tail, f, m);
  }

  lemma NoOptions(l: Line)
    ensures SetterOptions(l)([]).Incomplete?
  {
    hide Space, TagOn;
    NothingLeft(Space);
    ShortTag(NOREPLY, 0);
  }

  lemma CutBytes(name: seq<byte>, r: Request, m: nat)
    requires Canonical(r) && r.Setter? && m < |BytesText(r.bytes, r.noReply, r.payload)|
    ensures m == 0 ==> SetterBytes(name, r.key, r.flags, r.ttl)(BytesText(r.bytes, r.noReply, r.payload)[..m]).Err?
    ensures m > 0 ==>
            SetterBytes(name, r.key, r.flags, r.ttl)(BytesText(r.bytes, r.noReply, r.payload)[..m]).Incomplete?
  {
    hide Digit, SetterOptions, OptionsText, Decimal;
    var d, tail := Decimal(r.bytes), OptionsText(r.noReply, r.payload + CRLF);
    Cut(d, tail, m);
    if m <= |d| {
      CutDigits(r.bytes, TWO64, m);
      if m > 0 { NoOptions(Line(name, r.key, r.flags, r.ttl, Digit(TWO64)(d[..m]).value)); }
    } else {
      var x := tail[..m - |d|];
      OptionsStart(r.noReply, r.payload + CRLF);
      ReadDigits(r.bytes, TWO64, x);
      CutSetterOptions(Line(name, r.key, r.flags, r.ttl, r.bytes), r.noReply, r.payload, m - |d|);
    }
  }

  lemma CutTtl(name: seq<byte>, r: Request, m: nat)
    requires Canonical(r) && r.Setter? && m < |TtlText(r)|
    ensures m <= |Decimal(r.ttl)| + 1 ==> SetterTtl(name, r.key, r.flags)(TtlText(r)[..m]).Err?
    ensures m > |Decimal(r.ttl)| + 1 ==> SetterTtl(name, r.key, r.flags)(TtlText(r)[..m]).Incomplete?
  {
    hide Digit, SetterBytes, SpaceThen, Decimal, OptionsText;
    var d, tail := Decimal(r.ttl), BytesText(r.bytes, r.noReply, r.payload);
    Cut(d, SP + tail, m);
    if m <= |d| {
      CutDigits(r.ttl, TWO32, m);
      if m > 0 { NothingLeft(SetterBytes(name, r.key, r.flags, Digit(TWO32)(d[..m]).value)); }
    } else {
      var k := m - |d| - 1;
      Cut(SP, tail, k + 1);
      assert TtlText(r)[..m] == d + (SP + tail[..k]);
      ReadDigits(r.ttl, TWO32, SP + tail[..k]);
      DigitsStart(r.bytes, OptionsText(r.noReply, r.payload + CRLF));
      ReadSpace(SetterBytes(name, r.key, r.flags, r.ttl), tail[..k]);
      CutBytes(name, r, k);
    }
  }

  lemma CutFlags(name: seq<byte>, r: Request, m: nat)
    requires Canonical(r) && r.Setter? && m < |FlagsText(r)|
    ensures m <= |Decimal(r.flags)| + 1 + |Decimal(r.ttl)| + 1 ==> SetterFlags(name, r.key)(FlagsText(r)[..m]).Err?
    ensures m > |Decimal(r.flags)| + 1 + |Decimal(r.ttl)| + 1 ==>
            SetterFlags(name, r.key)(FlagsText(r)[..m]).Incomplete?
  {
    hide Digit, SetterTtl, SpaceThen, Decimal, BytesText;
    var d, tail := Decimal(r.flags), TtlText(r);
    Cut(d, SP + tail, m);
    if m <= |d| {
      CutDigits(r.flags, TWO32, m);
      if m > 0 { NothingLeft(SetterTtl(name, r.key, Digit(TWO32)(d[..m]).value)); }
    } else {
      var k := m - |d| - 1;
      Cut(SP, tail, k + 1);
      assert FlagsText(r)[..m] == d + (SP + tail[..k]);
      ReadDigits(r.flags, TWO32, SP + tail[..k]);
      DigitsStart(r.ttl, SP + BytesText(r.bytes, r.noReply, r.payload));
      ReadSpace(SetterTtl(name, r.key, r.flags), tail[..k]);
      CutTtl(name, r, k);
    }
  }

  lemma CutSetterKey(name: seq<byte>, r: Request, m: nat)
    requires Canonical(r) && r.Setter? && m < |r.key + (SP + FlagsText(r))|
    ensures m <= |r.key| + 1 + |Decimal(r.flags)| + 1 + |Decimal(r.ttl)| + 1 ==>
            SetterKey(name)((r.key + (SP + FlagsText(r)))[..m]).Err?
    ensures m > |r.key| + 1 + |Decimal(r.flags)| + 1 + |Decimal(r.ttl)| + 1 ==>
            SetterKey(name)((r.key + (SP + FlagsText(r)))[..m]).Incomplete?
  {
    hide IsNotOn, SetterFlags, SpaceThen, Decimal, FlagsText;
    Cut(r.key, SP + FlagsText(r), m);
    if m <= |r.key| {
      CutKey(r.key, m);
      NothingLeft(SetterFlags(name, r.key[..m]));
    } else {
      var k := m - |r.key| - 1;
      Cut(SP, FlagsText(r), k + 1);
      assert (r.key + (SP + FlagsText(r)))[..m] == r.key + (SP + FlagsText(r)[..k]);
      ReadKey(r.key, SP + FlagsText(r)[..k]);
      FlagsStart(r);
      ReadSpace(SetterFlags(name, r.key), FlagsText(r)[..k]);
      CutFlags(name, r, k);
    }
  }

  lemma CutSetterName(t: SetterType, n: nat)
    requires 0 < n < |SetterText(t)|
    ensures SetterName()(SetterText(t)[..n]).Incomplete?
  {
    hide TagOn;
    var s := SetterText(t)[..n];
    ShortTag(SetterText(t), n);
    if t != Set { WrongTag(SET, s, 0); }
    if t == Append && n == 1 {
      ShortTag(ADD, 1);
      assert s == ADD[..1];
    }
    if t == Append && n > 1 { WrongTag(ADD, s, 1); }
    if t == Replace || t == Prepend { WrongTag(ADD, s, 0); }
    if t == Append || t == Prepend { WrongTag(REPLACE, s, 0); }
    if t == Prepend { WrongTag(APPEND, s, 0); }
  }

  lemma CutSetter(r: Request, n: nat)
    requires Canonical(r) && r.Setter? && 0 < n < |Encode(r)|
    ensures CutRejected(r, n) ==> SetterP()(Encode(r)[..n]).Err?
    ensures !CutRejected(r, n) ==> SetterP()(Encode(r)[..n]).Incomplete?
  {
    hide SetterName, SetterKey, SpaceThen, Decimal, FlagsText;
    var name, tail := SetterText(r.setter), r.key + (SP + FlagsText(r));
    Cut(name, SP + tail, n);
    if n < |name| {
      CutSetterName(r.setter, n);
    } else if n == |name| {
      ReadSetterName(r.setter, []);
      assert name + [] == name[..n];
      NothingLeft(SetterKey(name));
    } else {
      var k := n - |name| - 1;
      Cut(SP, tail, k + 1);
      assert Encode(r)[..n] == name + (SP + tail[..k]);
      ReadSetterName(r.setter, SP + tail[..k]);
      assert tail[0] == r.key[0];
      ReadSpace(SetterKey(name), tail[..k]);
      CutSetterKey(name, r, k);
    }
  }

  lemma CutDeleterKey(r: Request, m: nat)
    requires Canonical(r) && r.Deleter? && m < |r.key + OptionsText(r.noReply, [])|
    ensures DeleterKey()((r.key + OptionsText(r.noReply, []))[..m]).Incomplete?
  {
    hide IsNotOn, Opt, OptionsText, Tag, CrlfEnd;
    var tail := OptionsText(r.noReply, []);
    var key := if m <= |r.key| then r.key[..m] else r.key;
    var f := (n: bool) => CrlfEnd(Deleter(key, n));
    Cut(r.key, tail, m);
    forall k | 0 <= k < |CRLF + []| ensures f(r.noReply)((CRLF + [])[..k]).Incomplete? {
      CutEnd(Deleter(key, r.noReply), k);
      assert (CRLF + [])[..k] == CRLF[..k];
    }
    OptionsStart(r.noReply, []);
    if m <= |r.key| {
      CutKey(r.key, m);
      CutOptions(r.noReply, [], f, 0);
      assert tail[..0] == [];
    } else {
      ReadKey(r.key, tail[..m - |r.key|]);
      CutOptions(r.noReply, [], f, m - |r.key|);
    }
  }

  lemma CutDeleter(r: Request, n: nat)
    requires Canonical(r) && r.Deleter? && n < |Encode(r)|
    ensures CutRejected(r, n) ==> DeleterP()(Encode(r)[..n]).Err?
    ensures !CutRejected(r, n) ==> DeleterP()(Encode(r)[..n]).Incomplete?
  {
    hide TagOn, SpaceThen, DeleterKey, OptionsText;
    var tail := r.key + OptionsText(r.noReply, []);
    Cut(DELETE, SP + tail, n);
    if n < |DELETE| {
      ShortTag(DELETE, n);
    } else if n == |DELETE| {
      ReadTag(DELETE, []);
      assert DELETE + [] == DELETE[..n];
      NothingLeft(DeleterKey());
    } else {
      var k := n - |DELETE| - 1;
      Cut(SP, tail, k + 1);
      assert Encode(r)[..n] == DELETE + (SP + tail[..k]);
      ReadTag(DELETE, SP + tail[..k]);
      assert tail[0] == r.key[0];
      ReadSpace(DeleterKey(), tail[..k]);
      CutDeleterKey(r, k);
    }
  }

  lemma CutPlain(name: seq<byte>, r: Request, n: nat)
    requires n < |name + CRLF|
    ensures Then(Tag(name), (_: seq<byte>) => CrlfEnd(r))((name + CRLF)[..n]).Incomplete?
  {
    hide TagOn, CrlfEnd;
    Cut(name, CRLF, n);
    if n < |name| {
      ShortTag(name, n);
    } else {
      var k := n - |name|;
      assert (name + CRLF)[..n] == name + CRLF[..k];
      ReadTag(name, CRLF[..k]);
      CutEnd(r, k);
    }
  }

  lemma NothingYet()
    ensures Parse([]).Incomplete?
  {
    hide Split, SpaceThen, SetterP, DeleterP, InfoP, MajorCompactionP;
    ShortTag(GETS, 0);
  }

  /** A request that has only partly arrived is waited for, except at the listed cuts. */
  lemma ParseCut(r: Request, n: nat)
    requires Canonical(r) && n < |Encode(r)|
    ensures CutRejected(r, n) ==> Parse(Encode(r)[..n]).Err?
    ensures !CutRejected(r, n) ==> Parse(Encode(r)[..n]).Incomplete?
  {
    hide Parse, GetterP, SetterP, DeleterP, Tag, CrlfEnd, KeysText, FlagsText;
    if n == 0 {
      NothingYet();
      assert Encode(r)[..0] == [];
    } else {
      ParseChoice(Encode(r)[..n]);
      match r {
        case Getter(_, _) => CutGetter(r, n);
        case Setter(_, _, _, _, _, _, _) => CutSetter(r, n);
        case Deleter(_, _) => CutDeleter(r, n);
        case Info => CutPlain(INFO, Info, n);
        case MajorCompaction => CutPlain(MAJOR_COMPACTION, MajorCompaction, n);
      }
    }
  }
}

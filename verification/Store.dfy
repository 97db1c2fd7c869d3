/** Requests applied to the storage engine (mirdb-server/src/store.rs and the payload operations of
    mirdb-server/src/data_manager.rs). */
module Stores {
  import opened Bytes
  import opened Runs
  import opened Tables
  import opened SstableReaders
  import opened Engine
  import opened DataManagers
  import opened ParserCombinators
  import opened Parsers
  import opened RequestTexts
  import opened Codecs

  datatype Payload = Payload(data: seq<byte>, flags: nat, ttl: nat, bytes: nat, createdAt: nat)

  predicate Expired(p: Payload, now: nat) {
    p.ttl != 0 && p.createdAt + p.ttl <= now
  }

  /** The serialisation of values; a removal is stored as the encoding of nothing. */
  datatype PayloadCodec = PayloadCodec(serialize: Option<Payload> -> Value, deserialize: Value -> Option<Payload>) {
    ghost predicate Sound() {
      forall p :: deserialize(serialize(p)) == p
    }
  }

  datatype Item = Item(key: Key, data: seq<byte>, flags: nat, bytes: nat)

  datatype Response =
    | GetItems(items: seq<Item>)
    | GetsItems(items: seq<Item>)
    | Stored
    | NotStored
    | Deleted
    | NotFound
    | BadDataChunk
    | InfoText(files: seq<seq<nat>>)
    | ErrorText
    | OkText

  // ---- the meaning of a request, on a map ----

  type Data = map<Key, Payload>

  /** The items a retrieval shows: the keys that are stored and not expired, in the order asked. */
  function Items(d: Data, keys: seq<Key>, now: nat): seq<Item> {
    if keys == [] then []
    else
      var k := keys[|keys| - 1];
      Items(d, keys[..|keys| - 1], now)
      + if k in d && !Expired(d[k], now) then [Item(k, d[k].data, d[k].flags, d[k].bytes)] else []
  }

  /** What a storage command leaves under its key, if it stores at all. */
  function Written(setter: SetterType, was: Option<Payload>, p: Payload): Option<Payload> {
    match setter
    case Set => Some(p)
    case Add => if was.None? then Some(p) else None
    case Replace => if was.None? then None else Some(p)
    case Append =>
      if was.None? then None else Some(p.(data := was.value.data + p.data, bytes := was.value.bytes + p.bytes))
    case Prepend =>
      if was.None? then None else Some(p.(data := p.data + was.value.data, bytes := was.value.bytes + p.bytes))
  }

  function Lookup(d: Data, k: Key): Option<Payload> {
    if k in d then Some(d[k]) else None
  }

  function Updated(d: Data, r: Request, now: nat): Data {
    match r
    case Setter(setter, key, flags, ttl, bytes, payload, _) =>
      var w := Written(setter, Lookup(d, key), Payload(payload, flags, ttl, bytes, now));
      if |payload| > bytes || w.None? then d else d[key := w.value]
    case Deleter(key, _) => d - {key}
    case _ => d
  }

  /** The reply, from the data alone; an info reply is left without the listing it shows. */
  function Answer(d: Data, r: Request, now: nat): Response {
    match r
    case Getter(Get, keys) => GetItems(Items(d, keys, now))
    case Getter(Gets, keys) => GetsItems(Items(d, keys, now))
    case Setter(setter, key, flags, ttl, bytes, payload, _) =>
      if |payload| > bytes then BadDataChunk
      else if Written(setter, Lookup(d, key), Payload(payload, flags, ttl, bytes, now)).None? then NotStored
      else Stored
    case Deleter(key, _) => if key in d then Deleted else NotFound
    case Info => InfoText([])
    case Error => ErrorText
    case MajorCompaction => OkText
  }

  /** A reply that is the expected one, up to the listing of an info reply. */
  predicate Shows(response: Response, answer: Response) {
    response == answer || (response.InfoText? && answer.InfoText?)
  }

  ghost predicate AllShow(responses: seq<Response>, answers: seq<Response>) {
    |responses| == |answers| && forall i :: 0 <= i < |answers| ==> Shows(responses[i], answers[i])
  }

  lemma AllShowConcat(a: seq<Response>, b: seq<Response>, c: seq<Response>, d: seq<Response>)
    requires AllShow(a, c) && AllShow(b, d)
    ensures AllShow(a + b, c + d)
  {
    hide Shows;
  }

  // ---- what the commands do ----

  /** When a storage command whose payload has the announced length stores: `set` always, `add` only a new
      key, the others only a key that is there. A refused command changes nothing; `set`, `add` and
      `replace` leave exactly the request's payload; the others extend the old data; whenever something is
      stored it carries the request's flags and time to live and the time of storing. */
  lemma StoringRules(d: Data, r: Request, now: nat)
    requires r.Setter? && |r.payload| == r.bytes
    ensures var stores := r.setter == Set || (if r.setter == Add then r.key !in d else r.key in d);
            && (Answer(d, r, now) == if stores then Stored else NotStored)
            && (!stores ==> Updated(d, r, now) == d)
            && (stores && (r.setter == Set || r.setter == Add || r.setter == Replace) ==>
                  Updated(d, r, now) == d[r.key := Payload(r.payload, r.flags, r.ttl, r.bytes, now)])
            && (stores && r.setter == Append ==>
                  Updated(d, r, now) ==
                  d[r.key := Payload(d[r.key].data + r.payload, r.flags, r.ttl, d[r.key].bytes + r.bytes, now)])
            && (stores && r.setter == Prepend ==>
                  Updated(d, r, now) ==
                  d[r.key := Payload(r.payload + d[r.key].data, r.flags, r.ttl, d[r.key].bytes + r.bytes, now)])
  {
  }

  /** The replies to the other commands, and that only storing and deleting change anything. */
  lemma ReplyRules(d: Data, r: Request, now: nat)
    ensures r.Setter? ==> (Answer(d, r, now) == BadDataChunk <==> |r.payload| > r.bytes)
    ensures r.Deleter? ==> Answer(d, r, now) == if r.key in d then Deleted else NotFound
    ensures r.Deleter? ==> forall k :: k in Updated(d, r, now) <==> k in d && k != r.key
    ensures r.Getter? && r.getter == Get ==> Answer(d, r, now).GetItems?
    ensures r.Getter? && r.getter == Gets ==> Answer(d, r, now).GetsItems?
    ensures r.Info? ==> Answer(d, r, now).InfoText?
    ensures r.Error? ==> Answer(d, r, now) == ErrorText
    ensures r.MajorCompaction? ==> Answer(d, r, now) == OkText
    ensures Updated(d, r, now) != d ==> Answer(d, r, now) == Stored || Answer(d, r, now) == Deleted
  {
  }

  /** A storage command whose payload is longer than announced is read to its line end, refused as a bad data
      chunk, and changes nothing; what follows it is read on. */
  lemma TooLongIsRefused(r: Request, rest: seq<byte>, d: Data, now: nat)
    requires Canonical(r) && r.Setter? && |r.payload| > r.bytes
    ensures Parse(Encode(r) + rest) == Ok(rest, r)
    ensures Answer(d, r, now) == BadDataChunk && Updated(d, r, now) == d
  {
    hide Parse, Encode;
    ParseFirst(r, rest);
  }

  /** A retrieval of two lists of keys shows the items of the first and then those of the second. */
  lemma {:induction false} ItemsConcat(d: Data, a: seq<Key>, b: seq<Key>, now: nat)
    ensures Items(d, a + b, now) == Items(d, a, now) + Items(d, b, now)
  {
    if b == [] {
      assert a + b == a;
    } else {
      var n := |b| - 1;
      ItemsConcat(d, a, b[..n], now);
      assert (a + b)[..|a + b| - 1] == a + b[..n];
    }
  }

  /** The keys of a request that are stored and have not expired. */
  function LiveKeys(d: Data, keys: seq<Key>, now: nat): seq<Key> {
    if keys == [] then []
    else (if keys[0] in d && !Expired(d[keys[0]], now) then [keys[0]] else []) + LiveKeys(d, keys[1..], now)
  }

  /** A retrieval shows exactly the live keys, in the order asked and as often as asked, each with what is
      stored under it. */
  lemma {:induction false} ItemsAreLive(d: Data, keys: seq<Key>, now: nat)
    ensures |Items(d, keys, now)| == |LiveKeys(d, keys, now)|
    ensures forall i :: 0 <= i < |Items(d, keys, now)| ==>
              var k := LiveKeys(d, keys, now)[i];
              k in d && Items(d, keys, now)[i] == Item(k, d[k].data, d[k].flags, d[k].bytes)
  {
    hide Expired;
    if keys != [] {
      ItemsAreLive(d, keys[1..], now);
      assert keys == [keys[0]] + keys[1..];
      ItemsConcat(d, [keys[0]], keys[1..], now);
      OneItem(d, keys[0], now);
    }
  }

  // ---- announced lengths ----

  /** Every stored payload announces its true length. */
  ghost predicate Truthful(d: Data) {
    forall k :: k in d ==> d[k].bytes == |d[k].data|
  }

  ghost predicate TruthfulAnswer(r: Response) {
    r.GetItems? || r.GetsItems? ==> forall i :: 0 <= i < |r.items| ==> r.items[i].bytes == |r.items[i].data|
  }

  lemma {:induction false} TruthfulItems(d: Data, keys: seq<Key>, now: nat)
    requires Truthful(d)
    ensures forall i :: 0 <= i < |Items(d, keys, now)| ==> Items(d, keys, now)[i].bytes == |Items(d, keys, now)[i].data|
  {
    if keys != [] { TruthfulItems(d, keys[..|keys| - 1], now); }
  }

  /** A request as it comes out of the decoder. */
  predicate Decoded(r: Request) {
    r == Error || Sound(r)
  }

  lemma StepTruthful(d: Data, r: Request, now: nat)
    requires Truthful(d) && Decoded(r)
    ensures Truthful(Updated(d, r, now)) && TruthfulAnswer(Answer(d, r, now))
  {
    if r.Getter? { TruthfulItems(d, r.keys, now); }
  }

  /** Requests and the clock at each of them. */
  datatype Call = Call(request: Request, now: nat)

  function DataAfter(d: Data, calls: seq<Call>): Data {
    if calls == [] then d
    else Updated(DataAfter(d, calls[..|calls| - 1]), calls[|calls| - 1].request, calls[|calls| - 1].now)
  }

  /** Along every run of decoded requests, whatever their order and the clock, stored lengths are true. */
  lemma {:induction false} RunTruthful(d: Data, calls: seq<Call>)
    requires Truthful(d) && forall i :: 0 <= i < |calls| ==> Decoded(calls[i].request)
    ensures Truthful(DataAfter(d, calls))
  {
    if calls != [] {
      var n := |calls| - 1;
      RunTruthful(d, calls[..n]);
      StepTruthful(DataAfter(d, calls[..n]), calls[n].request, calls[n].now);
    }
  }

  /** So the answer to any request at the end of any run from an empty store announces true lengths. */
  lemma {:induction false} EveryItemAnnouncesItsLength(calls: seq<Call>, r: Request, now: nat)
    requires Decoded(r) && forall i :: 0 <= i < |calls| ==> Decoded(calls[i].request)
    ensures TruthfulAnswer(Answer(DataAfter(map[], calls), r, now))
  {
    RunTruthful(map[], calls);
    StepTruthful(DataAfter(map[], calls), r, now);
  }

  lemma {:induction false} DrainDecoded(src: seq<byte>)
    ensures forall i :: 0 <= i < |Drain(src).requests| ==> Decoded(Drain(src).requests[i])
    decreases |src|
  {
    hide Parse, Drain, Sound;
    DrainStep(src);
    if Parse(src).Ok? {
      ParsedIsSound(src);
      DrainDecoded(Parse(src).rest);
    }
  }

  // ---- reading back what was written ----

  predicate Touches(r: Request, k: Key) {
    (r.Setter? || r.Deleter?) && r.key == k
  }

  /** Requests for other keys, retrievals, errors and compactions leave a key alone. */
  lemma {:induction false} Untouched(d: Data, calls: seq<Call>, k: Key)
    requires forall i :: 0 <= i < |calls| ==> !Touches(calls[i].request, k)
    ensures Lookup(DataAfter(d, calls), k) == Lookup(d, k)
  {
    if calls != [] { Untouched(d, calls[..|calls| - 1], k); }
  }

  /** What `set` stored is what a later `get` shows, bytes, length and flags, until it expires or the
      key is touched again; a deleted key shows nothing. */
  lemma WrittenThenRead(d: Data, r: Request, now: nat, calls: seq<Call>, k: Key, later: nat)
    requires Sound(r) && Touches(r, k) && forall i :: 0 <= i < |calls| ==> !Touches(calls[i].request, k)
    ensures var items := Items(DataAfter(Updated(d, r, now), calls), [k], later);
            && (r.Deleter? ==> items == [])
            && (r.Setter? && r.setter == Set && |r.payload| == r.bytes ==>
                  items == if r.ttl != 0 && now + r.ttl <= later then [] else [Item(k, r.payload, r.flags, r.bytes)])
            && (r.Setter? && |r.payload| != r.bytes ==> items == Items(d, [k], later))
  {
    Untouched(Updated(d, r, now), calls, k);
    OneItem(DataAfter(Updated(d, r, now), calls), k, later);
    OneItem(d, k, later);
  }

  lemma OneItem(d: Data, k: Key, now: nat)
    ensures Items(d, [k], now) ==
            if k in d && !Expired(d[k], now) then [Item(k, d[k].data, d[k].flags, d[k].bytes)] else []
  {
    assert Items(d, [k][..0], now) == [];
  }

  // ---- chains of append and prepend ----

  /** The request neither overwrites nor deletes `k`. */
  predicate Extends(r: Request, k: Key) {
    && (r.Setter? && r.key == k ==> r.setter == Append || r.setter == Prepend)
    && (r.Deleter? ==> r.key != k)
  }

  predicate Accepted(r: Request, k: Key, setter: SetterType) {
    r.Setter? && r.key == k && r.setter == setter && |r.payload| <= r.bytes
  }

  /** Everything prepended to `k`, latest first. */
  function Heads(calls: seq<Call>, k: Key): seq<byte> {
    if calls == [] then []
    else
      var r := calls[|calls| - 1].request;
      (if Accepted(r, k, Prepend) then r.payload else []) + Heads(calls[..|calls| - 1], k)
  }

  /** Everything appended to `k`, earliest first. */
  function Tails(calls: seq<Call>, k: Key): seq<byte> {
    if calls == [] then []
    else
      var r := calls[|calls| - 1].request;
      Tails(calls[..|calls| - 1], k) + if Accepted(r, k, Append) then r.payload else []
  }

  /** One more request in a chain. */
  lemma ChainStep(d: Data, r: Request, now: nat, k: Key, heads: seq<byte>, base: seq<byte>, tails: seq<byte>)
    requires Extends(r, k) && k in d && d[k].data == heads + base + tails
    ensures k in Updated(d, r, now)
    ensures Updated(d, r, now)[k].data ==
            (if Accepted(r, k, Prepend) then r.payload else []) + heads + base +
                (tails + if Accepted(r, k, Append) then r.payload else [])
  {
    if Accepted(r, k, Append) {
      assert heads + base + tails + r.payload == [] + heads + base + (tails + r.payload);
    } else if Accepted(r, k, Prepend) {
      assert r.payload + (heads + base + tails) == r.payload + heads + base + (tails + []);
    } else {
      assert heads + base + tails == [] + heads + base + (tails + []);
    }
  }

  /** Whatever else happens to other keys, extending a value keeps the original in the middle. */
  lemma {:induction false} ChainData(d: Data, calls: seq<Call>, k: Key)
    requires k in d && forall i :: 0 <= i < |calls| ==> Extends(calls[i].request, k)
    ensures k in DataAfter(d, calls) && DataAfter(d, calls)[k].data == Heads(calls, k) + d[k].data + Tails(calls, k)
  {
    hide Updated, Extends, Accepted;
    if calls == [] {
      assert [] + d[k].data + [] == d[k].data;
    } else {
      var front, last := calls[..|calls| - 1], calls[|calls| - 1];
      ChainData(d, front, k);
      ChainStep(DataAfter(d, front), last.request, last.now, k, Heads(front, k), d[k].data, Tails(front, k));
    }
  }

  // ---- the store ----

  class Store {
    const data: DataManager
    const codec: PayloadCodec

    /** Only keys the grammar accepts were ever written. */
    ghost predicate Valid()
      reads this, data, data.readers
    {
      data.Valid() && codec.Sound() && GoodKeys(data.spec)
    }

    /** The live payloads: removed keys hold the encoding of nothing. */
    ghost function Data(): Data
      reads this, data
    {
      Live(codec, data.spec)
    }

    constructor (data: DataManager, codec: PayloadCodec)
      requires data.Valid() && codec.Sound() && GoodKeys(data.spec)
      ensures Valid() && this.data == data && this.codec == codec
    {
      this.data, this.codec := data, codec;
    }

    method Get(k: Key) returns (r: Option<Payload>)
      requires Valid()
      ensures r == Lookup(Data(), k)
    {
      var v := data.Get(k);
      r := if v.Some? then codec.deserialize(v.value) else None;
    }

    method Insert(k: Key, p: Payload)
      requires Valid() && GoodKey(k)
      modifies data, data.readers
      ensures Valid() && Data() == old(Data())[k := p]
    {
      hide Inv, Next, Enabled;
      LiveWrite(codec, data.spec, k, Some(p));
      var _ := data.Insert(k, codec.serialize(Some(p)));
    }

    /** A removal is a write of nothing, made only when there is something to remove. */
    method Remove(k: Key) returns (r: Option<Payload>)
      requires Valid() && GoodKey(k)
      modifies data, data.readers
      ensures Valid() && r == Lookup(old(Data()), k) && Data() == old(Data()) - {k}
    {
      hide Inv, Next, Enabled;
      r := Get(k);
      if r.Some? {
        LiveWrite(codec, data.spec, k, None);
        var _ := data.Insert(k, codec.serialize(None));
      }
    }

    /** The live keys of the request, in order, with what is stored under them. */
    method Retrieve(keys: seq<Key>, now: nat) returns (items: seq<Item>)
      requires Valid()
      ensures items == Items(Data(), keys, now) && |items| == |LiveKeys(Data(), keys, now)|
      ensures forall i :: 0 <= i < |items| ==>
                var k := LiveKeys(Data(), keys, now)[i];
                k in Data() && items[i] == Item(k, Data()[k].data, Data()[k].flags, Data()[k].bytes)
    {
      items := [];
      var i := 0;
      while i < |keys|
        invariant 0 <= i <= |keys| && items == Items(Data(), keys[..i], now)
      {
        var p := Get(keys[i]);
        if p.Some? && !Expired(p.value, now) {
          items := items + [Item(keys[i], p.value.data, p.value.flags, p.value.bytes)];
        }
        assert keys[..i + 1][..i] == keys[..i];
        i := i + 1;
      }
      assert keys[..i] == keys;
      ItemsAreLive(Data(), keys, now);
    }

    /** A storage command whose payload is not longer than announced. */
    method Put(setter: SetterType, key: Key, sp: Payload) returns (stored: bool)
      requires Valid() && GoodKey(key)
      modifies data, data.readers
      ensures Valid()
      ensures var w := Written(setter, Lookup(old(Data()), key), sp);
              stored == w.Some? && Data() == if stored then old(Data())[key := w.value] else old(Data())
      ensures stored <==> setter == Set || (if setter == Add then key !in old(Data()) else key in old(Data()))
      ensures stored && (setter == Set || setter == Add || setter == Replace) ==> Data() == old(Data())[key := sp]
    {
      hide Inv, Next, Enabled, Live;
      match setter {
        case Set =>
          Insert(key, sp);
        case Add =>
          var v := Get(key);
          if v.Some? {
            return false;
          }
          Insert(key, sp);
        case Replace =>
          var v := Get(key);
          if v.None? {
            return false;
          }
          Insert(key, sp);
        case Append =>
          var v := Get(key);
          if v.None? {
            return false;
          }
          var c := v.value;
          c := c.(data := c.data + sp.data, ttl := sp.ttl, createdAt := sp.createdAt, bytes := c.bytes + sp.bytes,
              flags := sp.flags);
          Insert(key, c);
        case Prepend =>
          var v := Get(key);
          if v.None? {
            return false;
          }
          var c := v.value;
          c := c.(data := sp.data + c.data, ttl := sp.ttl, createdAt := sp.createdAt, bytes := c.bytes + sp.bytes,
              flags := sp.flags);
          Insert(key, c);
      }
      stored := true;
    }

    /** One request, with the clock it reads and the level a compaction would pick. */
    method Apply(request: Request, now: nat, level: nat) returns (response: Response)
      requires Valid() && Decoded(request)
      modifies data, data.readers
      ensures Valid() && Data() == Updated(old(Data()), request, now)
      ensures Shows(response, Answer(old(Data()), request, now))
      ensures request.Info? ==> response == InfoText(old(data.readers.manifest))
      ensures request.MajorCompaction? && Compactable(old(data.readers.readers), level) ==>
                Moved(old(data.readers.readers), old(data.readers.readers), data.readers.readers, level, None)
      ensures response == NotStored || response == BadDataChunk || response == NotFound ==> Data() == old(Data())
    {
      match request {
        case Getter(getter, keys) =>
          var v := Retrieve(keys, now);
          response := match getter case Get => GetItems(v) case Gets => GetsItems(v);
        case Setter(setter, key, flags, ttl, bytes, payload, _) =>
          if |payload| > bytes {
            return BadDataChunk;
          }
          var chunk := payload[..bytes];
          assert chunk == payload;
          var stored := Put(setter, key, Payload(chunk, flags, ttl, bytes, now));
          response := if stored then Stored else NotStored;
        case Deleter(key, _) =>
          var r := Remove(key);
          response := if r.Some? then Deleted else NotFound;
        case Info => response := InfoText(data.readers.manifest);
        case Error => response := ErrorText;
        case MajorCompaction =>
          Compact(level);
          response := OkText;
      }
    }

    /** Compacts a level that has tables; which one is up to the scoring. */
    method Compact(level: nat)
      requires Valid()
      modifies data, data.readers
      ensures Valid() && Data() == old(Data())
      ensures Compactable(old(data.readers.readers), level) ==>
                Moved(old(data.readers.readers), old(data.readers.readers), data.readers.readers, level, None)
    {
      hide Inv, Moved, Consistent, Next, Enabled, Live;
      ManifestShort(data.readers.maxLevel, data.readers.files, data.readers.manifest, data.readers.readers);
      if level < |data.readers.readers| && data.readers.readers[level] != [] {
        data.SizeCompaction(level, None);
      }
    }
  }

  /** The level has tables and one below it. */
  predicate Compactable(levels: seq<seq<Table>>, level: nat) {
    level + 1 < |levels| && levels[level] != []
  }

  ghost predicate GoodKeys(m: map<Key, Value>) {
    forall k :: k in m ==> GoodKey(k)
  }

  /** Along every run of decoded requests all memtables and tables are fit to be written to a file: sorted,
      without empty keys and without NUL. */
  lemma EveryRunIsWritable(store: Store, r: Run)
    requires store.Valid() && RunOf(store.data.View(), r)
    ensures Sorted(r) && NonEmptyKeys(r) && NulFree(r)
  {
    hide Inv, Sorted;
    var s, p := store.data.View(), Spec(store.data.spec, store.data.spec);
    forall i | 0 <= i < |r| ensures r[i].key != [] && 0 !in r[i].key {
      KeysWereWritten(s, p, r, r[i]);
    }
    InvRunIsOk(s, p, r);
  }

  lemma InvRunIsOk(s: State, p: Spec, r: Run)
    requires Inv(s, p) && RunOf(s, r)
    ensures Sorted(r)
  {
    hide Shape, Paired, Absorbed, Survives, Serves;
    RunIsOk(s, r);
  }

  ghost function Live(codec: PayloadCodec, m: map<Key, Value>): Data {
    map k | k in m && codec.deserialize(m[k]).Some? :: codec.deserialize(m[k]).value
  }

  /** Writing a payload or its removal, seen through the encoding. */
  lemma LiveWrite(codec: PayloadCodec, m: map<Key, Value>, k: Key, p: Option<Payload>)
    requires codec.Sound()
    ensures Live(codec, m[k := codec.serialize(p)]) ==
            if p.Some? then Live(codec, m)[k := p.value] else Live(codec, m) - {k}
  {
  }

  /** A connection and the store behind it. */
  class Server {
    const connection: Connection
    const store: Store

    constructor (store: Store)
      ensures this.store == store && fresh(connection) && connection.src == []
    {
      this.store := store;
      connection := new Connection();
    }

    /** Bytes arrive; the complete requests among them are answered in order, each on what the ones
        before it left, and the incomplete rest stays in the connection. */
    method Serve(chunk: seq<byte>, now: nat, level: nat) returns (responses: seq<Response>)
      requires store.Valid() && Truthful(store.Data())
      modifies connection, store.data, store.data.readers
      ensures store.Valid() && Truthful(store.Data())
      ensures connection.src == Drain(old(connection.src) + chunk).left
      ensures var calls := Calls(Drain(old(connection.src) + chunk).requests, now);
              store.Data() == DataAfter(old(store.Data()), calls) &&
                  AllShow(responses, Answers(old(store.Data()), calls))
      ensures forall i :: 0 <= i < |responses| ==> TruthfulAnswer(responses[i])
    {
      hide Drain, Truthful, TruthfulAnswer, Answer, Updated, Shows, AllShow, Answers, DataAfter, Inv, Decoded;
      NoCalls(store.Data());
      DrainDecoded(connection.src + chunk);
      var requests := connection.Receive(chunk);
      responses := [];
      var i := 0;
      ghost var start := store.Data();
      while i < |requests|
        modifies store.data, store.data.readers
        invariant 0 <= i == |responses| <= |requests| && store.Valid() && Truthful(store.Data())
        invariant store.Data() == DataAfter(start, Calls(requests[..i], now))
        invariant AllShow(responses, Answers(start, Calls(requests[..i], now)))
        invariant forall j :: 0 <= j < i ==> TruthfulAnswer(responses[j])
      {
        ghost var d := store.Data();
        StepTruthful(d, requests[i], now);
        var r := store.Apply(requests[i], now, level);
        ShownTruthful(r, Answer(d, requests[i], now));
        AnswerPush(start, requests, i, now, responses, r);
        responses := responses + [r];
        i := i + 1;
      }
      assert requests[..i] == requests;
    }

    /** A whole session: chunks arrive one after the other, each with the clock at its arrival. */
    method ServeAll(chunks: seq<seq<byte>>, nows: seq<nat>, levels: seq<nat>) returns (responses: seq<Response>)
      requires store.Valid() && Truthful(store.Data()) && |nows| == |levels| == |chunks|
      modifies connection, store.data, store.data.readers
      ensures store.Valid() && Truthful(store.Data())
      ensures connection.src == Session(old(connection.src), chunks).left
      ensures var calls := SessionCalls(old(connection.src), chunks, nows);
              store.Data() == DataAfter(old(store.Data()), calls) &&
                  AllShow(responses, Answers(old(store.Data()), calls))
    {
      hide Drain, Truthful, Answers, DataAfter, Inv;
      ghost var src, start := connection.src, store.Data();
      ghost var done: seq<Call> := [];
      responses := [];
      NoCalls(start);
      var i := 0;
      while i < |chunks|
        modifies connection, store.data, store.data.readers
        invariant 0 <= i <= |chunks| && store.Valid() && Truthful(store.Data())
        invariant SessionCalls(src, chunks, nows) == done + SessionCalls(connection.src, chunks[i..], nows[i..])
        invariant Session(src, chunks).left == Session(connection.src, chunks[i..]).left
        invariant store.Data() == DataAfter(start, done) && AllShow(responses, Answers(start, done))
      {
        ghost var calls := Calls(Drain(connection.src + chunks[i]).requests, nows[i]);
        SessionStep(connection.src, chunks, nows, i);
        RunConcat(start, done, calls);
        ConcatCalls(done, calls, SessionCalls(Drain(connection.src + chunks[i]).left, chunks[i + 1..], nows[i + 1..]));
        ghost var answers, before := Answers(start, done), responses;
        var rs := Serve(chunks[i], nows[i], levels[i]);
        AllShowConcat(before, rs, answers, Answers(DataAfter(start, done), calls));
        responses := responses + rs;
        done := done + calls;
        i := i + 1;
      }
      assert done + [] == done;
    }
  }

  function Calls(requests: seq<Request>, now: nat): (cs: seq<Call>)
    ensures |cs| == |requests| && forall i :: 0 <= i < |cs| ==> cs[i] == Call(requests[i], now)
  {
    seq(|requests|, i requires 0 <= i < |requests| => Call(requests[i], now))
  }

  lemma CallsPush(requests: seq<Request>, i: nat, now: nat)
    requires i < |requests|
    ensures var cs := Calls(requests[..i + 1], now);
            cs != [] && cs[..|cs| - 1] == Calls(requests[..i], now) && cs[|cs| - 1] == Call(requests[i], now)
  {
  }

  /** The answers to a list of calls, each on the data the earlier ones left. */
  function Answers(d: Data, calls: seq<Call>): (rs: seq<Response>)
    ensures |rs| == |calls|
  {
    if calls == [] then []
    else
      var n := |calls| - 1;
      Answers(d, calls[..n]) + [Answer(DataAfter(d, calls[..n]), calls[n].request, calls[n].now)]
  }

  lemma NoCalls(d: Data)
    ensures DataAfter(d, []) == d && Answers(d, []) == [] && AllShow([], [])
  {
  }

  /** One more request answered. */
  lemma AnswerPush(d: Data, requests: seq<Request>, i: nat, now: nat, responses: seq<Response>, r: Response)
    requires i < |requests| && AllShow(responses, Answers(d, Calls(requests[..i], now)))
    requires Shows(r, Answer(DataAfter(d, Calls(requests[..i], now)), requests[i], now))
    ensures AllShow(responses + [r], Answers(d, Calls(requests[..i + 1], now)))
    ensures DataAfter(d, Calls(requests[..i + 1], now)) ==
            Updated(DataAfter(d, Calls(requests[..i], now)), requests[i], now)
  {
    hide Shows, Answer, Updated;
    CallsPush(requests, i, now);
  }

  lemma ShownTruthful(r: Response, answer: Response)
    requires Shows(r, answer) && TruthfulAnswer(answer)
    ensures TruthfulAnswer(r)
  {
  }

  /** Answer `i` is the answer of call `i` on what the calls before it left. */
  lemma {:induction false} AnswersAt(d: Data, calls: seq<Call>, i: nat)
    requires i < |calls|
    ensures Answers(d, calls)[i] == Answer(DataAfter(d, calls[..i]), calls[i].request, calls[i].now)
  {
    hide Answer, DataAfter;
    var n := |calls| - 1;
    if i < n {
      AnswersAt(d, calls[..n], i);
      assert calls[..n][..i] == calls[..i];
    }
  }

  lemma {:induction false} RunConcat(d: Data, a: seq<Call>, b: seq<Call>)
    ensures DataAfter(d, a + b) == DataAfter(DataAfter(d, a), b)
    ensures Answers(d, a + b) == Answers(d, a) + Answers(DataAfter(d, a), b)
  {
    hide Answer, Updated;
    if b == [] {
      assert a + b == a;
    } else {
      var n := |b| - 1;
      RunConcat(d, a, b[..n]);
      assert (a + b)[..|a + b| - 1] == a + b[..n];
    }
  }

  lemma ConcatCalls(a: seq<Call>, b: seq<Call>, c: seq<Call>)
    ensures a + (b + c) == a + b + c
  {
  }

  /** The calls of a session: the requests each chunk completes, at that chunk's time. */
  function SessionCalls(buffer: seq<byte>, chunks: seq<seq<byte>>, nows: seq<nat>): seq<Call>
    requires |nows| == |chunks|
    decreases |chunks|
  {
    hide Drain;
    if chunks == [] then []
    else
      var now := Drain(buffer + chunks[0]);
      Calls(now.requests, nows[0]) + SessionCalls(now.left, chunks[1..], nows[1..])
  }

  lemma SessionStep(buffer: seq<byte>, chunks: seq<seq<byte>>, nows: seq<nat>, i: nat)
    requires i < |chunks| == |nows|
    ensures var now := Drain(buffer + chunks[i]);
            && SessionCalls(buffer, chunks[i..], nows[i..]) ==
                Calls(now.requests, nows[i]) + SessionCalls(now.left, chunks[i + 1..], nows[i + 1..])
            && Session(buffer, chunks[i..]).left == Session(now.left, chunks[i + 1..]).left
  {
    hide Drain;
    assert chunks[i..][1..] == chunks[i + 1..] && nows[i..][1..] == nows[i + 1..];
  }

  lemma {:induction false} SessionRequests(buffer: seq<byte>, chunks: seq<seq<byte>>, nows: seq<nat>)
    requires |nows| == |chunks|
    ensures |SessionCalls(buffer, chunks, nows)| == |Session(buffer, chunks).requests|
    ensures forall i :: 0 <= i < |SessionCalls(buffer, chunks, nows)| ==>
              SessionCalls(buffer, chunks, nows)[i].request == Session(buffer, chunks).requests[i]
    decreases |chunks|
  {
    hide Drain;
    if chunks != [] { SessionRequests(Drain(buffer + chunks[0]).left, chunks[1..], nows[1..]); }
  }

  /** The calls are these requests, and each is answered on what the earlier ones left. */
  ghost predicate InTurn(d: Data, calls: seq<Call>, rs: seq<Request>) {
    && |calls| == |rs|
    && forall i :: 0 <= i < |rs| ==>
         && calls[i].request == rs[i]
         && Answers(d, calls)[i] == Answer(DataAfter(d, calls[..i]), rs[i], calls[i].now)
  }

  /** However a client's requests are cut into chunks, as long as no cut is a rejecting one, a session on
      a new connection answers exactly those requests, in order. */
  lemma ServedAsWritten(rs: seq<Request>, chunks: seq<seq<byte>>, nows: seq<nat>, d: Data)
    requires AllCanonical(rs) && Joined(chunks) == EncodeAll(rs) && !CutsBadly(rs, 0, chunks) && |nows| == |chunks|
    ensures InTurn(d, SessionCalls([], chunks, nows), rs)
  {
    hide Session, SessionCalls, EncodeAll, CutsBadly, Answers, Answer, DataAfter;
    ChunkedDecoding(rs, chunks);
    SessionRequests([], chunks, nows);
    var calls := SessionCalls([], chunks, nows);
    forall i | 0 <= i < |rs|
      ensures Answers(d, calls)[i] == Answer(DataAfter(d, calls[..i]), rs[i], calls[i].now)
    {
      AnswersAt(d, calls, i);
    }
  }
}

/** The connection decoder (mirdb-server/src/proto.rs) fed by a stream that arrives in
    chunks of any size. */
module Codecs {
  import opened Bytes
  import opened Parsers
  import opened RequestTexts
  import opened RequestCuts

  /** The requests taken from a buffer, what stays in it, and whether input was thrown away. */
  datatype Drained = Drained(requests: seq<Request>, left: seq<byte>, rejected: bool)

  function Drain(src: seq<byte>): (d: Drained)
    ensures d.rejected ==> Error in d.requests
    ensures |d.left| <= |src|
    decreases |src|
  {
    match Parse(src)
    case Incomplete(_) => Drained([], src, false)
    case Err => Drained([Error], [], true)
    case Ok(rest, r) =>
      ParseStable(src, []);
      var d := Drain(rest);
      Drained([r] + d.requests, d.left, d.rejected)
  }

  /** Everything that comes out of a connection while the chunks arrive one by one. */
  function Session(buffer: seq<byte>, chunks: seq<seq<byte>>): Drained
    decreases |chunks|
  {
    if chunks == [] then Drained([], buffer, false)
    else
      var now := Drain(buffer + chunks[0]);
      var later := Session(now.left, chunks[1..]);
      Drained(now.requests + later.requests, later.left, now.rejected || later.rejected)
  }

  class Connection {
    var src: seq<byte>

    constructor ()
      ensures src == []
    {
      src := [];
    }

    /** One request from the front of the buffer, if a whole one is there. */
    method Decode() returns (r: Option<Request>)
      modifies this
      ensures Parse(old(src)).Ok? ==>
              r == Some(Parse(old(src)).value) && src == Parse(old(src)).rest && |src| < |old(src)|
      ensures Parse(old(src)).Err? ==> r == Some(Error) && src == [] && old(src) != []
      ensures Parse(old(src)).Incomplete? ==> r == None && src == old(src)
    {
      var srcLen := |src|;
      var used := 0;
      match Parse(src) {
        case Ok(remaining, req) =>
          ParseStable(src, []);
          r, used := Some(req), srcLen - |remaining|;
        case Err =>
          NothingYet();
          r, used := Some(Error), srcLen;
        case Incomplete(_) =>
          r := None;
      }
      src := src[used..];
    }

    /** The transport appends what arrived and decodes until the codec wants more. */
    method Receive(chunk: seq<byte>) returns (requests: seq<Request>)
      modifies this
      ensures requests == Drain(old(src) + chunk).requests && src == Drain(old(src) + chunk).left
    {
      hide Parse, Drain;
      src := src + chunk;
      requests := [];
      ghost var all := Drain(src);
      ghost var gone := false;
      while true
        invariant !gone ==> all.requests == requests + Drain(src).requests && all.left == Drain(src).left
        invariant gone ==> src == [] && all.requests == requests && all.left == []
        decreases |src|
      {
        DrainStep(src);
        ghost var tail := Drain(src).requests;
        gone := gone || Parse(src).Err?;
        NothingYet();
        var r := Decode();
        if r.None? { break; }
        assert tail == [r.value] + tail[1..];
        requests := requests + [r.value];
      }
    }
  }

  lemma {:induction false} RejectionShows(buffer: seq<byte>, chunks: seq<seq<byte>>)
    requires Session(buffer, chunks).rejected
    ensures Error in Session(buffer, chunks).requests
    decreases |chunks|
  {
    hide Drain;
    var now := Drain(buffer + chunks[0]);
    if !now.rejected { RejectionShows(now.left, chunks[1..]); }
  }

  // ---- one buffer, several requests ----

  predicate AllCanonical(rs: seq<Request>) {
    forall j :: 0 <= j < |rs| ==> Canonical(rs[j])
  }

  function EncodeAll(rs: seq<Request>): seq<byte>
    requires AllCanonical(rs)
  {
    if rs == [] then [] else Encode(rs[0]) + EncodeAll(rs[1..])
  }

  /** Requests written one after the other come out as written; what follows them is untouched. */
  lemma {:induction false} DrainEncoded(rs: seq<Request>, tail: seq<byte>)
    requires AllCanonical(rs)
    ensures Drain(EncodeAll(rs) + tail) == Drained(rs + Drain(tail).requests, Drain(tail).left, Drain(tail).rejected)
  {
    hide Parse, Encode;
    if rs == [] {
      assert EncodeAll(rs) + tail == tail && rs + Drain(tail).requests == Drain(tail).requests;
    } else {
      var rest := EncodeAll(rs[1..]) + tail;
      assert EncodeAll(rs) + tail == Encode(rs[0]) + rest;
      ParseFirst(rs[0], rest);
      DrainEncoded(rs[1..], tail);
      assert [rs[0]] + (rs[1..] + Drain(tail).requests) == rs + Drain(tail).requests;
    }
  }

  /** One step of `Drain`. */
  lemma DrainStep(src: seq<byte>)
    ensures Parse(src).Incomplete? ==> Drain(src) == Drained([], src, false)
    ensures Parse(src).Err? ==> Drain(src) == Drained([Error], [], true)
    ensures Parse(src).Ok? ==>
              var d := Drain(Parse(src).rest);
              |Parse(src).rest| < |src| && Drain(src) == Drained([Parse(src).value] + d.requests, d.left, d.rejected)
  {
    hide Parse;
    if Parse(src).Ok? { ParseStable(src, []); }
  }

  /** As long as nothing was thrown away, it does not matter where the stream was cut. */
  lemma {:induction false} DrainSplit(a: seq<byte>, b: seq<byte>)
    requires !Drain(a).rejected
    ensures var d := Drain(Drain(a).left + b);
            Drain(a + b) == Drained(Drain(a).requests + d.requests, d.left, d.rejected)
    decreases |a|
  {
    hide Parse, Drain;
    DrainStep(a);
    if Parse(a).Ok? {
      ParseStable(a, b);
      DrainStep(a + b);
      var rest := Parse(a).rest;
      DrainSplit(rest, b);
      var d := Drain(Drain(rest).left + b);
      assert [Parse(a).value] + (Drain(rest).requests + d.requests) == Drain(a).requests + d.requests;
    } else {
      var d := Drain(a + b);
      assert [] + d.requests == d.requests;
    }
  }

  // ---- where a stream may be cut ----

  /** A chunk that ends `n` bytes into the stream ends at a rejecting place. */
  predicate RejectedAt(rs: seq<Request>, n: nat)
    requires AllCanonical(rs)
  {
    rs != [] &&
    if n < |Encode(rs[0])| then CutRejected(rs[0], n) else RejectedAt(rs[1..], n - |Encode(rs[0])|)
  }

  predicate CutsBadly(rs: seq<Request>, at: nat, chunks: seq<seq<byte>>)
    requires AllCanonical(rs)
    decreases |chunks|
  {
    chunks != [] && (RejectedAt(rs, at + |chunks[0]|) || CutsBadly(rs, at + |chunks[0]|, chunks[1..]))
  }

  function Joined(chunks: seq<seq<byte>>): seq<byte> {
    if chunks == [] then [] else chunks[0] + Joined(chunks[1..])
  }

  lemma {:induction false} DrainPrefix(rs: seq<Request>, n: nat)
    requires AllCanonical(rs) && n <= |EncodeAll(rs)|
    ensures Drain(EncodeAll(rs)[..n]).rejected <==> RejectedAt(rs, n)
    ensures !RejectedAt(rs, |EncodeAll(rs)|)
  {
    hide Parse, Encode, CutRejected;
    if rs == [] {
      NothingYet();
      assert EncodeAll(rs)[..n] == [];
    } else {
      var first, tail := Encode(rs[0]), EncodeAll(rs[1..]);
      Cut(first, tail, n);
      if n < |first| {
        ParseCut(rs[0], n);
        DrainPrefix(rs[1..], 0);
      } else {
        var k := n - |first|;
        assert EncodeAll(rs)[..n] == first + tail[..k];
        ParseFirst(rs[0], tail[..k]);
        DrainPrefix(rs[1..], k);
      }
    }
  }

  lemma {:induction false} SessionFrom(rs: seq<Request>, a: seq<byte>, chunks: seq<seq<byte>>)
    requires AllCanonical(rs) && a + Joined(chunks) == EncodeAll(rs) && !Drain(a).rejected
    ensures Session(Drain(a).left, chunks).rejected <==> CutsBadly(rs, |a|, chunks)
    ensures !CutsBadly(rs, |a|, chunks) ==>
              Drain(EncodeAll(rs)).requests == Drain(a).requests + Session(Drain(a).left, chunks).requests
              && Drain(EncodeAll(rs)).left == Session(Drain(a).left, chunks).left
    decreases |chunks|
  {
    hide Drain, RejectedAt, Encode, Parse;
    if chunks == [] {
      assert a == EncodeAll(rs);
      assert Drain(a).requests + [] == Drain(a).requests;
    } else {
      var next := a + chunks[0];
      assert next + Joined(chunks[1..]) == EncodeAll(rs);
      assert EncodeAll(rs)[..|next|] == next;
      DrainPrefix(rs, |next|);
      DrainSplit(a, chunks[0]);
      if !RejectedAt(rs, |next|) {
        SessionFrom(rs, next, chunks[1..]);
        var now := Drain(Drain(a).left + chunks[0]);
        var later := Session(now.left, chunks[1..]);
        assert (Drain(a).requests + now.requests) + later.requests ==
            Drain(a).requests + (now.requests + later.requests);
      }
    }
  }

  /** However the text of some requests is cut into chunks, the connection yields exactly
      those requests and keeps no bytes back, unless a chunk ends at a rejecting place; then
      it reports an error, which no client ever wrote. */
  lemma ChunkedDecoding(rs: seq<Request>, chunks: seq<seq<byte>>)
    requires AllCanonical(rs) && Joined(chunks) == EncodeAll(rs)
    ensures !CutsBadly(rs, 0, chunks) <==> Session([], chunks).requests == rs
    ensures !CutsBadly(rs, 0, chunks) ==> Session([], chunks).left == []
    ensures CutsBadly(rs, 0, chunks) ==> Error in Session([], chunks).requests
  {
    hide RejectedAt, Session, CutsBadly, Encode, Parse;
    NothingYet();
    var none := Drain([]);
    assert none == Drained([], [], false);
    assert [] + Joined(chunks) == EncodeAll(rs);
    SessionFrom(rs, [], chunks);
    DrainEncoded(rs, []);
    assert EncodeAll(rs) + [] == EncodeAll(rs) && rs + [] == rs;
    if CutsBadly(rs, 0, chunks) { RejectionShows([], chunks); }
    var s := Session([], chunks).requests;
    assert [] + s == s;
  }
}

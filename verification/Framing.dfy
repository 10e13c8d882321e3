/**
 The byte stream between the edge and the worker: length-prefixed frames over a stream that
 arrives in chunks of any size, and the worker's loop over two-frame requests. A request is only
 ever decoded at a request boundary.
 */
module Framing {
  import opened Wrappers
  import opened Bytes

  const LEN_PREFIX: nat := 4
  const MAX_FRAME_BYTES: nat := 16 * 1024 * 1024

  /** What a frame can carry. */
  type FrameBytes = s: seq<byte> | |s| <= MAX_FRAME_BYTES

  function Encode(data: FrameBytes): seq<byte> {
    Write32(false, |data|) + data
  }

  function EncodeAll(frames: seq<FrameBytes>): seq<byte> {
    if frames == [] then [] else Encode(frames[0]) + EncodeAll(frames[1..])
  }

  // ---------- reading ----------

  /** `IncompleteReadError`, `ValueError`, or a frame. */
  datatype ReadResult = Frame(data: FrameBytes) | Incomplete | TooLarge

  function Flatten(chunks: seq<seq<byte>>): seq<byte> {
    if chunks == [] then [] else chunks[0] + Flatten(chunks[1..])
  }

  /** What `read_frame` makes of the bytes that are still to come before end of file. */
  function ReadFrom(stream: seq<byte>): ReadResult {
    if |stream| < LEN_PREFIX then Incomplete
    else
      var size := Read32(false, stream[0], stream[1], stream[2], stream[3]);
      if size > MAX_FRAME_BYTES then TooLarge
      else if |stream| < LEN_PREFIX + size then Incomplete
      else Frame(stream[LEN_PREFIX..LEN_PREFIX + size])
  }

  /** The length in front of a stream. */
  function Announced(s: seq<byte>): int
    requires |s| >= 4
  {
    BigEndian32(s[0], s[1], s[2], s[3])
  }

  /** The four bytes decide what is read: a frame of that many bytes, or an error. */
  lemma ReadLayout(stream: seq<byte>)
    ensures ReadFrom(stream).TooLarge? <==> |stream| >= 4 && Announced(stream) > 16_777_216
    ensures ReadFrom(stream).Frame? <==>
      |stream| >= 4 && Announced(stream) <= 16_777_216 && 4 + Announced(stream) <= |stream|
    ensures ReadFrom(stream).Frame? ==> ReadFrom(stream).data == stream[4..4 + Announced(stream)]
  {
  }

  /** `asyncio.StreamReader`: what has arrived and is not read yet, and the chunks still to arrive. */
  class StreamReader {
    var buffer: seq<byte>
    var incoming: seq<seq<byte>>

    ghost function Stream(): seq<byte>
      reads this
    {
      buffer + Flatten(incoming)
    }

    constructor (chunks: seq<seq<byte>>)
      ensures Stream() == Flatten(chunks)
    {
      buffer, incoming := [], chunks;
    }

    /** `readexactly`: waits for chunks until there are `n` bytes; None is `IncompleteReadError`. */
    method ReadExactly(n: nat) returns (r: Option<seq<byte>>)
      modifies this
      ensures n <= |old(Stream())| ==> r == Some(old(Stream())[..n]) && Stream() == old(Stream())[n..]
      ensures n > |old(Stream())| ==> r == None && Stream() == []
    {
      while |buffer| < n && incoming != []
        invariant Stream() == old(Stream())
        decreases |incoming|
      {
        buffer, incoming := buffer + incoming[0], incoming[1..];
      }
      ghost var before := Stream();
      if |buffer| < n {
        buffer := [];
        return None;
      }
      r := Some(buffer[..n]);
      assert buffer[..n] == before[..n];
      buffer := buffer[n..];
      assert Stream() == before[n..];
    }

    method ReadFrame() returns (r: ReadResult)
      modifies this
      ensures r == ReadFrom(old(Stream()))
      ensures var s := old(Stream());
        && (r.TooLarge? <==> |s| >= 4 && Announced(s) > 16_777_216)
        && (r.Frame? <==> |s| >= 4 && Announced(s) <= 16_777_216 && 4 + Announced(s) <= |s|)
        && (r.Frame? ==> r.data == s[4..4 + Announced(s)])
      ensures r.Frame? ==> LEN_PREFIX + |r.data| <= |old(Stream())|
      ensures r.Frame? ==> Stream() == old(Stream())[LEN_PREFIX + |r.data|..]
    {
      ghost var stream := Stream();
      ReadLayout(stream);
      var header := ReadExactly(LEN_PREFIX);
      if header.None? { return Incomplete; }
      var b := header.value;
      var size := Read32(false, b[0], b[1], b[2], b[3]);
      if size > MAX_FRAME_BYTES { return TooLarge; }
      if size == 0 { return Frame([]); }
      var data := ReadExactly(size);
      if data.None? { return Incomplete; }
      assert stream[LEN_PREFIX..][..size] == stream[LEN_PREFIX..LEN_PREFIX + size];
      assert stream[LEN_PREFIX..][size..] == stream[LEN_PREFIX + size..];
      return Frame(data.value);
    }
  }

  // ---------- writing ----------

  /** `ConnectionError`, `ValueError`, or done. */
  datatype WriteResult = Written | Closing | Oversized

  /** `asyncio.StreamWriter`; `accepts` is how many more frames the transport takes before it closes. */
  class StreamWriter {
    var sent: seq<byte>
    var accepts: nat

    constructor (accepts: nat)
      ensures sent == [] && this.accepts == accepts
    {
      sent, this.accepts := [], accepts;
    }

    method WriteFrame(data: seq<byte>) returns (r: WriteResult)
      modifies this
      ensures r.Written? <==> old(accepts) > 0 && |data| <= MAX_FRAME_BYTES
      ensures r.Closing? <==> old(accepts) == 0
      ensures r.Written? ==> sent == old(sent) + Encode(data) && accepts == old(accepts) - 1
      ensures !r.Written? ==> sent == old(sent) && accepts == old(accepts)
    {
      if accepts == 0 { return Closing; }
      if |data| > MAX_FRAME_BYTES { return Oversized; }
      sent := sent + Write32(false, |data|);
      sent := sent + data;
      accepts := accepts - 1;
      assert sent == old(sent) + Encode(data);
      return Written;
    }
  }

  // ---------- the round trip ----------

  lemma FrameReadBack(data: FrameBytes, rest: seq<byte>)
    ensures ReadFrom(Encode(data) + rest) == Frame(data)
    ensures (Encode(data) + rest)[LEN_PREFIX + |data|..] == rest
  {
    var prefix := Write32(false, |data|);
    var s := Encode(data) + rest;
    assert s[0] == prefix[0] && s[1] == prefix[1] && s[2] == prefix[2] && s[3] == prefix[3];
    assert s[LEN_PREFIX..LEN_PREFIX + |data|] == data;
  }

  /** A frame on the wire: its length in four bytes, the most significant first, and its data. */
  lemma EncodeLayout(data: FrameBytes)
    ensures |Encode(data)| == 4 + |data| && Announced(Encode(data)) == |data| && Encode(data)[4..] == data
  {
  }

  /** A frame cut short reads as incomplete, never as another frame. */
  lemma CutFrame(data: FrameBytes, n: nat)
    requires n < |Encode(data)|
    ensures ReadFrom(Encode(data)[..n]) == Incomplete
  {
    var prefix := Write32(false, |data|);
    var s := Encode(data);
    assert s[0] == prefix[0] && s[1] == prefix[1] && s[2] == prefix[2] && s[3] == prefix[3];
  }

  /** Iterating `read_frame` until it fails. */
  function ReadAll(stream: seq<byte>): seq<FrameBytes>
    decreases |stream|
  {
    match ReadFrom(stream)
    case Frame(data) => [data] + ReadAll(stream[LEN_PREFIX + |data|..])
    case _ => []
  }

  lemma ReadAllStep(data: FrameBytes, rest: seq<byte>)
    ensures ReadAll(Encode(data) + rest) == [data] + ReadAll(rest)
  {
    hide ReadFrom, Encode;
    FrameReadBack(data, rest);
  }

  lemma ReadAllCut(data: FrameBytes, n: nat)
    requires n < |Encode(data)|
    ensures ReadAll(Encode(data)[..n]) == []
  {
    hide ReadFrom, Encode;
    CutFrame(data, n);
  }

  /** Main result: the frames written are the frames read, empty ones included; of a cut stream, a prefix. */
  lemma {:induction false} ReadAllInverts(frames: seq<FrameBytes>, n: nat)
    requires n <= |EncodeAll(frames)|
    ensures ReadAll(EncodeAll(frames)) == frames
    ensures ReadAll(EncodeAll(frames)[..n]) <= frames
    decreases |frames|
  {
    hide ReadAll, Encode;
    if frames == [] {
      NothingToRead();
      assert EncodeAll(frames)[..n] == [];
    } else {
      var first, rest := Encode(frames[0]), EncodeAll(frames[1..]);
      ReadAllStep(frames[0], rest);
      if n < |first| {
        assert (first + rest)[..n] == first[..n];
        ReadAllCut(frames[0], n);
        ReadAllInverts(frames[1..], 0);
      } else {
        assert (first + rest)[..n] == first + rest[..n - |first|];
        ReadAllStep(frames[0], rest[..n - |first|]);
        ReadAllInverts(frames[1..], n - |first|);
      }
    }
  }

  lemma NothingToRead()
    ensures ReadAll([]) == []
  {
  }

  // ---------- two-frame requests ----------

  datatype Request = Request(header: FrameBytes, payload: FrameBytes)

  /** Frames taken two at a time: a request begins only where the last one ended. */
  function Pairs(frames: seq<FrameBytes>): seq<Request> {
    if |frames| < 2 then [] else [Request(frames[0], frames[1])] + Pairs(frames[2..])
  }

  function Frames(requests: seq<Request>): seq<FrameBytes> {
    if requests == [] then [] else [requests[0].header, requests[0].payload] + Frames(requests[1..])
  }

  lemma {:induction false} PairsInvert(requests: seq<Request>, frames: seq<FrameBytes>)
    requires frames <= Frames(requests)
    ensures Pairs(Frames(requests)) == requests && Pairs(frames) <= requests
    decreases |requests|
  {
    if requests != [] {
      assert Frames(requests)[2..] == Frames(requests[1..]);
      if |frames| >= 2 {
        PairsInvert(requests[1..], frames[2..]);
      } else {
        PairsInvert(requests[1..], []);
      }
    }
  }

  /** Main result: whatever the stream is cut at, the requests decoded are a prefix of those sent. */
  lemma RequestsStayInStep(requests: seq<Request>, n: nat)
    requires n <= |EncodeAll(Frames(requests))|
    ensures Pairs(ReadAll(EncodeAll(Frames(requests)))) == requests
    ensures Pairs(ReadAll(EncodeAll(Frames(requests))[..n])) <= requests
  {
    ReadAllInverts(Frames(requests), n);
    PairsInvert(requests, ReadAll(EncodeAll(Frames(requests))[..n]));
  }

  /** What serving a request comes to: a reply, or a last reply before the process exits. */
  datatype Served = Answered(reply: seq<byte>) | Exits(last: FrameBytes)

  /**
   The parts of the worker that this module does not look into: the header parser, the replies to a
   header that does not parse and to a served request, and the reply when that one is too large.
   What is served may depend on how many requests the connection has served before, since the engine
   need not answer the same request twice in the same way.
   */
  datatype Service<!H> = Service(
    parse: seq<byte> -> Option<H>,
    badHeader: seq<byte> -> FrameBytes,
    serve: (nat, H, FrameBytes) -> Served,
    fault: H -> FrameBytes)
  {
    function Reply(k: nat, request: Request): FrameBytes {
      match parse(request.header)
      case None => badHeader(request.header)
      case Some(header) =>
        match serve(k, header, request.payload)
        case Answered(reply) => if |reply| > MAX_FRAME_BYTES then fault(header) else reply
        case Exits(last) => last
    }

    /** The `k`-th request ends the process. */
    predicate IsLast(k: nat, request: Request) {
      var header := parse(request.header);
      header.Some? && serve(k, header.value, request.payload).Exits?
    }

    function Replies(requests: seq<Request>): (replies: seq<FrameBytes>)
      ensures |replies| == |requests| && forall k | 0 <= k < |requests| :: replies[k] == Reply(k, requests[k])
    {
      seq(|requests|, k requires 0 <= k < |requests| => Reply(k, requests[k]))
    }

    /** How many requests the process lives to answer, the `k` first ones answered already. */
    function Lifetime(requests: seq<Request>, k: nat): (n: nat)
      requires k <= |requests|
      ensures k <= n <= |requests|
      decreases |requests| - k
    {
      if k == |requests| then k
      else if IsLast(k, requests[k]) then k + 1
      else Lifetime(requests, k + 1)
    }
  }

  /**
   The worker's loop over one connection. It answers the requests of the stream in order, one reply
   each, until the stream ends, a frame is too large, the peer is gone, or a request ends the
   process; a header that does not parse is answered like any other request and does not shift the
   stream. `exited` says that a request ended the process, which it does even if its last reply is lost.
   */
  method HandleConnection<H>(service: Service<H>, reader: StreamReader, writer: StreamWriter) returns (exited: bool)
    modifies reader, writer
    ensures var requests := Pairs(ReadAll(old(reader.Stream())));
      var lived := service.Lifetime(requests, 0);
      && writer.sent == old(writer.sent) + EncodeAll(service.Replies(requests)[..Min(lived, old(writer.accepts))])
      && (exited <==> 0 < lived <= old(writer.accepts) + 1 && service.IsLast(lived - 1, requests[lived - 1]))
  {
    hide ReadFrom, ReadAll, Pairs, Encode, EncodeAll, Flatten, StreamReader.Stream, Announced;
    hide Service.Reply, Service.Replies, Service.Lifetime, Service.IsLast;
    ghost var requests := Pairs(ReadAll(reader.Stream()));
    var served := 0;
    NoReplies(service, requests);
    while true
      invariant served <= |requests| && served + writer.accepts == old(writer.accepts)
      invariant service.Lifetime(requests, 0) == service.Lifetime(requests, served)
      invariant requests[served..] == Pairs(ReadAll(reader.Stream()))
      invariant writer.sent == old(writer.sent) + EncodeAll(service.Replies(requests)[..served])
      invariant served > 0 ==> !service.IsLast(served - 1, requests[served - 1])
      decreases |reader.Stream()|
    {
      LifetimeStep(service, requests, served);
      var request := ReadRequest(reader);
      if request.None? { return false; }
      HeadAndTail(requests, served);
      OneMore(service, requests, served, old(writer.sent));
      var open, last := Answer(service, served, writer, request.value);
      if last { return true; }
      served := served + 1;
      if !open { return false; }
    }
  }

  /** The two frames of the next request; a failed read ends the connection. */
  method ReadRequest(reader: StreamReader) returns (r: Option<Request>)
    modifies reader
    ensures var before, after := Pairs(ReadAll(old(reader.Stream()))), Pairs(ReadAll(reader.Stream()));
      before == if r.None? then [] else [r.value] + after
    ensures r.Some? ==> |reader.Stream()| < |old(reader.Stream())|
  {
    hide ReadFrom, ReadAll, Pairs, Flatten;
    NextRequest(reader.Stream());
    var header := reader.ReadFrame();
    if !header.Frame? { return None; }
    var payload := reader.ReadFrame();
    if !payload.Frame? { return None; }
    return Some(Request(header.data, payload.data));
  }

  /** One reply, unless the peer is gone; `last` if the process ends with it. */
  method Answer<H>(service: Service<H>, k: nat, writer: StreamWriter, request: Request) returns (open: bool, last: bool)
    modifies writer
    ensures last <==> service.IsLast(k, request)
    ensures open <==> old(writer.accepts) > 0
    ensures open ==> writer.sent == old(writer.sent) + Encode(service.Reply(k, request))
    ensures open ==> writer.accepts == old(writer.accepts) - 1
    ensures !open ==> writer.sent == old(writer.sent) && writer.accepts == old(writer.accepts)
  {
    hide Encode;
    last := false;
    var header := service.parse(request.header);
    var done;
    if header.None? {
      done := writer.WriteFrame(service.badHeader(request.header));
    } else {
      match service.serve(k, header.value, request.payload)
      case Exits(reply) =>
        last := true;
        done := writer.WriteFrame(reply);
      case Answered(reply) =>
        done := writer.WriteFrame(reply);
        if done.Oversized? {
          done := writer.WriteFrame(service.fault(header.value));
        }
    }
    open := !done.Closing?;
  }

  lemma HeadAndTail<T>(xs: seq<T>, k: nat)
    requires k < |xs|
    ensures xs[k..] == [xs[k]] + xs[k + 1..]
  {
  }

  function Min(a: nat, b: nat): nat {
    if a <= b then a else b
  }

  /** What two reads in a row make of the requests still in the stream. */
  lemma NextRequest(stream: seq<byte>)
    ensures var requests, header := Pairs(ReadAll(stream)), ReadFrom(stream);
      if !header.Frame? then requests == []
      else
        LEN_PREFIX + |header.data| <= |stream|
        && var rest := stream[LEN_PREFIX + |header.data|..];
        var payload := ReadFrom(rest);
        if !payload.Frame? then requests == []
        else
          LEN_PREFIX + |payload.data| <= |rest|
          && requests == [Request(header.data, payload.data)] + Pairs(ReadAll(rest[LEN_PREFIX + |payload.data|..]))
  {
    var header := ReadFrom(stream);
    if header.Frame? {
      var rest := stream[LEN_PREFIX + |header.data|..];
      var payload := ReadFrom(rest);
      assert ReadAll(stream) == [header.data] + ReadAll(rest);
      if payload.Frame? {
        var after := ReadAll(rest[LEN_PREFIX + |payload.data|..]);
        assert ReadAll(stream)[2..] == after;
      }
    }
  }

  lemma LifetimeStep<H>(service: Service<H>, requests: seq<Request>, k: nat)
    requires k <= |requests|
    ensures service.Lifetime(requests, k)
         == if k == |requests| then k
            else if service.IsLast(k, requests[k]) then k + 1
            else service.Lifetime(requests, k + 1)
  {
  }

  lemma NoReplies<H>(service: Service<H>, requests: seq<Request>)
    ensures EncodeAll(service.Replies(requests)[..0]) == []
  {
  }

  lemma {:induction false} EncodeAllConcat(a: seq<FrameBytes>, b: seq<FrameBytes>)
    ensures EncodeAll(a + b) == EncodeAll(a) + EncodeAll(b)
  {
    if a == [] {
      assert a + b == b;
    } else {
      assert (a + b)[1..] == a[1..] + b;
      EncodeAllConcat(a[1..], b);
    }
  }

  /** What has been sent after one more reply. */
  lemma OneMore<H>(service: Service<H>, requests: seq<Request>, k: nat, sent: seq<byte>)
    requires k < |requests|
    ensures sent + EncodeAll(service.Replies(requests)[..k + 1])
         == sent + EncodeAll(service.Replies(requests)[..k]) + Encode(service.Reply(k, requests[k]))
  {
    hide Encode;
    var replies, reply := service.Replies(requests), service.Reply(k, requests[k]);
    assert replies[..k + 1] == replies[..k] + [reply];
    EncodeAllConcat(replies[..k], [reply]);
    assert EncodeAll([reply]) == Encode(reply);
  }
}

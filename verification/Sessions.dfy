/**
 From bytes to replies: runs of the protocol whose frames are what the edge makes of binary
 messages. Every reply answers the message it belongs to, by the message's own header.
 */
module Sessions {
  import opened Wrappers
  import opened Bytes
  import opened Lists
  import opened Prompts
  import opened Protocol
  import opened Runs
  import EdgeFrames

  /** What happens at the edge and the worker: a binary message on a connection, or any other event. */
  datatype Happening = Message(c: ConnId, b: seq<byte>) | Other(e: Event)

  /** The frame the protocol receives for a message. */
  function AsFrame(env: EdgeFrames.Env, b: seq<byte>): ClientFrame {
    match EdgeFrames.ProcessBinary(env, b)
    case Fatal => ClientFrame("", Fatal)
    case PerFrame(id, code) => ClientFrame(id, Rejected(code.Wire()))
    case Pending(header, jpeg, prompt, task) =>
      ClientFrame(header.frameId, Accepted(Job(prompt, task, header.mode.Wire(), jpeg)))
  }

  function AsEvent(env: EdgeFrames.Env, h: Happening): Event {
    match h
    case Message(c, b) => Receive(c, AsFrame(env, b))
    case Other(e) => e
  }

  function AsEvents(env: EdgeFrames.Env, hs: seq<Happening>): seq<Event> {
    if hs == [] then [] else [AsEvent(env, hs[0])] + AsEvents(env, hs[1..])
  }

  /** Frames only come from messages. */
  ghost predicate FramesAreMessages(hs: seq<Happening>) {
    forall h | h in hs && h.Other? :: !h.e.Receive?
  }

  /** The messages that arrived on a connection, in order. */
  function MessagesOn(hs: seq<Happening>, c: ConnId): seq<seq<byte>> {
    if hs == [] then []
    else (if hs[0].Message? && hs[0].c == c then [hs[0].b] else []) + MessagesOn(hs[1..], c)
  }

  function HasId(env: EdgeFrames.Env): seq<byte> -> bool {
    (b: seq<byte>) => !EdgeFrames.ProcessBinary(env, b).Fatal?
  }

  /** Those that carry an id a reply can be sent to. */
  function Answerable(env: EdgeFrames.Env, bs: seq<seq<byte>>): seq<seq<byte>> {
    Filter(HasId(env), bs)
  }

  /**
   The reply is to this message: it carries the id in the message's header. If the frame is
   acceptable it is what the worker made of the prompt compiled from the request in that header and
   of the image behind it; if not it is the edge's rejection, with the blame where it belongs.
   */
  ghost predicate AnswersMessage(env: EdgeFrames.Env, r: Reply, b: seq<byte>) {
    HeaderIn(env, b).Some?
    && var header, jpeg := HeaderIn(env, b).value, ImageIn(b);
    && r.id == header.frameId
    && if EdgeFrames.IsAcceptable(env, header, jpeg) then
         r.body.Worked? && r.body.of == JobOf(header, jpeg)
       else
         r.body.EdgeError?
         && r.body.code ==
            if !IsWellFormed(env.nfc, header.request) || |jpeg| != header.jpegLen then "invalid_request"
            else if EdgeFrames.IsUnread(env, header, jpeg) then "internal"
            else "invalid_image"
  }

  /** The header of a message, if it has one that parses. */
  function HeaderIn(env: EdgeFrames.Env, b: seq<byte>): Option<EdgeFrames.InferHeader> {
    match EdgeFrames.HeaderLength(b)
    case None => None
    case Some(n) => env.parse(b[4..4 + n])
  }

  /** What follows the header. */
  function ImageIn(b: seq<byte>): seq<byte> {
    match EdgeFrames.HeaderLength(b)
    case None => []
    case Some(n) => b[4 + n..]
  }

  /** They are the two parts of the message; what is no message has no header. */
  lemma PartsOfMessage(env: EdgeFrames.Env, b: seq<byte>, header: seq<byte>, jpeg: seq<byte>)
    ensures EdgeFrames.IsMessage(b, header, jpeg) ==> HeaderIn(env, b) == env.parse(header) && ImageIn(b) == jpeg
    ensures HeaderIn(env, b).Some? ==> exists h, image :: EdgeFrames.IsMessage(b, h, image)
  {
    EdgeFrames.TakenApart(b, header, jpeg);
    if EdgeFrames.HeaderLength(b).Some? {
      var n := EdgeFrames.HeaderLength(b).value;
      EdgeFrames.TakenApart(b, b[4..4 + n], b[4 + n..]);
      assert EdgeFrames.IsMessage(b, b[4..4 + n], b[4 + n..]);
    }
  }

  /** The prompt compiled from the request in the header, its task and mode, and the image. */
  function JobOf(header: EdgeFrames.InferHeader, jpeg: seq<byte>): Job {
    Job(Prompt(header.request), header.request.WireName(), header.mode.Wire(), jpeg)
  }

  // ---------- what a connection has consumed ----------

  function ConsumedOn(s: State, c: ConnId): seq<ClientFrame> {
    if c in s.conns then s.conns[c].consumed else []
  }

  function TakenBy(e: Event, c: ConnId): seq<ClientFrame> {
    if e.Receive? && e.c == c && !e.frame.outcome.Fatal? then [e.frame] else []
  }

  function Taken(events: seq<Event>, c: ConnId): seq<ClientFrame> {
    if events == [] then [] else TakenBy(events[0], c) + Taken(events[1..], c)
  }

  lemma ConsumedByConn(k: Conn, e: Event, free: bool)
    requires CanStep(k, e)
    ensures StepConn(k, e, free).consumed == k.consumed + TakenBy(e, e.c)
  {
  }

  lemma ConsumedByStep(s: State, e: Event, c: ConnId)
    requires Enabled(s, e)
    ensures ConsumedOn(Step(s, e), c) == ConsumedOn(s, c) + TakenBy(e, c)
  {
    hide CanStep, StepConn, StepLock;
    StepLockConns(s, e);
    match e
    case Connect(_) =>
    case OrphanEnds =>
    case Exit(_) =>
    case _ => ConsumedByConn(s.conns[e.c], e, IsFree(s));
  }

  lemma {:induction false} ConsumedAfter(s: State, events: seq<Event>, c: ConnId)
    requires IsRun(s, events)
    ensures ConsumedOn(After(s, events), c) == ConsumedOn(s, c) + Taken(events, c)
    decreases |events|
  {
    hide Step, Enabled, ConsumedOn, TakenBy;
    if events != [] {
      ConsumedByStep(s, events[0], c);
      ConsumedAfter(Step(s, events[0]), events[1..], c);
    }
  }

  /** The frames of messages, each on its own. */
  function FramesOf(env: EdgeFrames.Env, bs: seq<seq<byte>>): (fs: seq<ClientFrame>)
    ensures |fs| == |bs| && forall k | 0 <= k < |bs| :: fs[k] == AsFrame(env, bs[k])
  {
    seq(|bs|, k requires 0 <= k < |bs| => AsFrame(env, bs[k]))
  }

  lemma {:induction false} TakenIsAnswerable(env: EdgeFrames.Env, hs: seq<Happening>, c: ConnId)
    requires FramesAreMessages(hs)
    ensures Taken(AsEvents(env, hs), c) == FramesOf(env, Answerable(env, MessagesOn(hs, c)))
  {
    hide EdgeFrames.ProcessBinary;
    if hs != [] {
      assert hs[0] in hs;
      TakenIsAnswerable(env, hs[1..], c);
      var own := if hs[0].Message? && hs[0].c == c then [hs[0].b] else [];
      FilterConcat(HasId(env), own, MessagesOn(hs[1..], c));
      TakenByOne(env, hs[0], c);
    }
  }

  lemma TakenByOne(env: EdgeFrames.Env, h: Happening, c: ConnId)
    requires h.Other? ==> !h.e.Receive?
    ensures var own := if h.Message? && h.c == c then [h.b] else [];
      TakenBy(AsEvent(env, h), c) == FramesOf(env, Answerable(env, own))
  {
    hide EdgeFrames.ProcessBinary, Filter;
    if h.Message? && h.c == c {
      FilterOne(HasId(env), h.b);
    } else {
      FilterNothing(HasId(env));
    }
  }

  // ---------- a fatal message ends the connection ----------

  predicate IsClosed(s: State, c: ConnId) {
    c in s.conns && !s.conns[c].open
  }

  lemma ClosedByConn(k: Conn, e: Event, free: bool)
    requires CanStep(k, e)
    ensures !k.open || (e.Receive? && e.frame.outcome.Fatal?) ==> !StepConn(k, e, free).open
  {
  }

  lemma ClosedByStep(s: State, e: Event, c: ConnId)
    requires Enabled(s, e)
    ensures IsClosed(s, c) || (e.Receive? && e.c == c && e.frame.outcome.Fatal?) ==> IsClosed(Step(s, e), c)
  {
    hide CanStep, StepConn, StepLock;
    StepLockConns(s, e);
    match e
    case Connect(_) =>
    case OrphanEnds =>
    case Exit(_) =>
    case _ => ClosedByConn(s.conns[e.c], e, IsFree(s));
  }

  lemma {:induction false} ClosedAfter(s: State, events: seq<Event>, c: ConnId, k: nat)
    requires IsRun(s, events)
    requires IsClosed(s, c)
      || (k < |events| && events[k].Receive? && events[k].c == c && events[k].frame.outcome.Fatal?)
    ensures IsClosed(After(s, events), c)
    decreases |events|
  {
    hide Step, Enabled, IsClosed;
    if events != [] {
      ClosedByStep(s, events[0], c);
      ClosedAfter(Step(s, events[0]), events[1..], c, if k == 0 then 0 else k - 1);
    }
  }

  lemma {:induction false} FatalAt(env: EdgeFrames.Env, hs: seq<Happening>, c: ConnId, b: seq<byte>) returns (k: nat)
    requires b in MessagesOn(hs, c) && !HasId(env)(b)
    ensures k < |AsEvents(env, hs)|
    ensures var e := AsEvents(env, hs)[k]; e.Receive? && e.c == c && e.frame.outcome.Fatal?
  {
    hide EdgeFrames.ProcessBinary;
    if hs[0].Message? && hs[0].c == c && hs[0].b == b {
      k := 0;
    } else {
      k := FatalAt(env, hs[1..], c, b);
      k := k + 1;
    }
  }

  // ---------- the theorem ----------

  lemma ReplyToMessage(env: EdgeFrames.Env, r: Reply, b: seq<byte>)
    requires HasId(env)(b) && Answers(r, AsFrame(env, b))
    ensures AnswersMessage(env, r, b)
  {
    hide EdgeFrames.IsUsableId, EdgeFrames.IsAcceptable, EdgeFrames.CheckFrame, IsWellFormed;
    var header, jpeg := HeaderIn(env, b).value, ImageIn(b);
    EdgeFrames.PendingIffAcceptable(env, header, jpeg);
    EdgeFrames.CheckCarriesId(env, header, jpeg);
    if EdgeFrames.CheckFrame(env, header, jpeg).PerFrame? {
      EdgeFrames.CodeOfRejection(env, header, jpeg);
      EdgeFrames.CodesDiffer(EdgeFrames.CheckFrame(env, header, jpeg).code);
    }
  }

  /**
   Main result: after every run whose frames come from binary messages, on every connection the k-th
   reply answers the k-th message that carries an id, by that message's own header, request and image;
   at most one such message is unanswered; and as long as the connection is open every message
   that arrived carries an id.
   */
  lemma RepliesAnswerMessages(env: EdgeFrames.Env, hs: seq<Happening>, c: ConnId)
    requires FramesAreMessages(hs) && IsRun(INIT, AsEvents(env, hs)) && c in After(INIT, AsEvents(env, hs)).conns
    ensures var k, messages := After(INIT, AsEvents(env, hs)).conns[c], Answerable(env, MessagesOn(hs, c));
      && |k.replies| <= |messages| <= |k.replies| + 1
      && (forall i | 0 <= i < |k.replies| :: AnswersMessage(env, k.replies[i], messages[i]))
      && (k.open ==> messages == MessagesOn(hs, c))
  {
    hide IsRun, After, AsFrame, AnswersMessage, Answers, AsEvents, MessagesOn, Taken, Filter, HasId;
    var events := AsEvents(env, hs);
    var k, messages := After(INIT, events).conns[c], Answerable(env, MessagesOn(hs, c));
    RepliesAnswerFrames(events, c);
    ConsumedAfter(INIT, events, c);
    TakenIsAnswerable(env, hs, c);
    FilterMembers(HasId(env), MessagesOn(hs, c));
    forall i | 0 <= i < |k.replies|
      ensures AnswersMessage(env, k.replies[i], messages[i])
    {
      assert messages[i] in messages;
      ReplyToMessage(env, k.replies[i], messages[i]);
    }
    if k.open {
      forall b | b in MessagesOn(hs, c)
        ensures HasId(env)(b)
      {
        if !HasId(env)(b) {
          var at := FatalAt(env, hs, c, b);
          ClosedAfter(INIT, events, c, at);
        }
      }
      FilterAll(HasId(env), MessagesOn(hs, c));
    }
  }
}

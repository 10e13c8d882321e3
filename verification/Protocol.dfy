/**
 The streaming protocol as a labelled transition system: any number of WebSockets, one worker
 connection each, two-frame requests and one-frame replies, and one lock around the GPU. `Runs`
 proves what holds after every run.
 */
module Protocol {
  import opened Wrappers
  import opened Bytes
  import Json

  type ConnId = nat

  // ---------- messages ----------

  /** What the worker needs to run one frame, as the edge compiled it. */
  datatype Job = Job(prompt: string, task: string, mode: string, jpeg: seq<byte>)

  /** What `process_binary` makes of a frame. A fatal one has no usable frame id. */
  datatype Outcome = Fatal | Rejected(code: string) | Accepted(job: Job)

  datatype ClientFrame = ClientFrame(id: string, outcome: Outcome)

  /** One frame of the Unix socket, edge to worker. */
  datatype UdsFrame = Header(id: string, prompt: string, task: string, mode: string) | Payload(jpeg: seq<byte>)

  /** What the worker makes of a job is the body of its reply. */
  type Verdict = Json.Value

  /** A reply: the edge's own rejection, what the worker made of a job, or its answer to frames it cannot read. */
  datatype Body = EdgeError(code: string) | Worked(of: Job, verdict: Verdict) | BadFrames

  datatype Reply = Reply(id: string, body: Body)

  // ---------- state ----------

  /** Where `handle_ws` is, and the frame it is working on. */
  datatype Edge =
    | Reading
    | Rejecting(frame: ClientFrame)
    | Sending(frame: ClientFrame)
    | HeaderSent(frame: ClientFrame)
    | Awaiting(frame: ClientFrame)
    | Delivering(frame: ClientFrame, reply: Reply)

  /** Where `handle_connection` is. `Dying` is a handler that will end the whole worker. */
  datatype Handler =
    | WaitHeader
    | GotHeader(first: UdsFrame)
    | Ready(id: string, job: Job)
    | Queued(id: string, job: Job)
    | Running(id: string, job: Job)
    | Replying(reply: Reply)
    | Dying(reply: Reply, written: bool)
    | Stopped

  /**
   One WebSocket and its worker connection. `edge` stays where it was when the edge closes;
   `consumed` and `replies` record the non-fatal frames taken and the texts sent.
   */
  datatype Conn = Conn(
    open: bool, edge: Edge, down: seq<UdsFrame>, up: seq<Reply>, handler: Handler,
    consumed: seq<ClientFrame>, replies: seq<Reply>)

  /**
   The system. `running` counts engine calls in progress, `orphans` those whose handler gave up;
   `arrivals` and `grants` record the order in which the lock was asked for and given.
   */
  datatype State = State(
    conns: map<ConnId, Conn>, holder: Option<ConnId>, waiters: seq<ConnId>,
    running: int, orphans: nat, timeouts: nat, arrivals: seq<ConnId>, grants: seq<ConnId>)

  const INIT: State := State(map[], None, [], 0, 0, 0, [], [])

  const FRESH: Conn := Conn(true, Reading, [], [], WaitHeader, [], [])

  // ---------- events ----------

  datatype Event =
    | Connect(c: ConnId)
    // the edge
    | Receive(c: ConnId, frame: ClientFrame)
    | SendRejection(c: ConnId)
    | SendHeader(c: ConnId)
    | SendPayload(c: ConnId)
    | TakeReply(c: ConnId)
    | SendReply(c: ConnId)
    | CloseEdge(c: ConnId)
    // the worker
    | ReadHeader(c: ConnId)
    | ReadPayload(c: ConnId)
    | Refuse(c: ConnId, verdict: Verdict)
    | AskLock(c: ConnId)
    | Grant(c: ConnId)
    | EngineReturns(c: ConnId, verdict: Verdict)
    | EngineOutOfMemory(c: ConnId, verdict: Verdict)
    | EngineTimesOut(c: ConnId, verdict: Verdict)
    | OrphanEnds
    | ReplyTooLarge(c: ConnId, verdict: Verdict)
    | WriteReply(c: ConnId)
    | HandlerStops(c: ConnId)
    // the process ends, by its own hand after a handler is dying, or by another's
    | Exit(kept: map<ConnId, nat>)

  // ---------- one connection ----------

  /** The reply of the worker to a request it could read. */
  function WorkerReply(id: string, job: Job, verdict: Verdict): Reply {
    Reply(id, Worked(job, verdict))
  }

  /** What the two frames of a request say, if the first is a header and the second a payload. */
  function Decode(first: UdsFrame, second: UdsFrame): Handler {
    if first.Header? && second.Payload? then
      Ready(first.id, Job(first.prompt, first.task, first.mode, second.jpeg))
    else
      Replying(Reply(if first.Header? then first.id else "", BadFrames))
  }

  /** The connection is where the event can happen; what the lock must allow is in `Enabled`. */
  predicate CanStep(k: Conn, e: Event) {
    match e
    case Receive(_, _) => k.open && k.edge.Reading?
    case SendRejection(_) => k.open && k.edge.Rejecting?
    case SendHeader(_) => k.open && k.edge.Sending? && k.edge.frame.outcome.Accepted?
    case SendPayload(_) => k.open && k.edge.HeaderSent? && k.edge.frame.outcome.Accepted?
    case TakeReply(_) => k.open && k.edge.Awaiting? && k.up != []
    case SendReply(_) => k.open && k.edge.Delivering?
    case CloseEdge(_) => k.open
    case ReadHeader(_) => k.handler.WaitHeader? && k.down != []
    case ReadPayload(_) => k.handler.GotHeader? && k.down != []
    case Refuse(_, _) => k.handler.Ready?
    case AskLock(_) => k.handler.Ready?
    case Grant(_) => k.handler.Queued?
    case EngineReturns(_, _) => k.handler.Running?
    case EngineOutOfMemory(_, _) => k.handler.Running?
    case EngineTimesOut(_, _) => k.handler.Running?
    case ReplyTooLarge(_, _) => k.handler.Replying? && k.handler.reply.body.Worked?
    case WriteReply(_) => k.handler.Replying? || (k.handler.Dying? && !k.handler.written)
    case HandlerStops(_) => !k.open && (k.handler.WaitHeader? || k.handler.GotHeader? || k.handler.Replying?)
    case _ => false
  }

  /** What the event does to the connection it names. `free` says that a request for the lock is granted at once. */
  function StepConn(k: Conn, e: Event, free: bool): Conn
    requires CanStep(k, e)
  {
    match e
    case Receive(_, frame) =>
      (match frame.outcome
       case Fatal => k.(open := false)
       case Rejected(_) => k.(edge := Rejecting(frame), consumed := k.consumed + [frame])
       case Accepted(_) => k.(edge := Sending(frame), consumed := k.consumed + [frame]))
    case SendRejection(_) =>
      var frame := k.edge.frame;
      var code := if frame.outcome.Rejected? then frame.outcome.code else "";
      k.(edge := Reading, replies := k.replies + [Reply(frame.id, EdgeError(code))])
    case SendHeader(_) =>
      var frame := k.edge.frame;
      var job := frame.outcome.job;
      k.(edge := HeaderSent(frame), down := k.down + [Header(frame.id, job.prompt, job.task, job.mode)])
    case SendPayload(_) =>
      var frame := k.edge.frame;
      k.(edge := Awaiting(frame), down := k.down + [Payload(frame.outcome.job.jpeg)])
    case TakeReply(_) => k.(edge := Delivering(k.edge.frame, k.up[0]), up := k.up[1..])
    case SendReply(_) => k.(edge := Reading, replies := k.replies + [k.edge.reply])
    case CloseEdge(_) => k.(open := false)
    case ReadHeader(_) => k.(handler := GotHeader(k.down[0]), down := k.down[1..])
    case ReadPayload(_) => k.(handler := Decode(k.handler.first, k.down[0]), down := k.down[1..])
    case Refuse(_, verdict) => k.(handler := Replying(WorkerReply(k.handler.id, k.handler.job, verdict)))
    case AskLock(_) =>
      var id, job := k.handler.id, k.handler.job;
      k.(handler := if free then Running(id, job) else Queued(id, job))
    case Grant(_) => k.(handler := Running(k.handler.id, k.handler.job))
    case EngineReturns(_, verdict) => k.(handler := Replying(WorkerReply(k.handler.id, k.handler.job, verdict)))
    case EngineOutOfMemory(_, verdict) => k.(handler := Dying(WorkerReply(k.handler.id, k.handler.job, verdict), false))
    case EngineTimesOut(_, verdict) => k.(handler := Dying(WorkerReply(k.handler.id, k.handler.job, verdict), false))
    case ReplyTooLarge(_, verdict) =>
      var reply := k.handler.reply;
      k.(handler := Replying(WorkerReply(reply.id, reply.body.of, verdict)))
    case WriteReply(_) =>
      var after := if k.handler.Dying? then Dying(k.handler.reply, true) else WaitHeader;
      k.(handler := after, up := k.up + [k.handler.reply])
    case HandlerStops(_) => k.(handler := Stopped)
  }

  /** The worker process is gone: its handler with it, and any suffix of what it had written. */
  function Cut(k: Conn, kept: nat): Conn {
    k.(handler := Stopped, up := if kept <= |k.up| then k.up[..kept] else k.up)
  }

  // ---------- the whole system ----------

  /** `asyncio.Lock.acquire` succeeds at once only if the lock is free and nobody waits for it. */
  predicate IsFree(s: State) {
    s.holder.None? && s.waiters == []
  }

  predicate Enabled(s: State, e: Event) {
    match e
    case Connect(c) => c !in s.conns
    case OrphanEnds => s.orphans > 0
    case Exit(_) => true
    case Grant(c) => c in s.conns && CanStep(s.conns[c], e) && s.holder.None? && s.waiters != [] && s.waiters[0] == c
    case _ => e.c in s.conns && CanStep(s.conns[e.c], e)
  }

  /** What the event does to the lock and the engine. */
  function StepLock(s: State, e: Event): State {
    match e
    case AskLock(c) =>
      if IsFree(s) then
        s.(holder := Some(c), running := s.running + 1, arrivals := s.arrivals + [c], grants := s.grants + [c])
      else
        s.(waiters := s.waiters + [c], arrivals := s.arrivals + [c])
    case Grant(c) =>
      if s.waiters == [] then s
      else s.(holder := Some(c), waiters := s.waiters[1..], running := s.running + 1, grants := s.grants + [c])
    case EngineReturns(_, _) => s.(holder := None, running := s.running - 1)
    case EngineOutOfMemory(_, _) => s.(holder := None, running := s.running - 1)
    // the lock is released, but the thread keeps running
    case EngineTimesOut(_, _) => s.(holder := None, orphans := s.orphans + 1, timeouts := s.timeouts + 1)
    case OrphanEnds => if s.orphans == 0 then s else s.(running := s.running - 1, orphans := s.orphans - 1)
    case _ => s
  }

  function Step(s: State, e: Event): State
    requires Enabled(s, e)
  {
    match e
    case Connect(c) => s.(conns := s.conns[c := FRESH])
    case OrphanEnds => StepLock(s, e)
    case Exit(kept) =>
      var left := map c | c in s.conns :: Cut(s.conns[c], if c in kept then kept[c] else |s.conns[c].up|);
      State(left, None, [], 0, 0, 0, [], [])
    case _ => StepLock(s, e).(conns := s.conns[e.c := StepConn(s.conns[e.c], e, IsFree(s))])
  }

  /** The states a sequence of events leads through, while each is enabled. */
  ghost predicate IsRun(s: State, events: seq<Event>)
    decreases |events|
  {
    events == [] || (Enabled(s, events[0]) && IsRun(Step(s, events[0]), events[1..]))
  }

  ghost function After(s: State, events: seq<Event>): State
    requires IsRun(s, events)
    decreases |events|
  {
    if events == [] then s else After(Step(s, events[0]), events[1..])
  }
}

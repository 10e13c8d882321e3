/**
 What holds after every run of the protocol: replies answer frames one for one and in order, no
 reply reaches another frame, the engine runs under one lock, and the lock is fair.
 */
module Runs {
  import opened Wrappers
  import opened Protocol

  // ---------- one connection in step ----------

  /** The reply is for this frame: its id, and the edge's code or what the worker made of its very job. */
  predicate Answers(r: Reply, f: ClientFrame) {
    && r.id == f.id
    && match f.outcome
       case Fatal => false
       case Rejected(code) => r.body == EdgeError(code)
       case Accepted(job) => r.body.Worked? && r.body.of == job
  }

  function HeaderOf(f: ClientFrame): UdsFrame
    requires f.outcome.Accepted?
  {
    Header(f.id, f.outcome.job.prompt, f.outcome.job.task, f.outcome.job.mode)
  }

  function PayloadOf(f: ClientFrame): UdsFrame
    requires f.outcome.Accepted?
  {
    Payload(f.outcome.job.jpeg)
  }

  /** The texts sent answer the frames taken, one for one; a frame being worked on is the one more. */
  predicate History(k: Conn) {
    && |k.consumed| == |k.replies| + (if k.edge.Reading? then 0 else 1)
    && (!k.edge.Reading? ==> k.consumed[|k.replies|] == k.edge.frame)
    && forall i | 0 <= i < |k.replies| :: Answers(k.replies[i], k.consumed[i])
  }

  /** The handler works on no request. */
  predicate Resting(h: Handler) {
    h.WaitHeader? || h.Stopped? || (h.Dying? && h.written)
  }

  /** The handler works on the request of this frame. */
  predicate WorksOn(h: Handler, f: ClientFrame)
    requires f.outcome.Accepted?
  {
    match h
    case Ready(id, job) => id == f.id && job == f.outcome.job
    case Queued(id, job) => id == f.id && job == f.outcome.job
    case Running(id, job) => id == f.id && job == f.outcome.job
    case Replying(reply) => Answers(reply, f)
    case Dying(reply, written) => !written && Answers(reply, f)
    case _ => false
  }

  /** The wires and the handler are at the place where the edge expects them. */
  predicate Pipeline(k: Conn) {
    match k.edge
    case Reading => k.down == [] && k.up == [] && Resting(k.handler)
    case Rejecting(f) => f.outcome.Rejected? && k.down == [] && k.up == [] && Resting(k.handler)
    case Sending(f) => f.outcome.Accepted? && k.down == [] && k.up == [] && Resting(k.handler)
    case HeaderSent(f) =>
      && f.outcome.Accepted? && k.up == []
      && ((k.down == [HeaderOf(f)] && Resting(k.handler))
          || (k.down == [] && (k.handler == GotHeader(HeaderOf(f)) || k.handler.Stopped?)))
    case Awaiting(f) =>
      && f.outcome.Accepted?
      && ((k.down == [HeaderOf(f), PayloadOf(f)] && k.up == [] && Resting(k.handler))
          || (k.down == [PayloadOf(f)] && k.up == [] && (k.handler == GotHeader(HeaderOf(f)) || k.handler.Stopped?))
          || (k.down == [] && k.up == [] && (WorksOn(k.handler, f) || k.handler.Stopped?))
          || (k.down == [] && |k.up| == 1 && Answers(k.up[0], f) && Resting(k.handler)))
    case Delivering(f, r) => Answers(r, f) && k.down == [] && k.up == [] && Resting(k.handler)
  }

  predicate InStep(k: Conn) {
    History(k) && Pipeline(k)
  }

  lemma ReceiveKept(k: Conn, c: ConnId, frame: ClientFrame)
    requires InStep(k) && CanStep(k, Receive(c, frame))
    ensures InStep(StepConn(k, Receive(c, frame), false))
  {
  }

  lemma RequestKept(k: Conn, e: Event)
    requires InStep(k) && CanStep(k, e) && (e.SendHeader? || e.SendPayload? || e.TakeReply? || e.CloseEdge?)
    ensures InStep(StepConn(k, e, false))
  {
  }

  lemma ReplyKept(k: Conn, e: Event)
    requires InStep(k) && CanStep(k, e) && (e.SendRejection? || e.SendReply?)
    ensures InStep(StepConn(k, e, false))
  {
  }

  lemma ReadKept(k: Conn, e: Event)
    requires InStep(k) && CanStep(k, e) && (e.ReadHeader? || e.ReadPayload?)
    ensures InStep(StepConn(k, e, false))
  {
  }

  lemma ClaimMoveKept(k: Conn, e: Event, free: bool)
    requires InStep(k) && CanStep(k, e) && (e.Refuse? || e.AskLock? || e.Grant?)
    ensures InStep(StepConn(k, e, free))
  {
  }

  lemma EngineKept(k: Conn, e: Event)
    requires InStep(k) && CanStep(k, e) && (e.EngineReturns? || e.EngineOutOfMemory? || e.EngineTimesOut?)
    ensures InStep(StepConn(k, e, false))
  {
  }

  lemma WriteKept(k: Conn, e: Event)
    requires InStep(k) && CanStep(k, e) && (e.ReplyTooLarge? || e.WriteReply? || e.HandlerStops?)
    ensures InStep(StepConn(k, e, false))
  {
  }

  lemma InStepKept(k: Conn, e: Event, free: bool)
    requires InStep(k) && CanStep(k, e)
    ensures InStep(StepConn(k, e, free))
  {
    hide InStep;
    match e
    case Receive(c, frame) => ReceiveKept(k, c, frame);
    case SendRejection(_) => ReplyKept(k, e);
    case SendReply(_) => ReplyKept(k, e);
    case SendHeader(_) => RequestKept(k, e);
    case SendPayload(_) => RequestKept(k, e);
    case TakeReply(_) => RequestKept(k, e);
    case CloseEdge(_) => RequestKept(k, e);
    case ReadHeader(_) => ReadKept(k, e);
    case ReadPayload(_) => ReadKept(k, e);
    case ReplyTooLarge(_, _) => WriteKept(k, e);
    case WriteReply(_) => WriteKept(k, e);
    case HandlerStops(_) => WriteKept(k, e);
    case Refuse(_, _) => ClaimMoveKept(k, e, free);
    case AskLock(_) => ClaimMoveKept(k, e, free);
    case Grant(_) => ClaimMoveKept(k, e, free);
    case _ => EngineKept(k, e);
  }

  lemma InStepCut(k: Conn, kept: nat)
    requires InStep(k)
    ensures InStep(Cut(k, kept))
  {
  }

  // ---------- the lock ----------

  predicate Distinct(xs: seq<ConnId>) {
    forall i, j | 0 <= i < j < |xs| :: xs[i] != xs[j]
  }

  /** The holder is the one handler in an engine call, and the waiters are those that queue, in order of arrival. */
  predicate LockInv(s: State) {
    && (s.holder.Some? ==> s.holder.value in s.conns && s.conns[s.holder.value].handler.Running?)
    && (forall c | c in s.conns && s.conns[c].handler.Running? :: s.holder == Some(c))
    && (forall w | w in s.waiters :: w in s.conns && s.conns[w].handler.Queued?)
    && (forall c | c in s.conns && s.conns[c].handler.Queued? :: c in s.waiters)
    && Distinct(s.waiters)
    && s.arrivals == s.grants + s.waiters
    && s.running == s.orphans + (if s.holder.Some? then 1 else 0)
    && s.orphans <= s.timeouts
  }

  predicate Inv(s: State) {
    (forall c | c in s.conns :: InStep(s.conns[c])) && LockInv(s)
  }

  /** Whether a handler holds the lock, waits for it, or neither. */
  predicate SameClaim(h: Handler, g: Handler) {
    (h.Running? <==> g.Running?) && (h.Queued? <==> g.Queued?)
  }

  lemma ClaimKept(s: State, c: ConnId, k: Conn)
    requires LockInv(s)
    requires if c in s.conns then SameClaim(s.conns[c].handler, k.handler) else SameClaim(WaitHeader, k.handler)
    ensures LockInv(s.(conns := s.conns[c := k]))
  {
  }

  lemma AskKept(s: State, c: ConnId)
    requires LockInv(s) && Enabled(s, AskLock(c))
    ensures LockInv(Step(s, AskLock(c)))
  {
    var t := Step(s, AskLock(c));
    if !IsFree(s) {
      assert c !in s.waiters;
      assert t.arrivals == t.grants + t.waiters;
    } else {
      assert t.arrivals == t.grants + t.waiters;
    }
  }

  lemma TailOf(xs: seq<ConnId>)
    requires xs != [] && Distinct(xs)
    ensures Distinct(xs[1..]) && xs == [xs[0]] + xs[1..] && forall x :: x in xs[1..] <==> x in xs && x != xs[0]
  {
    forall x | x in xs && x != xs[0]
      ensures x in xs[1..]
    {
      var i :| 0 <= i < |xs| && xs[i] == x;
      assert xs[1..][i - 1] == x;
    }
  }

  lemma GrantRuns(k: Conn, e: Event, free: bool)
    requires CanStep(k, e) && e.Grant?
    ensures StepConn(k, e, free).handler.Running?
  {
  }

  lemma GrantKept(s: State, c: ConnId)
    requires LockInv(s) && Enabled(s, Grant(c))
    ensures LockInv(Step(s, Grant(c)))
  {
    hide Distinct, StepConn, CanStep;
    var t := Step(s, Grant(c));
    TailOf(s.waiters);
    GrantRuns(s.conns[c], Grant(c), IsFree(s));
    assert t.arrivals == t.grants + t.waiters;
  }

  lemma ReleaseKept(s: State, e: Event)
    requires LockInv(s) && Enabled(s, e) && (e.EngineReturns? || e.EngineOutOfMemory? || e.EngineTimesOut?)
    ensures LockInv(Step(s, e))
  {
    assert s.holder == Some(e.c);
  }

  lemma ExitKept(s: State, e: Event)
    requires LockInv(s) && Enabled(s, e) && e.Exit?
    ensures LockInv(Step(s, e))
  {
  }

  lemma OtherKept(s: State, e: Event)
    requires LockInv(s) && Enabled(s, e) && !e.AskLock? && !e.Grant? && !e.Exit?
    requires !e.EngineReturns? && !e.EngineOutOfMemory? && !e.EngineTimesOut? && !e.OrphanEnds? && !e.Connect?
    ensures LockInv(Step(s, e))
  {
    ClaimUntouched(s.conns[e.c], e, IsFree(s));
    hide LockInv, StepConn;
    ClaimKept(s, e.c, StepConn(s.conns[e.c], e, IsFree(s)));
  }

  lemma ClaimUntouched(k: Conn, e: Event, free: bool)
    requires CanStep(k, e) && !e.AskLock? && !e.Grant?
    requires !e.EngineReturns? && !e.EngineOutOfMemory? && !e.EngineTimesOut?
    ensures SameClaim(k.handler, StepConn(k, e, free).handler)
  {
  }

  lemma LockKept(s: State, e: Event)
    requires LockInv(s) && Enabled(s, e)
    ensures LockInv(Step(s, e))
  {
    hide LockInv, StepConn, StepLock, Step, CanStep;
    match e
    case Connect(c) => ConnectKept(s, c);
    case AskLock(c) => AskKept(s, c);
    case Grant(c) => GrantKept(s, c);
    case EngineReturns(_, _) => ReleaseKept(s, e);
    case EngineOutOfMemory(_, _) => ReleaseKept(s, e);
    case EngineTimesOut(_, _) => ReleaseKept(s, e);
    case OrphanEnds => OrphanKept(s, e);
    case Exit(_) => ExitKept(s, e);
    case _ => OtherKept(s, e);
  }

  lemma OrphanKept(s: State, e: Event)
    requires LockInv(s) && Enabled(s, e) && e.OrphanEnds?
    ensures LockInv(Step(s, e))
  {
  }

  lemma ConnectKept(s: State, c: ConnId)
    requires LockInv(s) && c !in s.conns
    ensures LockInv(Step(s, Connect(c)))
  {
    hide LockInv;
    ClaimKept(s, c, FRESH);
  }

  lemma ConnsKept(s: State, e: Event)
    requires Inv(s) && Enabled(s, e)
    ensures forall c | c in Step(s, e).conns :: InStep(Step(s, e).conns[c])
  {
    hide InStep, LockInv, StepConn, StepLock, Cut;
    match e
    case Connect(_) => FreshInStep();
    case OrphanEnds => StepLockConns(s, e);
    case Exit(kept) =>
      forall c | c in s.conns
        ensures InStep(Cut(s.conns[c], if c in kept then kept[c] else |s.conns[c].up|))
      {
        InStepCut(s.conns[c], if c in kept then kept[c] else |s.conns[c].up|);
      }
    case _ => InStepKept(s.conns[e.c], e, IsFree(s));
  }

  lemma FreshInStep()
    ensures InStep(FRESH)
  {
  }

  lemma StepLockConns(s: State, e: Event)
    ensures StepLock(s, e).conns == s.conns
  {
  }

  lemma InvKept(s: State, e: Event)
    requires Inv(s) && Enabled(s, e)
    ensures Inv(Step(s, e))
  {
    hide InStep, LockInv, Step;
    LockKept(s, e);
    ConnsKept(s, e);
  }

  // ---------- every run ----------

  lemma InvInit()
    ensures Inv(INIT)
  {
  }

  lemma {:induction false} InvAfter(s: State, events: seq<Event>)
    requires Inv(s) && IsRun(s, events)
    ensures Inv(After(s, events))
    decreases |events|
  {
    hide Inv, Step;
    if events != [] {
      InvKept(s, events[0]);
      InvAfter(Step(s, events[0]), events[1..]);
    }
  }

  /**
   Main result: after every run, on every WebSocket the k-th reply answers the k-th non-fatal frame,
   with its id and, for a frame the worker ran, with what the worker made of exactly that job; at
   most one frame is unanswered.
   */
  lemma RepliesAnswerFrames(events: seq<Event>, c: ConnId)
    requires IsRun(INIT, events) && c in After(INIT, events).conns
    ensures var k := After(INIT, events).conns[c];
      && |k.replies| <= |k.consumed| <= |k.replies| + 1
      && forall i | 0 <= i < |k.replies| :: Answers(k.replies[i], k.consumed[i])
  {
    hide IsRun, After;
    InvInit();
    InvAfter(INIT, events);
  }

  /** Main result: the worker never takes a payload for a header, or the other way round. */
  lemma AlwaysInStep(events: seq<Event>, c: ConnId)
    requires IsRun(INIT, events) && c in After(INIT, events).conns
    ensures var k := After(INIT, events).conns[c];
      && (k.handler.WaitHeader? && k.down != [] ==> k.down[0].Header?)
      && (k.handler.GotHeader? ==> k.handler.first.Header? && (k.down != [] ==> k.down[0].Payload?))
      && (k.handler.Replying? ==> !k.handler.reply.body.BadFrames?)
  {
    hide IsRun, After;
    InvInit();
    InvAfter(INIT, events);
  }

  // ---------- a failed engine ends the worker ----------

  /** The handler will not take another request. */
  predicate IsDoomed(s: State, c: ConnId) {
    c in s.conns && (s.conns[c].handler.Dying? || s.conns[c].handler.Stopped?)
  }

  predicate FailsEngine(e: Event) {
    e.EngineOutOfMemory? || e.EngineTimesOut?
  }

  lemma DoomedByConn(k: Conn, e: Event, free: bool)
    requires CanStep(k, e)
    ensures var h := StepConn(k, e, free).handler;
      k.handler.Dying? || k.handler.Stopped? || FailsEngine(e) ==> h.Dying? || h.Stopped?
  {
  }

  lemma DoomedByStep(s: State, e: Event, c: ConnId)
    requires Enabled(s, e)
    ensures IsDoomed(s, c) || (FailsEngine(e) && e.c == c) ==> IsDoomed(Step(s, e), c)
  {
    hide CanStep, StepConn, StepLock;
    StepLockConns(s, e);
    match e
    case Connect(_) =>
    case OrphanEnds =>
    case Exit(_) =>
    case _ => DoomedByConn(s.conns[e.c], e, IsFree(s));
  }

  /**
   Main result: a handler whose engine call ran out of memory or time never takes another request,
   whatever happens afterwards.
   */
  lemma {:induction false} FailureIsFinal(s: State, events: seq<Event>, c: ConnId, k: nat)
    requires IsRun(s, events)
    requires IsDoomed(s, c) || (k < |events| && FailsEngine(events[k]) && events[k].c == c)
    ensures IsDoomed(After(s, events), c)
    decreases |events|
  {
    hide Step, Enabled, IsDoomed;
    if events != [] {
      DoomedByStep(s, events[0], c);
      FailureIsFinal(Step(s, events[0]), events[1..], c, if k == 0 then 0 else k - 1);
    }
  }

  // ---------- the engine ----------

  predicate IsInEngine(s: State, c: ConnId) {
    c in s.conns && s.conns[c].handler.Running?
  }

  /**
   Main result: engine calls in progress are that of the lock holder and those that handlers gave up
   on; so there is at most one exactly when nobody gave up, or one did and nobody holds the lock, and
   always before the first timeout.
   */
  lemma OneEngineCall(events: seq<Event>)
    requires IsRun(INIT, events)
    ensures var s := After(INIT, events);
      && s.running == s.orphans + (if s.holder.Some? then 1 else 0)
      && (s.running <= 1 <==> s.orphans == 0 || (s.orphans == 1 && s.holder.None?))
      && s.orphans <= s.timeouts
      && forall c, d | IsInEngine(s, c) && IsInEngine(s, d) :: c == d
  {
    hide IsRun, After, InStep;
    InvInit();
    InvAfter(INIT, events);
  }

  /**
   Main result: the lock is granted in the order of arrival, and whoever arrived and was not granted it
   still waits.
   */
  lemma GrantsFollowArrivals(events: seq<Event>)
    requires IsRun(INIT, events)
    ensures var s := After(INIT, events); s.arrivals == s.grants + s.waiters
  {
    hide IsRun, After, InStep;
    InvInit();
    InvAfter(INIT, events);
  }

  // ---------- waiting ----------

  /** Connections whose handler is still there. */
  function Live(s: State): set<ConnId> {
    set c | c in s.conns && !s.conns[c].handler.Stopped?
  }

  function Position(xs: seq<ConnId>, c: ConnId): (i: nat)
    requires c in xs
    ensures i < |xs| && xs[i] == c && c !in xs[..i]
  {
    if xs[0] == c then 0 else 1 + Position(xs[1..], c)
  }

  /** How many frames a queued one waits behind: the holder of the lock and the earlier waiters. */
  function Ahead(s: State, c: ConnId): nat
    requires c in s.waiters
  {
    Position(s.waiters, c) + if s.holder.Some? then 1 else 0
  }

  lemma {:induction false} DistinctFit(xs: seq<ConnId>, all: set<ConnId>)
    requires Distinct(xs) && forall x | x in xs :: x in all
    ensures |xs| <= |all|
    decreases |xs|
  {
    if xs != [] {
      TailOf(xs);
      DistinctFit(xs[1..], all - {xs[0]});
    }
  }

  /** Main result: after every run a frame waits behind at most all the other live connections. */
  lemma BoundedWait(events: seq<Event>, c: ConnId)
    requires IsRun(INIT, events) && c in After(INIT, events).waiters
    ensures Ahead(After(INIT, events), c) + 1 <= |Live(After(INIT, events))|
  {
    hide IsRun, After, InStep, Distinct;
    InvInit();
    InvAfter(INIT, events);
    var s := After(INIT, events);
    if s.holder.Some? {
      assert s.holder.value in Live(s);
      DistinctFit(s.waiters, Live(s) - {s.holder.value});
    } else {
      DistinctFit(s.waiters, Live(s));
    }
  }

  /** Main result: nobody overtakes, and each engine call that ends brings every waiter one place closer. */
  lemma NeverOvertaken(s: State, e: Event, c: ConnId)
    requires Inv(s) && Enabled(s, e) && c in s.waiters && c in Step(s, e).waiters
    ensures e.EngineReturns? || e.EngineOutOfMemory? || e.EngineTimesOut? ==> Ahead(Step(s, e), c) == Ahead(s, c) - 1
    ensures !(e.EngineReturns? || e.EngineOutOfMemory? || e.EngineTimesOut?) ==> Ahead(Step(s, e), c) == Ahead(s, c)
  {
    hide Inv, Step, CanStep, Position;
    LockOfStep(s, e);
    match e
    case AskLock(d) => PositionKept(s.waiters, d, c);
    case Grant(d) => NotFirst(s, c);
    case EngineReturns(d, _) => HolderEnds(s, e);
    case EngineOutOfMemory(d, _) => HolderEnds(s, e);
    case EngineTimesOut(d, _) => HolderEnds(s, e);
    case _ =>
  }

  lemma {:induction false} PositionKept(xs: seq<ConnId>, d: ConnId, c: ConnId)
    requires c in xs
    ensures c in xs + [d] && Position(xs + [d], c) == Position(xs, c)
    decreases |xs|
  {
    if xs[0] != c {
      assert (xs + [d])[1..] == xs[1..] + [d];
      PositionKept(xs[1..], d, c);
    }
  }

  lemma LockOfStep(s: State, e: Event)
    requires Enabled(s, e)
    ensures var t, l := Step(s, e), StepLock(s, e);
      if e.Exit? then t.waiters == [] else t.waiters == l.waiters && t.holder == l.holder
  {
    hide CanStep, StepConn;
  }

  lemma NotFirst(s: State, c: ConnId)
    requires Inv(s) && s.waiters != [] && c in s.waiters[1..]
    ensures Position(s.waiters, c) == Position(s.waiters[1..], c) + 1
  {
    TailOf(s.waiters);
  }

  lemma HolderEnds(s: State, e: Event)
    requires Inv(s) && Enabled(s, e) && (e.EngineReturns? || e.EngineOutOfMemory? || e.EngineTimesOut?)
    ensures s.holder == Some(e.c)
  {
    hide InStep;
  }
}

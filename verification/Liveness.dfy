/**
 What the protocol can always still do, and what a timeout lets it do: every outstanding frame can
 be answered while its handler lives, and after a timeout two engine calls can overlap.
 */
module Liveness {
  import opened Wrappers
  import Json
  import opened Protocol
  import opened Runs

  // ---------- runs, one event at a time ----------

  lemma {:induction false} AfterOneMore(s: State, events: seq<Event>, e: Event)
    requires IsRun(s, events) && Enabled(After(s, events), e)
    ensures IsRun(s, events + [e]) && After(s, events + [e]) == Step(After(s, events), e)
    decreases |events|
  {
    hide Step, Enabled;
    if events == [] {
      assert events + [e] == [e];
      assert IsRun(Step(s, e), []);
    } else {
      assert (events + [e])[1..] == events[1..] + [e];
      AfterOneMore(Step(s, events[0]), events[1..], e);
    }
  }

  // ---------- every outstanding frame can be answered ----------

  /** The reply exists, or the handler that will make it is alive. */
  predicate CanBeAnswered(k: Conn) {
    k.open && match k.edge
      case Reading => false
      case Rejecting(_) => true
      case Delivering(_, _) => true
      case _ => k.up != [] || !(k.handler.Stopped? || (k.handler.Dying? && k.handler.written))
  }

  /** Steps of the edge and of the handler that remain until the reply is sent. */
  function Remaining(k: Conn): nat {
    match k.edge
    case Reading => 0
    case Rejecting(_) => 1
    case Delivering(_, _) => 1
    case Awaiting(_) => 2 + (if k.up != [] then 0 else HandlerRemaining(k.handler))
    case HeaderSent(_) => 3 + HandlerRemaining(k.handler)
    case Sending(_) => 4 + HandlerRemaining(k.handler)
  }

  function HandlerRemaining(h: Handler): nat {
    match h
    case WaitHeader => 6
    case GotHeader(_) => 5
    case Ready(_, _) => 4
    case Queued(_, _) => 3
    case Running(_, _) => 2
    case _ => 1
  }

  /** Steps of others that a queued frame waits for: two for each frame ahead, but one for the holder. */
  ghost function OthersRemaining(s: State, c: ConnId): nat
    requires c in s.conns
  {
    if c in s.waiters then 2 * Position(s.waiters, c) + (if s.holder.Some? then 1 else 0) else 0
  }

  /** An event that brings the answer to the frame of `c` closer. */
  function NextFor(s: State, c: ConnId): Event
    requires c in s.conns
  {
    var k := s.conns[c];
    match k.edge
    case Reading => CloseEdge(c)
    case Rejecting(_) => SendRejection(c)
    case Sending(_) => SendHeader(c)
    case HeaderSent(_) => SendPayload(c)
    case Delivering(_, _) => SendReply(c)
    case Awaiting(_) =>
      if k.up != [] then TakeReply(c)
      else
        match k.handler
        case WaitHeader => ReadHeader(c)
        case GotHeader(_) => ReadPayload(c)
        case Ready(_, _) => AskLock(c)
        case Running(_, _) => EngineReturns(c, Json.Null)
        case Queued(_, _) =>
          if s.holder.Some? then EngineReturns(s.holder.value, Json.Null)
          else if s.waiters != [] then Grant(s.waiters[0])
          else CloseEdge(c)
        case _ => WriteReply(c)
  }

  predicate Replied(before: Conn, after: Conn) {
    && !before.edge.Reading?
    && |after.replies| == |before.replies| + 1 && before.replies <= after.replies
    && Answers(after.replies[|before.replies|], before.edge.frame)
  }

  /** The same frame is being worked on, with the same texts sent so far. */
  predicate SameFrame(before: Conn, after: Conn) {
    && !before.edge.Reading? && !after.edge.Reading?
    && after.edge.frame == before.edge.frame && after.replies == before.replies
  }

  lemma NextIsEnabled(s: State, c: ConnId)
    requires Inv(s) && c in s.conns && CanBeAnswered(s.conns[c])
    ensures var e := NextFor(s, c);
      && Enabled(s, e) && !e.Connect? && !e.OrphanEnds? && !e.Exit?
      && (e.c != c ==> s.conns[c].handler.Queued? && s.conns[c].edge.Awaiting? && s.conns[c].up == [])
  {
    hide History, Answers, Distinct;
  }

  /** A step of this connection's own. */
  lemma OwnStep(k: Conn, e: Event, free: bool)
    requires InStep(k) && CanBeAnswered(k) && CanStep(k, e)
    requires IsEdgeStep(e) || IsHandlerStep(e)
    requires IsHandlerStep(e) ==> k.edge.Awaiting? && k.up == []
    ensures var t := StepConn(k, e, free);
      Replied(k, t) || (SameFrame(k, t) && CanBeAnswered(t) && Remaining(t) < Remaining(k))
  {
  }

  predicate IsEdgeStep(e: Event) {
    e.SendRejection? || e.SendHeader? || e.SendPayload? || e.TakeReply? || e.SendReply?
  }

  predicate IsHandlerStep(e: Event) {
    e.ReadHeader? || e.ReadPayload? || e.AskLock? || e.Grant? || e.EngineReturns? || e.WriteReply?
  }

  lemma OwnNext(s: State, c: ConnId)
    requires c in s.conns && CanBeAnswered(s.conns[c])
    ensures var e := NextFor(s, c);
      && (IsEdgeStep(e) || IsHandlerStep(e) || e.CloseEdge?)
      && (IsHandlerStep(e) ==> s.conns[c].edge.Awaiting? && s.conns[c].up == [])
  {
  }

  lemma NeverCloses(s: State, c: ConnId)
    requires Inv(s) && c in s.conns && CanBeAnswered(s.conns[c])
    ensures !NextFor(s, c).CloseEdge?
  {
    hide InStep;
  }

  lemma StepOfOne(s: State, e: Event)
    requires Enabled(s, e) && !e.Connect? && !e.OrphanEnds? && !e.Exit?
    ensures e.c in s.conns && CanStep(s.conns[e.c], e)
    ensures Step(s, e).conns == s.conns[e.c := StepConn(s.conns[e.c], e, IsFree(s))]
  {
    hide CanStep, StepConn;
  }

  /** A step of the connection that a queued one waits for. */
  lemma OthersStep(s: State, c: ConnId)
    requires Inv(s) && c in s.conns && s.conns[c].handler.Queued?
    requires s.conns[c].edge.Awaiting? && s.conns[c].up == [] && NextFor(s, c).c != c && Enabled(s, NextFor(s, c))
    ensures var t := Step(s, NextFor(s, c));
      c in t.conns && t.conns[c] == s.conns[c] && OthersRemaining(t, c) < OthersRemaining(s, c)
  {
    hide CanStep, StepConn, Position, InStep;
    var e := NextFor(s, c);
    assert c in s.waiters;
    StepOfOne(s, e);
    LockOfStep(s, e);
    if e.Grant? {
      assert c in s.waiters[1..] by { TailOf(s.waiters); }
      NotFirst(s, c);
    }
  }

  lemma Advances(s: State, c: ConnId)
    requires Inv(s) && c in s.conns && CanBeAnswered(s.conns[c])
    ensures Enabled(s, NextFor(s, c))
    ensures var t := Step(s, NextFor(s, c));
      && Inv(t) && c in t.conns
      && (Replied(s.conns[c], t.conns[c])
          || (SameFrame(s.conns[c], t.conns[c]) && CanBeAnswered(t.conns[c])
              && (Remaining(t.conns[c]) < Remaining(s.conns[c])
                  || (t.conns[c] == s.conns[c] && OthersRemaining(t, c) < OthersRemaining(s, c)))))
  {
    NextIsEnabled(s, c);
    OwnNext(s, c);
    NeverCloses(s, c);
    var e := NextFor(s, c);
    InvKept(s, e);
    StepOfOne(s, e);
    hide Step, StepConn, CanStep, NextFor, InStep, LockInv, OthersRemaining, Remaining, Replied, CanBeAnswered;
    if e.c == c {
      OwnStep(s.conns[c], e, IsFree(s));
    } else {
      OthersStep(s, c);
      assert SameFrame(s.conns[c], s.conns[c]);
    }
  }

  /** From any state in which a frame can be answered, some run answers it. */
  lemma {:induction false} AnswerFrom(s: State, c: ConnId) returns (events: seq<Event>)
    requires Inv(s) && c in s.conns && CanBeAnswered(s.conns[c])
    ensures IsRun(s, events) && c in After(s, events).conns && Replied(s.conns[c], After(s, events).conns[c])
    decreases Remaining(s.conns[c]), OthersRemaining(s, c)
  {
    hide Inv, Step, NextFor, CanBeAnswered, Enabled, OthersRemaining, Remaining;
    Advances(s, c);
    var e := NextFor(s, c);
    var t := Step(s, e);
    if Replied(s.conns[c], t.conns[c]) {
      events := [e];
      assert IsRun(t, []);
    } else {
      var more := AnswerFrom(t, c);
      events := [e] + more;
      assert events[1..] == more;
    }
  }

  /** Main result: no run leads to a place where a frame whose handler lives can no longer be answered. */
  lemma EveryFrameCanBeAnswered(events: seq<Event>, c: ConnId)
    requires IsRun(INIT, events) && c in After(INIT, events).conns && CanBeAnswered(After(INIT, events).conns[c])
    ensures var s := After(INIT, events);
      exists more :: IsRun(s, more) && c in After(s, more).conns && Replied(s.conns[c], After(s, more).conns[c])
  {
    hide IsRun, After, Inv, CanBeAnswered, Replied;
    InvInit();
    InvAfter(INIT, events);
    var more := AnswerFrom(After(INIT, events), c);
  }

  // ---------- an open connection is served ----------

  /** As long as its client is there, the handler of a connection is. */
  predicate IsServed(s: State, c: ConnId) {
    c in s.conns && s.conns[c].open ==> !s.conns[c].handler.Stopped? && !s.conns[c].handler.Dying?
  }

  /** The worker ends, or its engine fails on this connection. */
  predicate EndsService(e: Event, c: ConnId) {
    e.Exit? || (FailsEngine(e) && e.c == c)
  }

  lemma ServedByConn(k: Conn, e: Event, free: bool)
    requires CanStep(k, e)
    ensures var m := StepConn(k, e, free);
      !FailsEngine(e) && (k.open ==> !k.handler.Stopped? && !k.handler.Dying?) ==>
        (m.open ==> !m.handler.Stopped? && !m.handler.Dying?)
  {
  }

  lemma ServedByStep(s: State, e: Event, c: ConnId)
    requires Enabled(s, e) && IsServed(s, c) && !EndsService(e, c)
    ensures IsServed(Step(s, e), c)
  {
    hide CanStep, StepConn, StepLock;
    StepLockConns(s, e);
    match e
    case Connect(_) => assert FRESH.handler.WaitHeader?;
    case OrphanEnds =>
    case Exit(_) =>
    case _ => ServedByConn(s.conns[e.c], e, IsFree(s));
  }

  lemma {:induction false} ServedAfter(s: State, events: seq<Event>, c: ConnId)
    requires IsRun(s, events) && IsServed(s, c) && forall e | e in events :: !EndsService(e, c)
    ensures IsServed(After(s, events), c)
    decreases |events|
  {
    hide Step, Enabled, IsServed, EndsService;
    if events != [] {
      assert events[0] in events;
      ServedByStep(s, events[0], c);
      ServedAfter(Step(s, events[0]), events[1..], c);
    }
  }

  /**
   Main result: as long as the worker has not ended and its engine has not failed on this connection,
   a frame whose client is still there can be answered.
   */
  lemma WaitingCanBeAnswered(events: seq<Event>, c: ConnId)
    requires IsRun(INIT, events) && c in After(INIT, events).conns && forall e | e in events :: !EndsService(e, c)
    requires After(INIT, events).conns[c].open && !After(INIT, events).conns[c].edge.Reading?
    ensures var s := After(INIT, events);
      exists more :: IsRun(s, more) && c in After(s, more).conns && Replied(s.conns[c], After(s, more).conns[c])
  {
    hide IsRun, After, Replied;
    ServedAfter(INIT, events, c);
    EveryFrameCanBeAnswered(events, c);
  }

  // ---------- a timeout lets two engine calls overlap ----------

  lemma EmptyRun(s: State)
    ensures IsRun(s, []) && After(s, []) == s
  {
  }

  /** A new connection takes a frame and its handler reads the request. */
  lemma ToReady(events: seq<Event>, c: ConnId, frame: ClientFrame) returns (more: seq<Event>)
    requires IsRun(INIT, events) && c !in After(INIT, events).conns && frame.outcome.Accepted?
    ensures IsRun(INIT, more)
    ensures var s := After(INIT, events);
      var ready := Conn(true, Awaiting(frame), [], [], Ready(frame.id, frame.outcome.job), [frame], []);
      After(INIT, more) == s.(conns := s.conns[c := ready])
  {
    hide IsRun, After;
    var s, k := After(INIT, events), FRESH;
    AfterOneMore(INIT, events, Connect(c));
    more := events + [Connect(c)];
    var todo := [Receive(c, frame), SendHeader(c), SendPayload(c), ReadHeader(c), ReadPayload(c)];
    for i := 0 to 5
      invariant IsRun(INIT, more) && After(INIT, more) == s.(conns := s.conns[c := k])
      invariant k == PathToReady(frame, i)
    {
      var e := todo[i];
      OnPath(e, frame, i, c);
      assert s.conns[c := k][c := StepConn(k, e, IsFree(s))] == s.conns[c := PathToReady(frame, i + 1)];
      AfterOneMore(INIT, more, e);
      more := more + [e];
      k := PathToReady(frame, i + 1);
    }
  }

  function PathToReady(f: ClientFrame, i: nat): Conn
    requires f.outcome.Accepted?
  {
    match i
    case 0 => FRESH
    case 1 => Conn(true, Sending(f), [], [], WaitHeader, [f], [])
    case 2 => Conn(true, HeaderSent(f), [HeaderOf(f)], [], WaitHeader, [f], [])
    case 3 => Conn(true, Awaiting(f), [HeaderOf(f), PayloadOf(f)], [], WaitHeader, [f], [])
    case 4 => Conn(true, Awaiting(f), [PayloadOf(f)], [], GotHeader(HeaderOf(f)), [f], [])
    case _ => Conn(true, Awaiting(f), [], [], Ready(f.id, f.outcome.job), [f], [])
  }

  lemma OnPath(e: Event, f: ClientFrame, i: nat, c: ConnId)
    requires i < 5 && f.outcome.Accepted?
    requires e == [Receive(c, f), SendHeader(c), SendPayload(c), ReadHeader(c), ReadPayload(c)][i]
    ensures CanStep(PathToReady(f, i), e)
    ensures forall free :: StepConn(PathToReady(f, i), e, free) == PathToReady(f, i + 1)
    ensures forall s: State :: StepLock(s, e) == s
    ensures e.c == c && (e.Receive? || e.SendHeader? || e.SendPayload? || e.ReadHeader? || e.ReadPayload?)
  {
  }

  /** One connection in an engine call, the other waiting for the lock. */
  lemma OneBehindTheOther(frame: ClientFrame) returns (events: seq<Event>)
    requires frame.outcome.Accepted?
    ensures IsRun(INIT, events)
    ensures var s := After(INIT, events);
      && s.holder == Some(0) && s.waiters == [1] && s.running == 1 && s.timeouts == 0
      && 0 in s.conns && 1 in s.conns && s.conns[0].handler.Running? && s.conns[1].handler.Queued?
      && s.conns[0].open
  {
    EmptyRun(INIT);
    events := ToReady([], 0, frame);
    events := ToReady(events, 1, frame);
    hide IsRun, After;
    AfterOneMore(INIT, events, AskLock(0));
    events := events + [AskLock(0)];
    AfterOneMore(INIT, events, AskLock(1));
    events := events + [AskLock(1)];
  }

  /**
   Main result: the bound of `OneEngineCall` needs its condition. The client of a running call leaves,
   the call times out, the next in line is granted the lock, and two calls run at once.
   */
  lemma TimeoutOverlaps(frame: ClientFrame) returns (events: seq<Event>)
    requires frame.outcome.Accepted?
    ensures IsRun(INIT, events) && After(INIT, events).timeouts == 1 && After(INIT, events).running == 2
  {
    hide IsRun, After;
    events := OneBehindTheOther(frame);
    AfterOneMore(INIT, events, CloseEdge(0));
    events := events + [CloseEdge(0)];
    AfterOneMore(INIT, events, EngineTimesOut(0, Json.Null));
    events := events + [EngineTimesOut(0, Json.Null)];
    AfterOneMore(INIT, events, Grant(1));
    events := events + [Grant(1)];
  }

  // ---------- every event happens ----------

  ghost predicate CanHappen(e: Event) {
    exists events :: IsRun(INIT, events) && Enabled(After(INIT, events), e)
  }

  lemma OneMore(events: seq<Event>, e: Event) returns (more: seq<Event>)
    requires IsRun(INIT, events) && Enabled(After(INIT, events), e)
    ensures CanHappen(e) && IsRun(INIT, more) && After(INIT, more) == Step(After(INIT, events), e)
  {
    hide IsRun, After, Enabled, Step;
    AfterOneMore(INIT, events, e);
    more := events + [e];
  }

  /** The same for an event on a connection: what it does there, and to the lock. */
  lemma OneMoreOn(events: seq<Event>, e: Event, c: ConnId) returns (more: seq<Event>)
    requires IsRun(INIT, events) && Enabled(After(INIT, events), e)
    requires !e.Connect? && !e.OrphanEnds? && !e.Exit? && e.c == c
    ensures var s := After(INIT, events);
      && c in s.conns && CanStep(s.conns[c], e)
      && CanHappen(e) && IsRun(INIT, more)
      && After(INIT, more) == StepLock(s, e).(conns := s.conns[c := StepConn(s.conns[c], e, IsFree(s))])
  {
    hide IsRun, After, CanStep, StepConn, StepLock, CanHappen;
    more := OneMore(events, e);
  }

  /** A connection with no more done than its opening. */
  lemma Opened(c: ConnId) returns (events: seq<Event>)
    ensures CanHappen(Connect(c))
    ensures IsRun(INIT, events) && After(INIT, events) == INIT.(conns := map[c := FRESH])
  {
    EmptyRun(INIT);
    hide IsRun, After, CanHappen;
    events := OneMore([], Connect(c));
    assert INIT.conns[c := FRESH] == map[c := FRESH];
  }

  lemma EdgeAlone(c: ConnId, f: ClientFrame, kept: map<ConnId, nat>)
    ensures CanHappen(Connect(c)) && CanHappen(Receive(c, f)) && CanHappen(CloseEdge(c)) && CanHappen(HandlerStops(c))
    ensures f.outcome.Rejected? ==> CanHappen(SendRejection(c))
    ensures CanHappen(Exit(kept))
  {
    hide IsRun, After, CanHappen, Step;
    var events := Opened(c);
    if f.outcome.Rejected? {
      Rejected(events, c, f);
    }
    var received := OneMoreOn(events, Receive(c, f), c);
    Abandoned(events, c);
    var exited := OneMore(events, Exit(kept));
  }

  lemma Rejected(events: seq<Event>, c: ConnId, f: ClientFrame)
    requires f.outcome.Rejected?
    requires IsRun(INIT, events) && After(INIT, events) == INIT.(conns := map[c := FRESH])
    ensures CanHappen(SendRejection(c))
  {
    hide IsRun, After, CanHappen, Step;
    var received := OneMoreOn(events, Receive(c, f), c);
    var rejected := OneMoreOn(received, SendRejection(c), c);
  }

  lemma Abandoned(events: seq<Event>, c: ConnId)
    requires IsRun(INIT, events) && After(INIT, events) == INIT.(conns := map[c := FRESH])
    ensures CanHappen(CloseEdge(c)) && CanHappen(HandlerStops(c))
  {
    hide IsRun, After, CanHappen, Step;
    var closed := OneMoreOn(events, CloseEdge(c), c);
    var stopped := OneMoreOn(closed, HandlerStops(c), c);
  }

  /** The way of one request to its handler. */
  lemma Requested(c: ConnId, f: ClientFrame) returns (events: seq<Event>)
    requires f.outcome.Accepted?
    ensures CanHappen(SendHeader(c)) && CanHappen(SendPayload(c)) && CanHappen(ReadHeader(c))
            && CanHappen(ReadPayload(c))
    ensures IsRun(INIT, events) && After(INIT, events) == INIT.(conns := map[c := PathToReady(f, 5)])
  {
    hide IsRun, After, CanHappen, Step;
    events := Opened(c);
    var todo := [Receive(c, f), SendHeader(c), SendPayload(c), ReadHeader(c), ReadPayload(c)];
    for i := 0 to 5
      invariant IsRun(INIT, events) && After(INIT, events) == INIT.(conns := map[c := PathToReady(f, i)])
      invariant forall j | 0 <= j < i :: CanHappen(todo[j])
    {
      OnPath(todo[i], f, i, c);
      events := OneMoreOn(events, todo[i], c);
      assert map[c := PathToReady(f, i)][c := PathToReady(f, i + 1)] == map[c := PathToReady(f, i + 1)];
    }
    assert CanHappen(todo[1]) && CanHappen(todo[2]) && CanHappen(todo[3]) && CanHappen(todo[4]);
  }

  /** What can become of it there, and of its reply. */
  lemma Served(c: ConnId, f: ClientFrame, v: Verdict)
    requires f.outcome.Accepted?
    ensures CanHappen(Refuse(c, v)) && CanHappen(AskLock(c)) && CanHappen(EngineReturns(c, v))
    ensures CanHappen(EngineOutOfMemory(c, v)) && CanHappen(EngineTimesOut(c, v)) && CanHappen(OrphanEnds)
    ensures CanHappen(ReplyTooLarge(c, v)) && CanHappen(WriteReply(c)) && CanHappen(TakeReply(c))
            && CanHappen(SendReply(c))
  {
    hide IsRun, After, CanHappen, Step;
    var events := Requested(c, f);
    var refused := OneMoreOn(events, Refuse(c, v), c);
    var asked := OneMoreOn(events, AskLock(c), c);
    var noMemory := OneMoreOn(asked, EngineOutOfMemory(c, v), c);
    var late := OneMoreOn(asked, EngineTimesOut(c, v), c);
    var ended := OneMore(late, OrphanEnds);
    var returned := OneMoreOn(asked, EngineReturns(c, v), c);
    var replaced := OneMoreOn(returned, ReplyTooLarge(c, v), c);
    var written := OneMoreOn(returned, WriteReply(c), c);
    var taken := OneMoreOn(written, TakeReply(c), c);
    var sent := OneMoreOn(taken, SendReply(c), c);
  }

  /** A handler that waits for the lock is granted it. */
  lemma Granted(c: ConnId, f: ClientFrame)
    requires f.outcome.Accepted?
    ensures CanHappen(Grant(c))
  {
    hide IsRun, After, CanHappen, Step;
    EmptyRun(INIT);
    var other := c + 1;
    var events := ToReady([], other, f);
    events := ToReady(events, c, f);
    events := OneMoreOn(events, AskLock(other), other);
    events := OneMoreOn(events, AskLock(c), c);
    Released(events, other, c);
  }

  lemma Released(events: seq<Event>, other: ConnId, c: ConnId)
    requires other != c && IsRun(INIT, events)
    requires var s := After(INIT, events);
      && s.waiters == [c] && c in s.conns && s.conns[c].handler.Queued?
      && other in s.conns && s.conns[other].handler.Running?
    ensures CanHappen(Grant(c))
  {
    hide IsRun, After, CanHappen, Step;
    var free := OneMoreOn(events, EngineReturns(other, Json.Null), other);
    var granted := OneMoreOn(free, Grant(c), c);
  }

  /**
   Main result: nothing in the protocol is there in vain. On any connection, for any frame and any
   verdict, each of its events happens in some run.
   */
  lemma EveryEventCanHappen(c: ConnId, f: ClientFrame, v: Verdict, kept: map<ConnId, nat>)
    ensures CanHappen(Connect(c)) && CanHappen(Receive(c, f)) && CanHappen(CloseEdge(c)) && CanHappen(HandlerStops(c))
    ensures CanHappen(Exit(kept)) && CanHappen(OrphanEnds)
    ensures f.outcome.Rejected? ==> CanHappen(SendRejection(c))
    ensures CanHappen(SendHeader(c)) && CanHappen(SendPayload(c)) && CanHappen(ReadHeader(c))
            && CanHappen(ReadPayload(c))
    ensures CanHappen(Refuse(c, v)) && CanHappen(AskLock(c)) && CanHappen(Grant(c)) && CanHappen(EngineReturns(c, v))
    ensures CanHappen(EngineOutOfMemory(c, v)) && CanHappen(EngineTimesOut(c, v))
    ensures CanHappen(ReplyTooLarge(c, v)) && CanHappen(WriteReply(c)) && CanHappen(TakeReply(c))
            && CanHappen(SendReply(c))
  {
    hide CanHappen;
    var g := ClientFrame("a", Accepted(Job("", "", "", [])));
    EdgeAlone(c, f, kept);
    var events := Requested(c, g);
    Served(c, g, v);
    Granted(c, g);
  }
}

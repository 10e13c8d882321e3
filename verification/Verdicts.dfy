/**
 What is true of every verdict the worker gives is true of every verdict a client is sent: replies
 travel unchanged, with the id and the job they were made for.
 */
module Verdicts {
  import opened Protocol
  import opened Runs

  /** A property of the id, the job and the verdict of a reply. */
  type Law = (string, Job, Verdict) -> bool

  predicate Obeys(law: Law, r: Reply) {
    r.body.Worked? ==> law(r.id, r.body.of, r.body.verdict)
  }

  /** Every reply the connection has made, and not lost, obeys. */
  predicate AllObey(law: Law, k: Conn) {
    && (forall r | r in k.up :: Obeys(law, r))
    && (forall r | r in k.replies :: Obeys(law, r))
    && (k.edge.Delivering? ==> Obeys(law, k.edge.reply))
    && (k.handler.Replying? || k.handler.Dying? ==> Obeys(law, k.handler.reply))
  }

  /** If the event gives a verdict, it is a lawful one for the request its handler works on. */
  predicate GivesLawful(law: Law, k: Conn, e: Event)
    requires CanStep(k, e)
  {
    match e
    case Refuse(_, v) => law(k.handler.id, k.handler.job, v)
    case EngineReturns(_, v) => law(k.handler.id, k.handler.job, v)
    case EngineOutOfMemory(_, v) => law(k.handler.id, k.handler.job, v)
    case EngineTimesOut(_, v) => law(k.handler.id, k.handler.job, v)
    case ReplyTooLarge(_, v) => law(k.handler.reply.id, k.handler.reply.body.of, v)
    case _ => true
  }

  predicate IsLawful(law: Law, s: State, e: Event)
    requires Enabled(s, e)
  {
    e.Connect? || e.OrphanEnds? || e.Exit? || GivesLawful(law, s.conns[e.c], e)
  }

  /** Every verdict given in the run is lawful. */
  ghost predicate IsLawfulRun(law: Law, s: State, events: seq<Event>)
    requires IsRun(s, events)
    decreases |events|
  {
    events == [] || (IsLawful(law, s, events[0]) && IsLawfulRun(law, Step(s, events[0]), events[1..]))
  }

  lemma RepliesObey(law: Law, k: Conn, e: Event, free: bool)
    requires AllObey(law, k) && CanStep(k, e) && GivesLawful(law, k, e)
    ensures AllObey(law, StepConn(k, e, free))
  {
  }

  lemma StepObeys(law: Law, s: State, e: Event)
    requires Enabled(s, e) && IsLawful(law, s, e) && forall c | c in s.conns :: AllObey(law, s.conns[c])
    ensures forall c | c in Step(s, e).conns :: AllObey(law, Step(s, e).conns[c])
  {
    hide CanStep, StepConn, StepLock, AllObey, GivesLawful, Cut;
    StepLockConns(s, e);
    match e
    case Connect(_) => FreshObeys(law);
    case OrphanEnds =>
    case Exit(kept) =>
      forall c | c in s.conns
        ensures AllObey(law, Cut(s.conns[c], if c in kept then kept[c] else |s.conns[c].up|))
      {
        CutObeys(law, s.conns[c], if c in kept then kept[c] else |s.conns[c].up|);
      }
    case _ => RepliesObey(law, s.conns[e.c], e, IsFree(s));
  }

  lemma FreshObeys(law: Law)
    ensures AllObey(law, FRESH)
  {
  }

  lemma CutObeys(law: Law, k: Conn, kept: nat)
    requires AllObey(law, k)
    ensures AllObey(law, Cut(k, kept))
  {
  }

  lemma {:induction false} RunObeys(law: Law, s: State, events: seq<Event>)
    requires IsRun(s, events) && IsLawfulRun(law, s, events) && forall c | c in s.conns :: AllObey(law, s.conns[c])
    ensures forall c | c in After(s, events).conns :: AllObey(law, After(s, events).conns[c])
    decreases |events|
  {
    hide Step, Enabled, AllObey, IsLawful;
    if events != [] {
      StepObeys(law, s, events[0]);
      RunObeys(law, Step(s, events[0]), events[1..]);
    }
  }

  /** Main result: after a run in which every verdict given is lawful, so is every verdict sent to a client. */
  lemma RepliesAreLawful(law: Law, events: seq<Event>, c: ConnId)
    requires IsRun(INIT, events) && IsLawfulRun(law, INIT, events) && c in After(INIT, events).conns
    ensures forall r | r in After(INIT, events).conns[c].replies :: Obeys(law, r)
  {
    hide IsRun, After, IsLawfulRun;
    RunObeys(law, INIT, events);
  }
}

/**
 The protocol over byte streams: frames are encoded, appended to a stream, and taken from its front;
 a stream may end in the middle of a frame when either end goes away. Every run over bytes is a run of
 `Protocol` in which the wires carry exactly the frames that can be read from the streams.
 */
module ByteWires {
  import opened Wrappers
  import opened Bytes
  import opened Framing
  import opened Protocol
  import opened Runs
  import opened Verdicts

  // ---------- what travels ----------

  /** How headers and replies are written as JSON and read back; the job of a reply is not written. */
  datatype Codec = Codec(
    writeHeader: UdsFrame -> seq<byte>, readHeader: seq<byte> -> UdsFrame,
    writeReply: (string, Option<Verdict>) -> seq<byte>, readReply: seq<byte> -> (string, Verdict))
  {
    /** A payload is the image, as it is: only its place in the stream says that it is no header. */
    function Down(f: UdsFrame): seq<byte> {
      match f
      case Header(_, _, _, _) => writeHeader(f)
      case Payload(jpeg) => jpeg
    }

    function Up(r: Reply): seq<byte> {
      writeReply(r.id, if r.body.Worked? then Some(r.body.verdict) else None)
    }
  }

  ghost predicate IsCodec(x: Codec) {
    && (forall f: UdsFrame | f.Header? && IsFrame(x.writeHeader(f)) :: x.readHeader(x.writeHeader(f)) == f)
    && (forall id: string, v: Verdict | IsFrame(x.writeReply(id, Some(v))) ::
          x.readReply(x.writeReply(id, Some(v))) == (id, v))
  }

  predicate IsFrame(data: seq<byte>) {
    |data| <= MAX_FRAME_BYTES
  }

  function DownBytes(x: Codec, fs: seq<UdsFrame>): (bs: seq<seq<byte>>)
    ensures |bs| == |fs| && forall i | 0 <= i < |fs| :: bs[i] == x.Down(fs[i])
  {
    seq(|fs|, i requires 0 <= i < |fs| => x.Down(fs[i]))
  }

  function UpBytes(x: Codec, rs: seq<Reply>): (bs: seq<seq<byte>>)
    ensures |bs| == |rs| && forall i | 0 <= i < |rs| :: bs[i] == x.Up(rs[i])
  {
    seq(|rs|, i requires 0 <= i < |rs| => x.Up(rs[i]))
  }

  // ---------- one connection ----------

  /** The two ends of a connection, which hold no frames, and the bytes between them. */
  datatype Wired = Wired(k: Conn, down: seq<byte>, up: seq<byte>)

  /** The edge does not learn which job a reply was made for. */
  const NO_JOB := Job("", "", "", [])

  /** The ends with the frame that the event takes, decoded, if it takes one and all of it is there. */
  function Loaded(x: Codec, w: Wired, e: Event): Conn {
    match e
    case ReadHeader(_) =>
      (match ReadFrom(w.down)
       case Frame(data) => w.k.(down := [x.readHeader(data)])
       case _ => w.k)
    case ReadPayload(_) =>
      (match ReadFrom(w.down)
       case Frame(data) => w.k.(down := [Payload(data)])
       case _ => w.k)
    case TakeReply(_) =>
      (match ReadFrom(w.up)
       case Frame(data) =>
         var (id, verdict) := x.readReply(data);
         w.k.(up := [Reply(id, Worked(NO_JOB, verdict))])
       case _ => w.k)
    case _ => w.k
  }

  /** A frame that is written must fit, and only a reply that does not fit is replaced. */
  predicate CanStepBytes(x: Codec, w: Wired, e: Event, free: bool) {
    CanStep(Loaded(x, w, e), e)
    && var m := StepConn(Loaded(x, w, e), e, free);
    && (forall f | f in m.down :: IsFrame(x.Down(f)))
    && (forall r | r in m.up :: IsFrame(x.Up(r)))
    && (e.ReplyTooLarge? ==> !IsFrame(x.Up(w.k.handler.reply)))
  }

  /** The stream behind its first frame, if the event takes it. */
  function Rest(stream: seq<byte>, taken: bool): seq<byte> {
    match ReadFrom(stream)
    case Frame(data) => if taken then stream[LEN_PREFIX + |data|..] else stream
    case _ => stream
  }

  /** The ends do what the protocol says; what they send goes to the end of the stream. */
  function StepBytes(x: Codec, w: Wired, e: Event, free: bool): Wired
    requires CanStepBytes(x, w, e, free)
  {
    var m := StepConn(Loaded(x, w, e), e, free);
    Wired(
      m.(down := [], up := []),
      Rest(w.down, e.ReadHeader? || e.ReadPayload?) + (if m.down == [] then [] else Encode(x.Down(m.down[0]))),
      Rest(w.up, e.TakeReply?) + (if m.up == [] then [] else Encode(x.Up(m.up[0]))))
  }

  /** The edge is writing a frame. */
  predicate IsSending(k: Conn) {
    k.open && (k.edge.Sending? || k.edge.HeaderSent?) && k.edge.frame.outcome.Accepted?
  }

  function Outgoing(k: Conn): UdsFrame
    requires IsSending(k)
  {
    if k.edge.Sending? then HeaderOf(k.edge.frame) else PayloadOf(k.edge.frame)
  }

  /** The edge goes away with `n` bytes of the frame written. */
  function CloseAt(x: Codec, w: Wired, n: nat): Wired
    requires IsSending(w.k) && IsFrame(x.Down(Outgoing(w.k))) && n < |Encode(x.Down(Outgoing(w.k)))|
  {
    Wired(w.k.(open := false), w.down + Encode(x.Down(Outgoing(w.k)))[..n], w.up)
  }

  /** The handler finds its peer gone with `n` bytes of the reply written. */
  function StopAt(x: Codec, w: Wired, n: nat): Wired
    requires w.k.handler.Replying? && IsFrame(x.Up(w.k.handler.reply)) && n < |Encode(x.Up(w.k.handler.reply))|
  {
    Wired(w.k.(handler := Stopped), w.down, w.up + Encode(x.Up(w.k.handler.reply))[..n])
  }

  /** The worker process is gone, with any number of the bytes it had written. */
  function CutAt(w: Wired, n: nat): Wired {
    Wired(w.k.(handler := Stopped), w.down, if n <= |w.up| then w.up[..n] else w.up)
  }

  // ---------- the whole system ----------

  /** The lock is a state without connections. */
  datatype ByteState = ByteState(lock: State, conns: map<ConnId, Wired>)

  const BYTE_INIT := ByteState(INIT, map[])

  /** A step of the protocol, or one end going away in the middle of a frame. */
  datatype ByteEvent =
    | Whole(e: Event)
    | CloseMidway(c: ConnId, n: nat)
    | StopMidway(c: ConnId, n: nat)
    | Crash(kept: map<ConnId, nat>)

  /** An exit is a `Crash`, which counts bytes. */
  predicate EnabledWhole(x: Codec, b: ByteState, e: Event) {
    match e
    case Connect(c) => c !in b.conns
    case OrphanEnds => b.lock.orphans > 0
    case Exit(_) => false
    case Grant(c) =>
      && c in b.conns && CanStepBytes(x, b.conns[c], e, IsFree(b.lock))
      && b.lock.holder.None? && b.lock.waiters != [] && b.lock.waiters[0] == c
    case _ => e.c in b.conns && CanStepBytes(x, b.conns[e.c], e, IsFree(b.lock))
  }

  predicate EnabledBytes(x: Codec, b: ByteState, be: ByteEvent) {
    match be
    case Whole(e) => EnabledWhole(x, b, e)
    case CloseMidway(c, n) =>
      && c in b.conns && IsSending(b.conns[c].k)
      && var data := x.Down(Outgoing(b.conns[c].k));
      IsFrame(data) && n < |Encode(data)|
    case StopMidway(c, n) =>
      && c in b.conns && !b.conns[c].k.open && b.conns[c].k.handler.Replying?
      && var data := x.Up(b.conns[c].k.handler.reply);
      IsFrame(data) && n < |Encode(data)|
    case Crash(_) => true
  }

  function Kept(b: ByteState, kept: map<ConnId, nat>, c: ConnId): nat
    requires c in b.conns
  {
    if c in kept then kept[c] else |b.conns[c].up|
  }

  function WholeStep(x: Codec, b: ByteState, e: Event): ByteState
    requires EnabledWhole(x, b, e)
  {
    match e
    case Connect(c) => b.(conns := b.conns[c := Wired(FRESH, [], [])])
    case OrphanEnds => b.(lock := StepLock(b.lock, e))
    case Exit(_) => b
    case _ => ByteState(StepLock(b.lock, e), b.conns[e.c := StepBytes(x, b.conns[e.c], e, IsFree(b.lock))])
  }

  function ByteStep(x: Codec, b: ByteState, be: ByteEvent): ByteState
    requires EnabledBytes(x, b, be)
  {
    match be
    case Whole(e) => WholeStep(x, b, e)
    case CloseMidway(c, n) => b.(conns := b.conns[c := CloseAt(x, b.conns[c], n)])
    case StopMidway(c, n) => b.(conns := b.conns[c := StopAt(x, b.conns[c], n)])
    case Crash(kept) => ByteState(INIT, map c | c in b.conns :: CutAt(b.conns[c], Kept(b, kept, c)))
  }

  ghost predicate IsByteRun(x: Codec, b: ByteState, bes: seq<ByteEvent>)
    decreases |bes|
  {
    bes == [] || (EnabledBytes(x, b, bes[0]) && IsByteRun(x, ByteStep(x, b, bes[0]), bes[1..]))
  }

  ghost function ByteAfter(x: Codec, b: ByteState, bes: seq<ByteEvent>): ByteState
    requires IsByteRun(x, b, bes)
    decreases |bes|
  {
    if bes == [] then b else ByteAfter(x, ByteStep(x, b, bes[0]), bes[1..])
  }

  /** The event of the protocol: a cut stream leaves the frames that are whole in it. */
  function AsWhole(b: ByteState, be: ByteEvent): Event {
    match be
    case Whole(e) => e
    case CloseMidway(c, _) => CloseEdge(c)
    case StopMidway(c, _) => HandlerStops(c)
    case Crash(kept) => Exit(map c | c in b.conns :: |ReadAll(CutAt(b.conns[c], Kept(b, kept, c)).up)|)
  }

  ghost function AsWholes(x: Codec, b: ByteState, bes: seq<ByteEvent>): seq<Event>
    requires IsByteRun(x, b, bes)
    decreases |bes|
  {
    if bes == [] then [] else [AsWhole(b, bes[0])] + AsWholes(x, ByteStep(x, b, bes[0]), bes[1..])
  }

  // ---------- the refinement ----------

  /** The same reply, as far as the wire tells. */
  predicate Same(r: Reply, q: Reply) {
    && r.id == q.id
    && match r.body
       case Worked(_, verdict) => q.body.Worked? && q.body.verdict == verdict
       case _ => r.body == q.body
  }

  predicate SameEdge(p: Edge, q: Edge) {
    if p.Delivering? then q.Delivering? && p.frame == q.frame && Same(p.reply, q.reply) else p == q
  }

  /** The stream is whole frames and no more. */
  predicate IsWhole(stream: seq<byte>) {
    stream == EncodeAll(ReadAll(stream))
  }

  /** The ends are in the same place, and what can be read from the streams is what the wires carry. */
  predicate Matches(x: Codec, w: Wired, k: Conn) {
    && w.k.down == [] && w.k.up == [] && SameEnds(w.k, k)
    && ReadAll(w.down) == DownBytes(x, k.down) && (k.open ==> IsWhole(w.down))
    && ReadAll(w.up) == UpBytes(x, k.up) && (!k.handler.Stopped? ==> IsWhole(w.up))
  }

  predicate SameEnds(m: Conn, k: Conn) {
    && m.open == k.open && SameEdge(m.edge, k.edge) && m.handler == k.handler && m.consumed == k.consumed
    && |m.replies| == |k.replies| && forall i | 0 <= i < |k.replies| :: Same(m.replies[i], k.replies[i])
  }

  predicate Refines(x: Codec, b: ByteState, s: State) {
    && b.lock == s.(conns := map[])
    && b.conns.Keys == s.conns.Keys
    && forall c | c in b.conns :: Matches(x, b.conns[c], s.conns[c])
  }

  // ---------- streams ----------

  lemma {:induction false} ReadBehind(frames: seq<FrameBytes>, tail: seq<byte>)
    ensures ReadAll(EncodeAll(frames) + tail) == frames + ReadAll(tail)
  {
    hide ReadAll, Encode;
    if frames == [] {
      assert EncodeAll(frames) + tail == tail;
    } else {
      var first, rest := Encode(frames[0]), EncodeAll(frames[1..]);
      assert EncodeAll(frames) + tail == first + (rest + tail);
      ReadAllStep(frames[0], rest + tail);
      ReadBehind(frames[1..], tail);
    }
  }

  /** A frame written behind whole frames is read behind them, and a part of one not at all. */
  lemma WriteOne(stream: seq<byte>, data: FrameBytes, n: nat)
    requires IsWhole(stream) && n < |Encode(data)|
    ensures IsWhole(stream + Encode(data)) && ReadAll(stream + Encode(data)) == ReadAll(stream) + [data]
    ensures ReadAll(stream + Encode(data)[..n]) == ReadAll(stream)
  {
    hide ReadAll, Encode;
    var frames := ReadAll(stream);
    EncodeAllConcat(frames, [data]);
    assert EncodeAll([data]) == Encode(data);
    ReadAllInverts(frames + [data], 0);
    ReadBehind(frames, Encode(data)[..n]);
    ReadAllCut(data, n);
  }

  lemma TakeOne(stream: seq<byte>)
    requires ReadFrom(stream).Frame?
    ensures LEN_PREFIX + |ReadFrom(stream).data| <= |stream|
    ensures ReadAll(stream) == [ReadFrom(stream).data] + ReadAll(Rest(stream, true))
    ensures IsWhole(stream) ==> IsWhole(Rest(stream, true))
  {
    var data, rest := ReadFrom(stream).data, Rest(stream, true);
    assert ReadAll(stream) == [data] + ReadAll(rest);
    if IsWhole(stream) {
      assert stream == Encode(data) + EncodeAll(ReadAll(rest));
    }
  }

  lemma CutKeepsFirst(stream: seq<byte>, n: nat)
    requires n <= |stream| && ReadFrom(stream[..n]).Frame?
    ensures ReadFrom(stream) == ReadFrom(stream[..n])
    ensures LEN_PREFIX + |ReadFrom(stream).data| <= n
  {
    hide Read32;
    var size := |ReadFrom(stream[..n]).data|;
    assert stream[..n][LEN_PREFIX..LEN_PREFIX + size] == stream[LEN_PREFIX..LEN_PREFIX + size];
  }

  lemma {:induction false} CutReadsLess(stream: seq<byte>, n: nat)
    requires n <= |stream|
    ensures ReadAll(stream[..n]) <= ReadAll(stream)
    decreases |stream|
  {
    hide ReadFrom;
    if ReadFrom(stream[..n]).Frame? {
      CutKeepsFirst(stream, n);
      var at := LEN_PREFIX + |ReadFrom(stream).data|;
      CutReadsLess(stream[at..], n - at);
      assert stream[..n][at..] == stream[at..][..n - at];
    }
  }

  // ---------- one step of one connection ----------

  predicate IsLocal(e: Event) {
    !e.SendHeader? && !e.SendPayload? && !e.WriteReply? && !e.ReadHeader? && !e.ReadPayload? && !e.TakeReply?
  }

  /** What an end does depends on what is at the front of its wire, not on what is behind. */
  lemma SameStep(m: Conn, k: Conn, e: Event, free: bool)
    requires SameEnds(m, k) && IsLocal(e) && CanStep(m, e)
    ensures CanStep(k, e) && SameEnds(StepConn(m, e, free), StepConn(k, e, free))
    ensures StepConn(m, e, free).down == m.down && StepConn(m, e, free).up == m.up
    ensures StepConn(k, e, free).down == k.down && StepConn(k, e, free).up == k.up
    ensures StepConn(k, e, free).open ==> k.open
    ensures k.handler.Stopped? ==> StepConn(k, e, free).handler.Stopped?
  {
  }

  lemma LocalMatches(x: Codec, w: Wired, k: Conn, e: Event, free: bool)
    requires Matches(x, w, k) && IsLocal(e) && CanStepBytes(x, w, e, free)
    ensures CanStep(k, e) && Matches(x, StepBytes(x, w, e, free), StepConn(k, e, free))
  {
    hide SameEnds, CanStep, StepConn, ReadAll, IsWhole, ReadFrom;
    SameStep(w.k, k, e, free);
    assert Rest(w.down, false) == w.down && Rest(w.up, false) == w.up;
    assert w.down + [] == w.down && w.up + [] == w.up;
  }

  lemma SendMatches(x: Codec, w: Wired, k: Conn, e: Event, free: bool)
    requires Matches(x, w, k) && (e.SendHeader? || e.SendPayload?) && CanStepBytes(x, w, e, free)
    ensures CanStep(k, e) && Matches(x, StepBytes(x, w, e, free), StepConn(k, e, free))
  {
    hide ReadAll, IsWhole, ReadFrom, Encode;
    var f := StepConn(w.k, e, free).down[0];
    EncodeLength(x.Down(f));
    WriteOne(w.down, x.Down(f), 0);
    assert DownBytes(x, k.down + [f]) == DownBytes(x, k.down) + [x.Down(f)];
    assert w.up + [] == w.up;
  }

  lemma EncodeLength(data: FrameBytes)
    ensures |Encode(data)| == LEN_PREFIX + |data|
  {
  }

  lemma WriteMatches(x: Codec, w: Wired, k: Conn, e: Event, free: bool)
    requires Matches(x, w, k) && e.WriteReply? && CanStepBytes(x, w, e, free)
    ensures CanStep(k, e) && Matches(x, StepBytes(x, w, e, free), StepConn(k, e, free))
  {
    hide ReadAll, IsWhole, ReadFrom, Encode;
    var r := k.handler.reply;
    EncodeLength(x.Up(r));
    WriteOne(w.up, x.Up(r), 0);
    assert UpBytes(x, k.up + [r]) == UpBytes(x, k.up) + [x.Up(r)];
    assert w.down + [] == w.down;
  }

  /** A handler takes a header for a header and a payload for a payload; a reply is one of a verdict. */
  lemma InTurn(k: Conn)
    requires InStep(k)
    ensures k.handler.WaitHeader? && k.down != [] ==> k.down[0].Header?
    ensures k.handler.GotHeader? && k.down != [] ==> k.down[0].Payload?
    ensures k.edge.Awaiting? && k.up != [] ==> k.up[0].body.Worked?
  {
  }

  lemma ReadMatches(x: Codec, w: Wired, k: Conn, e: Event, free: bool)
    requires IsCodec(x) && InStep(k)
    requires Matches(x, w, k) && (e.ReadHeader? || e.ReadPayload?) && CanStepBytes(x, w, e, free)
    ensures CanStep(k, e) && Matches(x, StepBytes(x, w, e, free), StepConn(k, e, free))
  {
    hide ReadAll, IsWhole, ReadFrom, Encode, InStep;
    InTurn(k);
    TakeOne(w.down);
    var data := ReadFrom(w.down).data;
    assert DownBytes(x, k.down)[0] == data;
    assert DownBytes(x, k.down)[1..] == DownBytes(x, k.down[1..]);
    assert w.up + [] == w.up && Rest(w.down, true) + [] == Rest(w.down, true);
    assert Loaded(x, w, e).down == [k.down[0]];
  }

  lemma TakeMatches(x: Codec, w: Wired, k: Conn, e: Event, free: bool)
    requires IsCodec(x) && InStep(k)
    requires Matches(x, w, k) && e.TakeReply? && CanStepBytes(x, w, e, free)
    ensures CanStep(k, e) && Matches(x, StepBytes(x, w, e, free), StepConn(k, e, free))
  {
    hide ReadAll, IsWhole, ReadFrom, Encode, InStep;
    InTurn(k);
    TakeOne(w.up);
    var data := ReadFrom(w.up).data;
    assert UpBytes(x, k.up)[0] == data;
    assert UpBytes(x, k.up)[1..] == UpBytes(x, k.up[1..]);
    assert w.down + [] == w.down && Rest(w.up, true) + [] == Rest(w.up, true);
    assert Same(Loaded(x, w, e).up[0], k.up[0]);
  }

  lemma StepMatches(x: Codec, w: Wired, k: Conn, e: Event, free: bool)
    requires IsCodec(x) && InStep(k) && Matches(x, w, k) && CanStepBytes(x, w, e, free)
    ensures CanStep(k, e) && Matches(x, StepBytes(x, w, e, free), StepConn(k, e, free))
  {
    hide Matches, InStep, CanStepBytes, StepBytes, StepConn, CanStep, IsCodec;
    if IsLocal(e) {
      LocalMatches(x, w, k, e, free);
    } else if e.ReadHeader? || e.ReadPayload? {
      ReadMatches(x, w, k, e, free);
    } else if e.TakeReply? {
      TakeMatches(x, w, k, e, free);
    } else if e.WriteReply? {
      WriteMatches(x, w, k, e, free);
    } else {
      SendMatches(x, w, k, e, free);
    }
  }

  lemma CloseMatches(x: Codec, w: Wired, k: Conn, n: nat, c: ConnId, free: bool)
    requires Matches(x, w, k)
    requires IsSending(w.k) && IsFrame(x.Down(Outgoing(w.k))) && n < |Encode(x.Down(Outgoing(w.k)))|
    ensures CanStep(k, CloseEdge(c)) && Matches(x, CloseAt(x, w, n), StepConn(k, CloseEdge(c), free))
  {
    hide ReadAll, IsWhole, Encode;
    WriteOne(w.down, x.Down(Outgoing(w.k)), n);
  }

  lemma StopMatches(x: Codec, w: Wired, k: Conn, n: nat, c: ConnId, free: bool)
    requires Matches(x, w, k) && !w.k.open
    requires w.k.handler.Replying? && IsFrame(x.Up(w.k.handler.reply)) && n < |Encode(x.Up(w.k.handler.reply))|
    ensures CanStep(k, HandlerStops(c)) && Matches(x, StopAt(x, w, n), StepConn(k, HandlerStops(c), free))
  {
    hide ReadAll, IsWhole, Encode;
    WriteOne(w.up, x.Up(w.k.handler.reply), n);
  }

  lemma CutMatches(x: Codec, w: Wired, k: Conn, n: nat)
    requires Matches(x, w, k)
    ensures Matches(x, CutAt(w, n), Cut(k, |ReadAll(CutAt(w, n).up)|))
  {
    hide ReadAll, IsWhole;
    if n <= |w.up| {
      CutReadsLess(w.up, n);
    }
    var left := |ReadAll(CutAt(w, n).up)|;
    assert UpBytes(x, k.up[..left]) == UpBytes(x, k.up)[..left];
  }

  // ---------- one step of the system ----------

  lemma LockAlone(s: State, e: Event)
    ensures StepLock(s.(conns := map[]), e) == StepLock(s, e).(conns := map[])
    ensures IsFree(s.(conns := map[])) == IsFree(s)
    ensures e.CloseEdge? || e.HandlerStops? ==> StepLock(s, e) == s
  {
  }

  lemma FreshMatches(x: Codec)
    ensures Matches(x, Wired(FRESH, [], []), FRESH)
  {
  }

  /** One connection and the lock move on. */
  lemma OneMoves(x: Codec, b: ByteState, s: State, t: State, c: ConnId, w: Wired, k: Conn)
    requires Refines(x, b, s) && Matches(x, w, k) && t.conns == s.conns
    ensures Refines(x, ByteState(t.(conns := map[]), b.conns[c := w]), t.(conns := s.conns[c := k]))
  {
    hide Matches;
  }

  lemma ConnRefines(x: Codec, b: ByteState, s: State, e: Event)
    requires IsCodec(x) && Inv(s) && Refines(x, b, s) && EnabledWhole(x, b, e)
    requires !e.Connect? && !e.OrphanEnds? && !e.Exit?
    ensures Enabled(s, e) && Refines(x, WholeStep(x, b, e), Step(s, e))
  {
    hide Matches, InStep, LockInv, CanStepBytes, StepBytes, StepConn, CanStep, StepLock, IsCodec, IsFree;
    var w, k, free := b.conns[e.c], s.conns[e.c], IsFree(s);
    LockAlone(s, e);
    StepLockConns(s, e);
    StepMatches(x, w, k, e, free);
    OneMoves(x, b, s, StepLock(s, e), e.c, StepBytes(x, w, e, free), StepConn(k, e, free));
    hide Refines;
  }

  lemma WholeRefines(x: Codec, b: ByteState, s: State, e: Event)
    requires IsCodec(x) && Inv(s) && Refines(x, b, s) && EnabledWhole(x, b, e)
    ensures Enabled(s, e) && Refines(x, WholeStep(x, b, e), Step(s, e))
  {
    hide Matches, InStep, LockInv, CanStepBytes, StepBytes, StepConn, CanStep, StepLock, IsCodec, IsFree;
    LockAlone(s, e);
    StepLockConns(s, e);
    match e
    case Connect(c) =>
      FreshMatches(x);
      OneMoves(x, b, s, s, c, Wired(FRESH, [], []), FRESH);
    case OrphanEnds =>
    case Exit(_) =>
    case _ => ConnRefines(x, b, s, e);
  }

  lemma CrashRefines(x: Codec, b: ByteState, s: State, kept: map<ConnId, nat>)
    requires Refines(x, b, s)
    ensures Enabled(s, AsWhole(b, Crash(kept)))
    ensures Refines(x, ByteStep(x, b, Crash(kept)), Step(s, AsWhole(b, Crash(kept))))
  {
    hide Matches, CutAt, Cut, ReadAll;
    forall c | c in b.conns
      ensures Matches(x, CutAt(b.conns[c], Kept(b, kept, c)), Step(s, AsWhole(b, Crash(kept))).conns[c])
    {
      CutMatches(x, b.conns[c], s.conns[c], Kept(b, kept, c));
    }
  }

  lemma StepRefines(x: Codec, b: ByteState, s: State, be: ByteEvent)
    requires IsCodec(x) && Inv(s) && Refines(x, b, s) && EnabledBytes(x, b, be)
    ensures Enabled(s, AsWhole(b, be)) && Refines(x, ByteStep(x, b, be), Step(s, AsWhole(b, be)))
  {
    hide IsCodec, Inv, Refines, Enabled, Step, EnabledWhole, WholeStep;
    match be
    case Whole(e) => WholeRefines(x, b, s, e);
    case Crash(kept) => CrashRefines(x, b, s, kept);
    case _ => MidwayRefines(x, b, s, be);
  }

  lemma MidwayRefines(x: Codec, b: ByteState, s: State, be: ByteEvent)
    requires Refines(x, b, s) && EnabledBytes(x, b, be) && (be.CloseMidway? || be.StopMidway?)
    ensures Enabled(s, AsWhole(b, be)) && Refines(x, ByteStep(x, b, be), Step(s, AsWhole(b, be)))
  {
    hide Matches, StepConn, CanStep, StepLock, CutAt, CloseAt, StopAt, ReadAll, IsSending, IsFree;
    LockAlone(s, AsWhole(b, be));
    match be
    case CloseMidway(c, n) => CloseMatches(x, b.conns[c], s.conns[c], n, c, IsFree(s));
    case StopMidway(c, n) => StopMatches(x, b.conns[c], s.conns[c], n, c, IsFree(s));
  }

  lemma {:induction false} RunRefines(x: Codec, b: ByteState, s: State, bes: seq<ByteEvent>)
    requires IsCodec(x) && Inv(s) && Refines(x, b, s) && IsByteRun(x, b, bes)
    ensures IsRun(s, AsWholes(x, b, bes)) && Refines(x, ByteAfter(x, b, bes), After(s, AsWholes(x, b, bes)))
    decreases |bes|
  {
    hide IsCodec, Inv, Refines, EnabledBytes, ByteStep, Step, Enabled, AsWhole;
    if bes != [] {
      StepRefines(x, b, s, bes[0]);
      InvKept(s, AsWhole(b, bes[0]));
      RunRefines(x, ByteStep(x, b, bes[0]), Step(s, AsWhole(b, bes[0])), bes[1..]);
      assert AsWholes(x, b, bes)[1..] == AsWholes(x, ByteStep(x, b, bes[0]), bes[1..]);
    }
  }

  // ---------- the other way round ----------

  /** What the event writes fits in a frame, and a reply is replaced only if it does not. */
  predicate FitsWire(x: Codec, k: Conn, e: Event)
    requires CanStep(k, e)
  {
    match e
    case SendHeader(_) => IsFrame(x.Down(HeaderOf(k.edge.frame)))
    case SendPayload(_) => IsFrame(x.Down(PayloadOf(k.edge.frame)))
    case WriteReply(_) => IsFrame(x.Up(k.handler.reply))
    case ReplyTooLarge(_, _) => !IsFrame(x.Up(k.handler.reply))
    case _ => true
  }

  lemma FirstIsThere(stream: seq<byte>)
    requires ReadAll(stream) != []
    ensures ReadFrom(stream).Frame?
  {
  }

  lemma ReadsBlockNothing(x: Codec, w: Wired, k: Conn, e: Event, free: bool)
    requires Matches(x, w, k) && CanStep(k, e) && (e.ReadHeader? || e.ReadPayload? || e.TakeReply?)
    ensures CanStepBytes(x, w, e, free)
  {
    hide ReadAll, ReadFrom, IsWhole;
    if e.TakeReply? {
      FirstIsThere(w.up);
    } else {
      FirstIsThere(w.down);
    }
  }

  lemma LocalBlocksNothing(x: Codec, w: Wired, k: Conn, e: Event, free: bool)
    requires Matches(x, w, k) && CanStep(k, e) && FitsWire(x, k, e) && IsLocal(e)
    ensures CanStepBytes(x, w, e, free)
  {
    hide ReadAll, ReadFrom, IsWhole, StepConn;
    SameCanStep(w.k, k, e);
    SameStep(w.k, k, e, free);
  }

  lemma SameCanStep(m: Conn, k: Conn, e: Event)
    requires SameEnds(m, k) && IsLocal(e) && CanStep(k, e)
    ensures CanStep(m, e)
  {
  }

  lemma ConnBlocksNothing(x: Codec, w: Wired, k: Conn, e: Event, free: bool)
    requires Matches(x, w, k) && CanStep(k, e) && FitsWire(x, k, e)
    ensures CanStepBytes(x, w, e, free)
  {
    hide ReadAll, ReadFrom, IsWhole;
    if IsLocal(e) {
      LocalBlocksNothing(x, w, k, e, free);
    } else if !e.SendHeader? && !e.SendPayload? && !e.WriteReply? {
      ReadsBlockNothing(x, w, k, e, free);
    }
  }

  /**
   Main result: bytes block nothing. What the protocol can do can be done over bytes, as long as what
   is written fits in a frame.
   */
  lemma BytesBlockNothing(x: Codec, b: ByteState, s: State, e: Event)
    requires Refines(x, b, s) && Enabled(s, e) && !e.Exit?
    requires e.Connect? || e.OrphanEnds? || FitsWire(x, s.conns[e.c], e)
    ensures EnabledWhole(x, b, e)
  {
    hide Matches, CanStepBytes, CanStep, FitsWire;
    LockAlone(s, e);
    if !e.Connect? && !e.OrphanEnds? {
      ConnBlocksNothing(x, b.conns[e.c], s.conns[e.c], e, IsFree(s));
    }
  }

  // ---------- the theorem ----------

  /**
   Main result: every run over byte streams is a run of the protocol, with the same lock and the same
   ends, whose wires carry what can be read from the streams.
   */
  lemma ByteRunsAreRuns(x: Codec, bes: seq<ByteEvent>)
    requires IsCodec(x) && IsByteRun(x, BYTE_INIT, bes)
    ensures IsRun(INIT, AsWholes(x, BYTE_INIT, bes))
    ensures Refines(x, ByteAfter(x, BYTE_INIT, bes), After(INIT, AsWholes(x, BYTE_INIT, bes)))
  {
    hide IsByteRun, IsRun, AsWholes, IsCodec, ByteAfter, After;
    InvInit();
    RunRefines(x, BYTE_INIT, INIT, bes);
  }

  /** The reply, as the edge read it, is for this frame. */
  predicate AnswersOnWire(r: Reply, f: ClientFrame) {
    && r.id == f.id
    && match f.outcome
       case Fatal => false
       case Rejected(code) => r.body == EdgeError(code)
       case Accepted(_) => r.body.Worked?
  }

  /**
   Main result: over bytes too the k-th reply answers the k-th non-fatal frame, and although the job does
   not travel back, whatever law ties the worker's verdicts to ids and jobs ties them to that frame's.
   */
  lemma BytesAnswerFrames(x: Codec, bes: seq<ByteEvent>, law: Law, c: ConnId)
    requires IsCodec(x) && IsByteRun(x, BYTE_INIT, bes) && c in ByteAfter(x, BYTE_INIT, bes).conns
    ensures IsRun(INIT, AsWholes(x, BYTE_INIT, bes))
    ensures var k := ByteAfter(x, BYTE_INIT, bes).conns[c].k;
      && |k.replies| <= |k.consumed| <= |k.replies| + 1
      && (forall i | 0 <= i < |k.replies| :: AnswersOnWire(k.replies[i], k.consumed[i]))
      && (IsLawfulRun(law, INIT, AsWholes(x, BYTE_INIT, bes)) ==>
            forall i | 0 <= i < |k.replies| && k.consumed[i].outcome.Accepted? ::
              law(k.consumed[i].id, k.consumed[i].outcome.job, k.replies[i].body.verdict))
  {
    hide IsByteRun, IsRun, AsWholes, IsCodec, ByteAfter, After, IsLawfulRun;
    var events := AsWholes(x, BYTE_INIT, bes);
    ByteRunsAreRuns(x, bes);
    RepliesAnswerFrames(events, c);
    var k, m := ByteAfter(x, BYTE_INIT, bes).conns[c].k, After(INIT, events).conns[c];
    assert forall i | 0 <= i < |k.replies| :: Same(k.replies[i], m.replies[i]) && Answers(m.replies[i], m.consumed[i]);
    if IsLawfulRun(law, INIT, events) {
      RepliesAreLawful(law, events, c);
      forall i | 0 <= i < |k.replies| && k.consumed[i].outcome.Accepted?
        ensures law(k.consumed[i].id, k.consumed[i].outcome.job, k.replies[i].body.verdict)
      {
        assert m.replies[i] in m.replies && Obeys(law, m.replies[i]);
      }
    }
  }
}

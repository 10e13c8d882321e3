/**
 The whole path: if every verdict of the worker is the body it builds for some answer of the engine,
 or an error, then every text a client receives is the response for its own message.
 */
module EndToEnd {
  import opened Wrappers
  import opened Bytes
  import opened Protocol
  import opened Sessions
  import opened Verdicts
  import EdgeFrames
  import Gates
  import Prompts
  import Routing
  import Text
  import Wire

  /** What the path does not decide: the edge's readers and limits, the digits, and the downscale. */
  datatype World = World(env: EdgeFrames.Env, nd: Text.Digits, shrink: (int, int) -> (int, int))

  // ---------- what the worker may say ----------

  /** The body `_infer` builds for one answer of the engine to a job. */
  ghost predicate IsBodyOf(
    world: World, id: string, job: Job, answer: string, m: Wire.Measures, message: string, v: Verdict
  ) {
    && |answer| < Wire.U32
    && EdgeFrames.IsSizeOf(world.env.dims(job.jpeg), m.width, m.height)
    && Wire.FitsPlan(m, world.shrink) && m.mode.Wire() == job.mode
    && v == Wire.BodyFor(
              id, Routing.Routed(world.nd, answer, m.width, m.height, job.task, job.prompt), m, message)
  }

  /** An error body: what out-of-memory, timeouts, faults and refusals come to. */
  ghost predicate IsFailure(id: string, v: Verdict) {
    exists code: string, message: string :: IsFailureOf(id, code, message, v)
  }

  predicate IsFailureOf(id: string, code: string, message: string, v: Verdict) {
    (code == "internal" || code == "invalid_image") && Wire.FrameError(id, code, message) == Some(v)
  }

  ghost predicate IsVerdict(world: World, id: string, job: Job, v: Verdict) {
    IsFailure(id, v)
    || exists answer: string, m: Wire.Measures, message: string :: IsBodyOf(world, id, job, answer, m, message, v)
  }

  /** Every verdict is a body for some answer, or an error. */
  ghost function WorkerLaw(world: World): Law {
    (id: string, job: Job, v: Verdict) => IsVerdict(world, id, job, v)
  }

  // ---------- what the client is told ----------

  /** The response is the routed result of some answer to the frame, with the id of its header, or an error. */
  ghost predicate Tells(world: World, header: EdgeFrames.InferHeader, jpeg: seq<byte>, response: Wire.Response) {
    || (exists code: EdgeFrames.ErrorCode, message: string ::
          (code.Internal? || code.InvalidImage?) && response == Wire.ErrorReply(header.frameId, code, message))
    || (exists answer: string, m: Wire.Measures, message: string ::
          TellsOf(world, header, jpeg, answer, m, message, response))
  }

  ghost predicate TellsOf(
    world: World, header: EdgeFrames.InferHeader, jpeg: seq<byte>, answer: string, m: Wire.Measures, message: string,
    response: Wire.Response
  ) {
    var r := Routing.Routed(
      world.nd, answer, m.width, m.height, header.request.WireName(), Prompts.Prompt(header.request));
    && EdgeFrames.IsSizeOf(world.env.dims(jpeg), m.width, m.height)
    && r.Ok? && response == Wire.Expected(header.frameId, r.value, m, message)
  }

  /** The edge accepts the verdict of an accepted frame, and it tells the client of that frame. */
  ghost predicate IsRight(world: World, r: Reply, b: seq<byte>) {
    var header := HeaderIn(world.env, b);
    header.Some? && (EdgeFrames.IsAcceptable(world.env, header.value, ImageIn(b)) ==>
      && r.body.Worked? && Wire.Egress(r.body.verdict).Ok?
      && Tells(world, header.value, ImageIn(b), Wire.Egress(r.body.verdict).value))
  }

  // ---------- a verdict is read as it was meant ----------

  lemma FailureTells(id: string, v: Verdict) returns (code: EdgeFrames.ErrorCode, message: string)
    requires IsFailure(id, v)
    ensures (code.Internal? || code.InvalidImage?) && Wire.Egress(v) == Ok(Wire.ErrorReply(id, code, message))
  {
    hide Wire.Egress, Wire.FrameError;
    var c: string, m: string :| IsFailureOf(id, c, m, v);
    Wire.ErrorReads(id, c, m);
    FailureCodesRead();
    code, message := Wire.ReadCode(c).value, m;
  }

  lemma FailureCodesRead()
    ensures Wire.ReadCode("internal") == Some(EdgeFrames.Internal)
    ensures Wire.ReadCode("invalid_image") == Some(EdgeFrames.InvalidImage)
  {
    assert |"internal"| == 8 && |"invalid_request"| == 15 && |"invalid_image"| == 13 && |"model_deviation"| == 15;
  }

  lemma BodyTells(
    world: World, header: EdgeFrames.InferHeader, jpeg: seq<byte>, answer: string, m: Wire.Measures, message: string,
    v: Verdict
  )
    requires world.env.maxImageDim < Wire.U16 && EdgeFrames.IsAcceptable(world.env, header, jpeg)
    requires IsBodyOf(world, header.frameId, JobOf(header, jpeg), answer, m, message, v)
    ensures Wire.Egress(v).Ok? && Tells(world, header, jpeg, Wire.Egress(v).value)
  {
    var request := header.request;
    Prompts.AcceptedIffWellFormed(world.env.nfc, request);
    Routing.AcceptedIsRoutable(world.env.nfc, request);
    Routing.RoutedIsFaithful(world.nd, answer, m.width, m.height, request.WireName(), Prompts.Prompt(request));
    Gates.TurnedIsTheSame(m.width, m.height, world.env.maxImageDim);
    var r := Routing.Routed(world.nd, answer, m.width, m.height, request.WireName(), Prompts.Prompt(request));
    hide Prompts.Compile, Routing.Routed, Routing.IsSound, Routing.Localised, Wire.Egress, Wire.BodyOf, Wire.Expected,
      Wire.FrameError, Gates.PlanResize, Gates.EdgeGate;
    if r.Err? {
      Wire.InvalidImageReads();
      Wire.ErrorReads(header.frameId, "invalid_image", message);
    } else {
      Wire.CountsFit(world.nd, r.value, m, world.env.maxImageDim, world.shrink);
      Wire.EgressReadsTheBody(header.frameId, r.value, m, message, m.width, m.height);
      assert TellsOf(world, header, jpeg, answer, m, message, Wire.Egress(v).value);
    }
  }

  lemma VerdictTells(world: World, r: Reply, b: seq<byte>)
    requires world.env.maxImageDim < Wire.U16
    requires AnswersMessage(world.env, r, b) && Obeys(WorkerLaw(world), r)
    ensures IsRight(world, r, b)
  {
    hide EdgeFrames.IsAcceptable, IsBodyOf, IsFailure, Wire.Egress, Tells;
    var header, jpeg := HeaderIn(world.env, b).value, ImageIn(b);
    if EdgeFrames.IsAcceptable(world.env, header, jpeg) {
      var v := r.body.verdict;
      assert IsVerdict(world, r.id, r.body.of, v);
      if IsFailure(r.id, v) {
        var code, message := FailureTells(r.id, v);
        ErrorTells(world, header, jpeg, code, message);
      } else {
        var answer: string, m: Wire.Measures, message: string :|
          IsBodyOf(world, r.id, r.body.of, answer, m, message, v);
        BodyTells(world, header, jpeg, answer, m, message, v);
      }
    }
  }

  lemma ErrorTells(
    world: World, header: EdgeFrames.InferHeader, jpeg: seq<byte>, code: EdgeFrames.ErrorCode, message: string
  )
    requires code.Internal? || code.InvalidImage?
    ensures Tells(world, header, jpeg, Wire.ErrorReply(header.frameId, code, message))
  {
  }

  /**
   Main result: after every run whose frames come from binary messages and whose verdicts are bodies
   the worker builds, or errors, the k-th reply on a connection answers the k-th message that carries
   an id. If its frame was acceptable, the edge accepts the verdict and the client reads the routed
   result of an answer to its own request and image, with its own id, or an error with that id.
   */
  lemma EveryReplyIsRight(world: World, hs: seq<Happening>, c: ConnId)
    requires world.env.maxImageDim < Wire.U16 && FramesAreMessages(hs)
    requires IsRun(INIT, AsEvents(world.env, hs)) && IsLawfulRun(WorkerLaw(world), INIT, AsEvents(world.env, hs))
    requires c in After(INIT, AsEvents(world.env, hs)).conns
    ensures var k := After(INIT, AsEvents(world.env, hs)).conns[c];
      var messages := Answerable(world.env, MessagesOn(hs, c));
      && |k.replies| <= |messages| <= |k.replies| + 1
      && forall i | 0 <= i < |k.replies| ::
        AnswersMessage(world.env, k.replies[i], messages[i]) && IsRight(world, k.replies[i], messages[i])
  {
    hide IsRun, After, AsEvents, IsLawfulRun, AnswersMessage, IsRight, Obeys, WorkerLaw, MessagesOn, Answerable;
    var events := AsEvents(world.env, hs);
    var k, messages := After(INIT, events).conns[c], Answerable(world.env, MessagesOn(hs, c));
    RepliesAnswerMessages(world.env, hs, c);
    RepliesAreLawful(WorkerLaw(world), events, c);
    forall i | 0 <= i < |k.replies|
      ensures IsRight(world, k.replies[i], messages[i])
    {
      assert k.replies[i] in k.replies;
      VerdictTells(world, k.replies[i], messages[i]);
    }
  }
}

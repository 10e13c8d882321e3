/**
 One binary message at the edge: `process_binary`, its three outcomes, and the worker's own checks
 of what the edge forwards.
 */
module EdgeFrames {
  import opened Wrappers
  import opened Bytes
  import opened Prompts
  import opened Gates
  import Exif
  import Routing

  datatype Mode = Fast | Hybrid | Slow
  {
    function Wire(): string {
      match this
      case Fast => "fast"
      case Hybrid => "hybrid"
      case Slow => "slow"
    }
  }

  datatype InferHeader = InferHeader(frameId: string, request: PromptRequest, mode: Mode, jpegLen: nat)

  datatype ErrorCode = InvalidRequest | InvalidImage | ModelDeviation | Internal
  {
    function Wire(): string {
      match this
      case InvalidRequest => "invalid_request"
      case InvalidImage => "invalid_image"
      case ModelDeviation => "model_deviation"
      case Internal => "internal"
    }
  }

  /** The size of the image as the model will see it, a header that cannot be read, or a task that did not finish. */
  datatype Dimensions = Size(w: nat, h: nat) | Unreadable | JoinError

  datatype BinaryOutcome =
    | Fatal
    | PerFrame(frameId: string, code: ErrorCode)
    | Pending(header: InferHeader, jpeg: seq<byte>, prompt: string, task: string)

  /** The header parser, the normalisation test, the image reader, and the configured limits. */
  datatype Env = Env(
    parse: seq<byte> -> Option<InferHeader>, nfc: string -> bool, dims: seq<byte> -> Dimensions,
    maxJpegBytes: nat, maxImageDim: nat)

  // ---------- frame ids ----------

  /** How many bytes a character takes in UTF-8. */
  function CharBytes(c: char): nat {
    var n := c as int;
    if n < 0x80 then 1 else if n < 0x800 then 2 else if n < 0x1_0000 then 3 else 4
  }

  /** A byte of a UTF-8 form: its upper bits are `mark`, and it carries the rest. */
  function Carried(b: int, mark: int): int {
    b - mark
  }

  predicate IsTrail(b: byte) {
    0x80 <= b < 0xC0
  }

  /** The bytes are the UTF-8 form of a code point, of which there is no shorter one (section 3 of RFC 3629). */
  predicate IsUtf8(bs: seq<byte>, n: int) {
    if |bs| == 1 then bs[0] < 0x80 && n == bs[0]
    else if |bs| == 2 then
      && 0xC0 <= bs[0] < 0xE0 && IsTrail(bs[1])
      && n == 0x40 * Carried(bs[0], 0xC0) + Carried(bs[1], 0x80) >= 0x80
    else if |bs| == 3 then
      && 0xE0 <= bs[0] < 0xF0 && IsTrail(bs[1]) && IsTrail(bs[2])
      && n == 0x1000 * Carried(bs[0], 0xE0) + 0x40 * Carried(bs[1], 0x80) + Carried(bs[2], 0x80) >= 0x800
    else
      && |bs| == 4 && 0xF0 <= bs[0] < 0xF8 && IsTrail(bs[1]) && IsTrail(bs[2]) && IsTrail(bs[3])
      && n == 0x4_0000 * Carried(bs[0], 0xF0) + 0x1000 * Carried(bs[1], 0x80) + 0x40 * Carried(bs[2], 0x80)
              + Carried(bs[3], 0x80) >= 0x1_0000
  }

  /** Every character has a UTF-8 form, */
  lemma Utf8Form(c: char) returns (bs: seq<byte>)
    ensures IsUtf8(bs, c as int)
  {
    var n := c as int;
    var a, d0 := n / 0x40, n % 0x40;
    var b, d1 := a / 0x40, a % 0x40;
    var d3, d2 := b / 0x40, b % 0x40;
    bs := if n < 0x80 then [n]
      else if n < 0x800 then [0xC0 + a, 0x80 + d0]
      else if n < 0x1_0000 then [0xE0 + b, 0x80 + d1, 0x80 + d0]
      else [0xF0 + d3, 0x80 + d2, 0x80 + d1, 0x80 + d0];
  }

  /** and `CharBytes` is its length. */
  lemma Utf8Length(c: char, bs: seq<byte>)
    requires IsUtf8(bs, c as int)
    ensures |bs| == CharBytes(c)
  {
  }

  /** `String::len`, which counts bytes. */
  function ByteLength(s: string): nat {
    if s == "" then 0 else CharBytes(s[0]) + ByteLength(s[1..])
  }

  const MAX_FRAME_ID: nat := 256

  predicate IsUsableId(id: string) {
    id != "" && ByteLength(id) <= MAX_FRAME_ID
  }

  predicate IsAscii(s: string) {
    forall c | c in s :: c as int < 0x80
  }

  lemma {:induction false} BytesPerCharacter(s: string)
    ensures |s| <= ByteLength(s)
    ensures ByteLength(s) == |s| <==> IsAscii(s)
  {
    if s != "" {
      BytesPerCharacter(s[1..]);
      assert s[0] in s;
      assert forall c :: c in s <==> c == s[0] || c in s[1..];
    }
  }

  lemma {:induction false} RepeatBytes(n: nat) returns (s: string)
    ensures |s| == n && ByteLength(s) == 2 * n
  {
    if n == 0 {
      s := "";
    } else {
      var t := RepeatBytes(n - 1);
      s := ['\U{E9}'] + t;
      assert s[1..] == t;
    }
  }

  /**
   The documented limit of 256 characters is a limit of bytes: every id the edge accepts is within
   it, some id of 129 characters is refused, and the two agree on exactly the ids that are empty, or
   over the limit in characters, or within it in bytes, among them all ASCII ids.
   */
  lemma IdLimitCountsBytes(id: string)
    ensures IsUsableId(id) ==> 0 < |id| <= 256
    ensures (IsUsableId(id) <==> 0 < |id| <= 256)
       <==> id == "" || |id| > 256 || ByteLength(id) <= 256
    ensures IsAscii(id) ==> (IsUsableId(id) <==> 0 < |id| <= 256)
    ensures exists other: string :: |other| == 129 && !IsUsableId(other)
  {
    BytesPerCharacter(id);
    var other := RepeatBytes(129);
  }

  // ---------- process_binary ----------

  /** The length prefix locates a header that is neither empty nor longer than the message. */
  function HeaderLength(b: seq<byte>): Option<nat> {
    if |b| < 4 then None
    else
      var n := Read32(false, b[0], b[1], b[2], b[3]);
      if n == 0 || 4 + n > |b| then None else Some(n)
  }

  /** A message: four bytes with the length of the header, the most significant first, header and image. */
  ghost predicate IsMessage(b: seq<byte>, header: seq<byte>, jpeg: seq<byte>) {
    && header != [] && |b| == 4 + |header| + |jpeg|
    && BigEndian32(b[0], b[1], b[2], b[3]) == |header| && b[4..] == header + jpeg
  }

  /** Taking a message apart finds its header and its image, and only a message can be taken apart. */
  lemma TakenApart(b: seq<byte>, header: seq<byte>, jpeg: seq<byte>)
    ensures IsMessage(b, header, jpeg) <==>
      HeaderLength(b) == Some(|header|) && header == b[4..4 + |header|] && jpeg == b[4 + |header|..]
  {
    if |b| >= 4 + |header| {
      assert b[4..] == b[4..4 + |header|] + b[4 + |header|..];
      if b[4..] == header + jpeg {
        assert b[4..4 + |header|] == b[4..][..|header|] && b[4 + |header|..] == b[4..][|header|..];
      }
    }
  }

  function ProcessBinary(env: Env, b: seq<byte>): BinaryOutcome {
    match HeaderLength(b)
    case None => Fatal
    case Some(n) =>
      match env.parse(b[4..4 + n])
      case None => Fatal
      case Some(header) =>
        if !IsUsableId(header.frameId) then Fatal
        else CheckFrame(env, header, b[4 + n..])
  }

  /** From here on there is a frame id, and every rejection is a reply. */
  function CheckFrame(env: Env, header: InferHeader, jpeg: seq<byte>): BinaryOutcome {
    match Compile(env.nfc, header.request)
    case Err(_) => PerFrame(header.frameId, InvalidRequest)
    case Ok((prompt, task)) =>
      if |jpeg| != header.jpegLen then PerFrame(header.frameId, InvalidRequest)
      else if jpeg == [] then PerFrame(header.frameId, InvalidImage)
      else if |jpeg| > env.maxJpegBytes then PerFrame(header.frameId, InvalidImage)
      else if !Exif.IsJpeg(jpeg) then PerFrame(header.frameId, InvalidImage)
      else
        match env.dims(jpeg)
        case Unreadable => PerFrame(header.frameId, InvalidImage)
        case JoinError => PerFrame(header.frameId, Internal)
        case Size(w, h) =>
          if EdgeGate(w, h, env.maxImageDim).Some? then PerFrame(header.frameId, InvalidImage)
          else Pending(header, jpeg, prompt, task)
  }

  // ---------- what the outcomes mean ----------

  /** Everything the edge asks of a frame. */
  ghost predicate IsAcceptable(env: Env, header: InferHeader, jpeg: seq<byte>) {
    && IsWellFormed(env.nfc, header.request)
    && |jpeg| == header.jpegLen <= env.maxJpegBytes
    && [0xFF, 0xD8, 0xFF] <= jpeg
    && env.dims(jpeg).Size? && EdgeGate(env.dims(jpeg).w, env.dims(jpeg).h, env.maxImageDim).None?
  }

  /**
   Main result: a frame with an id is forwarded exactly when it is acceptable, with the prompt and task
   of its request.
   */
  lemma PendingIffAcceptable(env: Env, header: InferHeader, jpeg: seq<byte>)
    ensures CheckFrame(env, header, jpeg).Pending? <==> IsAcceptable(env, header, jpeg)
    ensures IsAcceptable(env, header, jpeg) ==>
      CheckFrame(env, header, jpeg) == Pending(header, jpeg, Prompt(header.request), header.request.WireName())
  {
    AcceptedIffWellFormed(env.nfc, header.request);
    Exif.JpegIff(jpeg);
    hide Compile, EdgeGate, IsWellFormed;
  }

  /** All that can be said without reading the image is in order, and the reading did not finish. */
  ghost predicate IsUnread(env: Env, header: InferHeader, jpeg: seq<byte>) {
    && IsWellFormed(env.nfc, header.request)
    && |jpeg| == header.jpegLen <= env.maxJpegBytes && [0xFF, 0xD8, 0xFF] <= jpeg
    && env.dims(jpeg).JoinError?
  }

  /** The code of a rejection says whose fault it is; what is neither of the two is `invalid_image`. */
  lemma CodeOfRejection(env: Env, header: InferHeader, jpeg: seq<byte>)
    requires CheckFrame(env, header, jpeg).PerFrame?
    ensures var code := CheckFrame(env, header, jpeg).code;
      && (code.InvalidRequest? <==> !IsWellFormed(env.nfc, header.request) || |jpeg| != header.jpegLen)
      && (code.Internal? <==> IsUnread(env, header, jpeg))
      && !code.ModelDeviation?
  {
    AcceptedIffWellFormed(env.nfc, header.request);
    Exif.JpegIff(jpeg);
    hide Compile, EdgeGate, IsWellFormed;
  }

  lemma CheckCarriesId(env: Env, header: InferHeader, jpeg: seq<byte>)
    ensures var o := CheckFrame(env, header, jpeg);
      && !o.Fatal? && (o.PerFrame? ==> o.frameId == header.frameId)
      && (o.Pending? ==> o.header == header && o.jpeg == jpeg)
  {
    hide Compile, EdgeGate;
  }

  lemma CodesDiffer(code: ErrorCode)
    ensures code.Wire() == "invalid_request" <==> code.InvalidRequest?
    ensures code.Wire() == "internal" <==> code.Internal?
    ensures code.Wire() == "invalid_image" <==> code.InvalidImage?
  {
    assert |"invalid_request"| == 15 && |"invalid_image"| == 13 && |"internal"| == 8;
    assert "model_deviation"[0] == 'm' && "invalid_request"[0] == 'i';
  }

  // ---------- the worker's checks of what is forwarded ----------

  /** The checks `_infer` repeats before it asks for the lock: the code it would answer with. */
  function InferRefusal(frameId: string, prompt: string, mode: string, jpeg: seq<byte>): Option<ErrorCode> {
    if frameId == "" then Some(Internal)
    else if prompt == "" then Some(Internal)
    else if |prompt| > MAX_PROMPT_CHARS then Some(Internal)
    else if mode != "fast" && mode != "hybrid" && mode != "slow" then Some(Internal)
    else if jpeg == [] then Some(InvalidImage)
    else if !Exif.IsJpeg(jpeg) then Some(InvalidImage)
    else None
  }

  /** What the worker asks of a header and an image, and whose fault it finds the rest to be. */
  lemma RefusalIff(frameId: string, prompt: string, mode: string, jpeg: seq<byte>)
    ensures var header :=
        frameId != "" && 1 <= |prompt| <= 16384 && (mode == "fast" || mode == "hybrid" || mode == "slow");
      InferRefusal(frameId, prompt, mode, jpeg)
      == if !header then Some(Internal) else if !([0xFF, 0xD8, 0xFF] <= jpeg) then Some(InvalidImage) else None
  {
    Exif.JpegIff(jpeg);
  }

  /** The size the worker decodes: that of the edge, or the same turned on its side. */
  predicate IsSizeOf(d: Dimensions, w: nat, h: nat) {
    d.Size? && ((w == d.w && h == d.h) || (w == d.h && h == d.w))
  }

  /**
   Main result: the worker refuses nothing that the edge forwards. Its header checks, its task
   table, its image gates and its resize plan all let it through, and they do so even if the two
   sides disagree about the orientation of the image.
   */
  lemma WorkerAcceptsWhatTheEdgeForwards(env: Env, b: seq<byte>, w: nat, h: nat, shrink: (int, int) -> (int, int))
    requires ProcessBinary(env, b).Pending? && IsSizeOf(env.dims(ProcessBinary(env, b).jpeg), w, h)
    ensures var p := ProcessBinary(env, b);
      && InferRefusal(p.header.frameId, p.prompt, p.header.mode.Wire(), p.jpeg).None?
      && Routing.IsRoutable(p.task, p.prompt)
      && WorkerGate(w, h).None?
      && PlanResize(shrink, w, h).Ok?
      && PlanResize(shrink, w, h).value.llmTokens == DivCeil(w, LLM_TOKEN_PX) * DivCeil(h, LLM_TOKEN_PX)
  {
    var p := ProcessBinary(env, b);
    PendingIffAcceptable(env, p.header, p.jpeg);
    AcceptedIffWellFormed(env.nfc, p.header.request);
    Routing.AcceptedIsRoutable(env.nfc, p.header.request);
    hide Compile, EdgeGate, PlanResize, WorkerGate, DivCeil;
    PromptIsShort(env.nfc, p.header.request);
    PromptIsNotEmpty(p.header.request);
    TurnedIsTheSame(w, h, env.maxImageDim);
    Exif.JpegIff(p.jpeg);
    AcceptedIsPlanned(shrink, w, h, env.maxImageDim);
  }

  lemma PromptIsNotEmpty(request: PromptRequest)
    ensures Prompt(request) != ""
  {
    PartingCharacters();
  }
}

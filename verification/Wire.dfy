/**
 The worker's reply body as a JSON value, and the edge's egress check of it: the `ok` field is
 stripped, the rest must be exactly one variant of the response, and the two must agree.
 */
module Wire {
  import opened Wrappers
  import opened Coordinates
  import opened Json
  import opened Text
  import opened Gates
  import opened Prompts
  import opened Routing
  import opened EdgeFrames

  // ---------- the worker's side ----------

  /** What `_infer` adds to the result of the engine. */
  datatype Measures = Measures(
    width: nat, height: nat, dstW: nat, dstH: nat, tokens: nat, scale: real, mode: Mode, latency: real, total: real)

  function BoxValue(d: Detection): Value {
    Object(map[
      KLabel := Text(d.name),
      KBoxNorm := List([Whole(d.norm.x1), Whole(d.norm.y1), Whole(d.norm.x2), Whole(d.norm.y2)]),
      KBoxPx := List([Fixed(d.px.x1), Fixed(d.px.y1), Fixed(d.px.x2), Fixed(d.px.y2)])])
  }

  function PointValue(p: Point): Value {
    Object(map[
      KLabel := Text(p.name),
      KPointNorm := List([Whole(p.norm.x), Whole(p.norm.y)]),
      KPointPx := List([Fixed(p.px.x), Fixed(p.px.y)])])
  }

  function BoxValues(ds: seq<Detection>): Value {
    List(seq(|ds|, k requires 0 <= k < |ds| => BoxValue(ds[k])))
  }

  function PointValues(ps: seq<Point>): Value {
    List(seq(|ps|, k requires 0 <= k < |ps| => PointValue(ps[k])))
  }

  /** `_frame_error`; None is its `ValueError` for a code that is not of the four. */
  function FrameError(frameId: string, code: string, message: string): Option<Value> {
    if ReadCode(code).None? then None
    else Some(Object(map[
      KOk := Bool(false), KType := Text("error"), KFrameId := Text(frameId),
      KCode := Text(code), KMessage := Text(message)]))
  }

  function KindTag(kind: Kind): string {
    match kind
    case KindBoxes => "boxes"
    case KindPoints => "points"
    case KindAbstained => "abstained"
    case KindDeviation => "model_deviation"
  }

  function PlanValue(m: Measures): Value {
    Object(map[KDstW := Whole(m.dstW), KDstH := Whole(m.dstH), KTokens := Whole(m.tokens), KScale := Real(m.scale)])
  }

  /** The fields every success carries. */
  function Meta(frameId: string, r: InferenceResult, m: Measures): map<Key, Value> {
    map[
      KOk := Bool(true), KType := Text(KindTag(r.kind)), KFrameId := Text(frameId),
      KRawText := Text(r.rawAnswer), KTruncated := Bool(r.truncated), KDropped := Whole(r.dropped),
      KImageSize := List([Whole(m.width), Whole(m.height)]), KResizePlan := PlanValue(m),
      KMode := Text(m.mode.Wire()), KLatency := Real(m.latency), KTotal := Real(m.total)]
  }

  /** The end of `_infer`: the body for a result, with the geometry list of its own variant only. */
  method InferBody(frameId: string, r: InferenceResult, m: Measures, message: string) returns (body: Value)
    ensures body == BodyOf(frameId, r, m, message)
  {
    if r.kind.KindDeviation? {
      var error := FrameError(frameId, "model_deviation", message);
      return error.value;
    }
    var fields := Meta(frameId, r, m);
    if r.kind.KindBoxes? {
      fields := fields[KBoxes := BoxValues(r.boxes)];
    } else if r.kind.KindPoints? {
      fields := fields[KPoints := PointValues(r.points)];
    }
    return Object(fields);
  }

  function BodyOf(frameId: string, r: InferenceResult, m: Measures, message: string): Value {
    match r.kind
    case KindDeviation => FrameError(frameId, "model_deviation", message).value
    case KindBoxes => Object(Meta(frameId, r, m)[KBoxes := BoxValues(r.boxes)])
    case KindPoints => Object(Meta(frameId, r, m)[KPoints := PointValues(r.points)])
    case KindAbstained => Object(Meta(frameId, r, m))
  }

  // ---------- the edge's side ----------

  datatype WireBox = WireBox(name: string, norm: seq<nat>, px: seq<int>)

  datatype WireMeta = WireMeta(
    rawText: string, truncated: bool, dropped: nat, width: nat, height: nat,
    dstW: nat, dstH: nat, tokens: nat, scale: real, mode: Mode, latency: real, total: real)

  /** The typed response. */
  datatype Response =
    | BoxesReply(frameId: string, boxes: seq<WireBox>, meta: WireMeta)
    | PointsReply(frameId: string, points: seq<WireBox>, meta: WireMeta)
    | AbstainedReply(frameId: string, meta: WireMeta)
    | ErrorReply(frameId: string, code: ErrorCode, message: string)

  datatype EgressError = OkMissing | OkNotBool | SchemaMismatch | Contradiction

  const U16: nat := 0x1_0000
  const U32: nat := 0x1_0000_0000

  function ReadCode(s: string): Option<ErrorCode> {
    if s == "invalid_request" then Some(InvalidRequest)
    else if s == "invalid_image" then Some(InvalidImage)
    else if s == "model_deviation" then Some(ModelDeviation)
    else if s == "internal" then Some(Internal)
    else None
  }

  function ReadMode(s: string): Option<Mode> {
    if s == "fast" then Some(Fast) else if s == "hybrid" then Some(Hybrid) else if s == "slow" then Some(Slow) else None
  }

  predicate IsUnsigned(v: Value, limit: nat) {
    v.Whole? && 0 <= v.n < limit
  }

  /** A fixed-length array of unsigned numbers. */
  predicate IsUnsignedList(v: Value, size: nat, limit: nat) {
    v.List? && |v.items| == size && forall k | 0 <= k < size :: IsUnsigned(v.items[k], limit)
  }

  predicate IsFixedList(v: Value, size: nat) {
    v.List? && |v.items| == size && forall k | 0 <= k < size :: v.items[k].Fixed?
  }

  /** `LabeledBox` or `LabeledPoint`: exactly the three fields, with `size` coordinates. */
  predicate IsLabeled(v: Value, norm: Key, px: Key, size: nat) {
    && v.Object? && v.fields.Keys == {KLabel, norm, px}
    && v.fields[KLabel].Text?
    && IsUnsignedList(v.fields[norm], size, U16) && IsFixedList(v.fields[px], size)
  }

  function ReadLabeled(v: Value, norm: Key, px: Key, size: nat): WireBox
    requires IsLabeled(v, norm, px, size)
  {
    WireBox(v.fields[KLabel].s,
      seq(size, k requires 0 <= k < size => v.fields[norm].items[k].n),
      seq(size, k requires 0 <= k < size => v.fields[px].items[k].hundredths))
  }

  predicate AreLabeled(v: Value, norm: Key, px: Key, size: nat) {
    v.List? && forall k | 0 <= k < |v.items| :: IsLabeled(v.items[k], norm, px, size)
  }

  function ReadAllLabeled(v: Value, norm: Key, px: Key, size: nat): seq<WireBox>
    requires AreLabeled(v, norm, px, size)
  {
    seq(|v.items|, k requires 0 <= k < |v.items| => ReadLabeled(v.items[k], norm, px, size))
  }

  const META_KEYS: set<Key> := {KRawText, KTruncated, KDropped, KImageSize, KResizePlan, KMode, KLatency, KTotal}

  predicate IsPlan(v: Value) {
    && v.Object? && v.fields.Keys == {KDstW, KDstH, KTokens, KScale}
    && IsUnsigned(v.fields[KDstW], U32) && IsUnsigned(v.fields[KDstH], U32) && IsUnsigned(v.fields[KTokens], U32)
    && v.fields[KScale].Real?
  }

  predicate IsMeta(f: map<Key, Value>) {
    && META_KEYS <= f.Keys
    && f[KRawText].Text? && f[KTruncated].Bool? && IsUnsigned(f[KDropped], U32)
    && IsUnsignedList(f[KImageSize], 2, U32) && IsPlan(f[KResizePlan])
    && f[KMode].Text? && ReadMode(f[KMode].s).Some? && f[KLatency].Real? && f[KTotal].Real?
  }

  function ReadMeta(f: map<Key, Value>): WireMeta
    requires IsMeta(f)
  {
    var plan := f[KResizePlan].fields;
    WireMeta(f[KRawText].s, f[KTruncated].b, f[KDropped].n, f[KImageSize].items[0].n, f[KImageSize].items[1].n,
      plan[KDstW].n, plan[KDstH].n, plan[KTokens].n, plan[KScale].r,
      ReadMode(f[KMode].s).value, f[KLatency].r, f[KTotal].r)
  }

  /** `serde_json::from_value::<Response>`: the tag selects a body, which allows exactly its own fields. */
  function ReadResponse(f: map<Key, Value>): Option<Response> {
    if !(KType in f && f[KType].Text? && KFrameId in f && f[KFrameId].Text?) then None
    else
      var tag, id := f[KType].s, f[KFrameId].s;
      if tag == "boxes" && f.Keys == META_KEYS + {KType, KFrameId, KBoxes} && IsMeta(f)
        && AreLabeled(f[KBoxes], KBoxNorm, KBoxPx, 4) then
        Some(BoxesReply(id, ReadAllLabeled(f[KBoxes], KBoxNorm, KBoxPx, 4), ReadMeta(f)))
      else if tag == "points" && f.Keys == META_KEYS + {KType, KFrameId, KPoints} && IsMeta(f)
        && AreLabeled(f[KPoints], KPointNorm, KPointPx, 2) then
        Some(PointsReply(id, ReadAllLabeled(f[KPoints], KPointNorm, KPointPx, 2), ReadMeta(f)))
      else if tag == "abstained" && f.Keys == META_KEYS + {KType, KFrameId} && IsMeta(f) then
        Some(AbstainedReply(id, ReadMeta(f)))
      else if tag == "error" && f.Keys == {KType, KFrameId, KCode, KMessage}
              && f[KCode].Text? && ReadCode(f[KCode].s).Some? && f[KMessage].Text? then
        Some(ErrorReply(id, ReadCode(f[KCode].s).value, f[KMessage].s))
      else None
  }

  /** The end of `WorkerConn::infer`. */
  function Egress(v: Value): Result<Response, EgressError> {
    if !v.Object? || KOk !in v.fields then Err(OkMissing)
    else if !v.fields[KOk].Bool? then Err(OkNotBool)
    else
      match ReadResponse(v.fields - {KOk})
      case None => Err(SchemaMismatch)
      case Some(response) =>
        if v.fields[KOk].b == response.ErrorReply? then Err(Contradiction) else Ok(response)
  }

  // ---------- what the worker says is what the edge reads ----------

  function BoxOnWire(d: Detection): WireBox {
    WireBox(d.name, [d.norm.x1, d.norm.y1, d.norm.x2, d.norm.y2], [d.px.x1, d.px.y1, d.px.x2, d.px.y2])
  }

  function PointOnWire(p: Point): WireBox {
    WireBox(p.name, [p.norm.x, p.norm.y], [p.px.x, p.px.y])
  }

  function MetaOnWire(r: InferenceResult, m: Measures): WireMeta {
    WireMeta(r.rawAnswer, r.truncated, r.dropped, m.width, m.height, m.dstW, m.dstH, m.tokens, m.scale, m.mode,
      m.latency, m.total)
  }

  /** The response a result should become. */
  function Expected(frameId: string, r: InferenceResult, m: Measures, message: string): Response {
    match r.kind
    case KindBoxes =>
      BoxesReply(frameId, seq(|r.boxes|, k requires 0 <= k < |r.boxes| => BoxOnWire(r.boxes[k])), MetaOnWire(r, m))
    case KindPoints =>
      PointsReply(frameId, seq(|r.points|, k requires 0 <= k < |r.points| => PointOnWire(r.points[k])),
        MetaOnWire(r, m))
    case KindAbstained => AbstainedReply(frameId, MetaOnWire(r, m))
    case KindDeviation => ErrorReply(frameId, ModelDeviation, message)
  }

  /** The counts fit the 32-bit fields of the schema. */
  predicate Fits(r: InferenceResult, m: Measures) {
    r.dropped < U32 && m.width < U32 && m.height < U32 && m.dstW < U32 && m.dstH < U32 && m.tokens < U32
  }

  lemma TagsDiffer()
    ensures "boxes" != "points" && "boxes" != "abstained" && "boxes" != "error"
    ensures "points" != "abstained" && "points" != "error" && "abstained" != "error"
  {
    var a, b := "boxes", "error";
    assert a[0] == 'b' && b[0] == 'e';
  }

  lemma ModeReads(mode: Mode)
    ensures ReadMode(mode.Wire()) == Some(mode)
  {
    var a, b := "fast", "slow";
    assert a[0] == 'f' && b[0] == 's';
  }

  lemma DeviationReads()
    ensures ReadCode("model_deviation") == Some(ModelDeviation)
  {
    var a, b := "invalid_request", "model_deviation";
    assert a[0] == 'i' && b[0] == 'm';
  }

  lemma BoxReads(d: Detection)
    requires d.norm.x1 < U16 && d.norm.y1 < U16 && d.norm.x2 < U16 && d.norm.y2 < U16
    ensures IsLabeled(BoxValue(d), KBoxNorm, KBoxPx, 4) && ReadLabeled(BoxValue(d), KBoxNorm, KBoxPx, 4) == BoxOnWire(d)
  {
  }

  lemma PointReads(p: Point)
    requires p.norm.x < U16 && p.norm.y < U16
    ensures IsLabeled(PointValue(p), KPointNorm, KPointPx, 2)
    ensures ReadLabeled(PointValue(p), KPointNorm, KPointPx, 2) == PointOnWire(p)
  {
  }

  lemma PlanReads(m: Measures)
    ensures IsPlan(PlanValue(m)) <==> m.dstW < U32 && m.dstH < U32 && m.tokens < U32
  {
    assert PlanValue(m).fields.Keys == {KDstW, KDstH, KTokens, KScale};
  }

  predicate CarriesMeta(f: map<Key, Value>, r: InferenceResult, m: Measures) {
    && META_KEYS <= f.Keys
    && f[KRawText] == Text(r.rawAnswer) && f[KTruncated] == Bool(r.truncated) && f[KDropped] == Whole(r.dropped)
    && f[KImageSize] == List([Whole(m.width), Whole(m.height)]) && f[KResizePlan] == PlanValue(m)
    && f[KMode] == Text(m.mode.Wire()) && f[KLatency] == Real(m.latency) && f[KTotal] == Real(m.total)
  }

  lemma MetaReads(r: InferenceResult, m: Measures, f: map<Key, Value>)
    requires CarriesMeta(f, r, m)
    ensures IsMeta(f) <==> Fits(r, m)
    ensures IsMeta(f) ==> ReadMeta(f) == MetaOnWire(r, m)
  {
    ModeReads(m.mode);
    PlanReads(m);
    SizeReads(m.width, m.height);
    hide ReadMode, IsPlan, IsUnsignedList;
  }

  lemma SizeReads(w: nat, h: nat)
    ensures IsUnsignedList(List([Whole(w), Whole(h)]), 2, U32) <==> w < U32 && h < U32
  {
    var v := List([Whole(w), Whole(h)]);
    assert v.items[0] == Whole(w) && v.items[1] == Whole(h);
  }

  lemma MetaHasKeys(frameId: string, r: InferenceResult, m: Measures)
    ensures Meta(frameId, r, m).Keys == META_KEYS + {KOk, KType, KFrameId}
  {
    hide PlanValue, KindTag;
  }

  lemma MetaFields(frameId: string, r: InferenceResult, m: Measures)
    ensures var f := Meta(frameId, r, m);
      && f.Keys == META_KEYS + {KOk, KType, KFrameId} && CarriesMeta(f, r, m)
      && f[KOk] == Bool(true) && f[KType] == Text(KindTag(r.kind)) && f[KFrameId] == Text(frameId)
  {
    hide PlanValue, KindTag;
    MetaHasKeys(frameId, r, m);
  }

  lemma CarriedOver(f: map<Key, Value>, g: map<Key, Value>, r: InferenceResult, m: Measures)
    requires CarriesMeta(f, r, m) && META_KEYS <= g.Keys && forall k | k in META_KEYS :: g[k] == f[k]
    ensures CarriesMeta(g, r, m)
  {
    hide PlanValue;
  }

  /** The fields of a success body without `ok`, with those of its variant. */
  function Stripped(frameId: string, r: InferenceResult, m: Measures, extra: map<Key, Value>): map<Key, Value> {
    (Meta(frameId, r, m) + extra) - {KOk}
  }

  lemma BodyCarriesMeta(frameId: string, r: InferenceResult, m: Measures, extra: map<Key, Value>)
    requires extra.Keys !! META_KEYS + {KOk, KType, KFrameId}
    ensures var f := Stripped(frameId, r, m, extra);
      && CarriesMeta(f, r, m) && f.Keys == META_KEYS + {KType, KFrameId} + extra.Keys
      && f[KType] == Text(KindTag(r.kind)) && f[KFrameId] == Text(frameId)
      && forall k | k in extra :: f[k] == extra[k]
  {
    hide Meta, CarriesMeta, KindTag;
    MetaFields(frameId, r, m);
    CarriedOver(Meta(frameId, r, m), Stripped(frameId, r, m, extra), r, m);
  }

  lemma SuccessEgress(frameId: string, r: InferenceResult, m: Measures, extra: map<Key, Value>)
    requires extra.Keys !! META_KEYS + {KOk, KType, KFrameId}
    ensures var got := ReadResponse(Stripped(frameId, r, m, extra));
      Egress(Object(Meta(frameId, r, m) + extra))
      == if got.None? then Err(SchemaMismatch) else if got.value.ErrorReply? then Err(Contradiction) else Ok(got.value)
  {
    hide Meta, CarriesMeta, KindTag, ReadResponse;
    MetaFields(frameId, r, m);
  }

  lemma AbstainedReads(frameId: string, r: InferenceResult, m: Measures)
    requires r.kind.KindAbstained?
    ensures ReadResponse(Stripped(frameId, r, m, map[]))
         == if Fits(r, m) then Some(AbstainedReply(frameId, MetaOnWire(r, m))) else None
  {
    hide IsMeta, ReadMeta, Fits, MetaOnWire, AreLabeled, CarriesMeta, Stripped;
    TagsDiffer();
    BodyCarriesMeta(frameId, r, m, map[]);
    var f := Stripped(frameId, r, m, map[]);
    MetaReads(r, m, f);
    assert f.Keys == META_KEYS + {KType, KFrameId};
  }

  lemma BoxesRead(frameId: string, r: InferenceResult, m: Measures)
    requires r.kind.KindBoxes?
    requires AreLabeled(BoxValues(r.boxes), KBoxNorm, KBoxPx, 4)
    ensures var boxes := ReadAllLabeled(BoxValues(r.boxes), KBoxNorm, KBoxPx, 4);
      ReadResponse(Stripped(frameId, r, m, map[KBoxes := BoxValues(r.boxes)]))
      == if Fits(r, m) then Some(BoxesReply(frameId, boxes, MetaOnWire(r, m))) else None
  {
    hide IsMeta, ReadMeta, Fits, MetaOnWire, AreLabeled, CarriesMeta, Stripped, BoxValues, ReadAllLabeled;
    TagsDiffer();
    var extra := map[KBoxes := BoxValues(r.boxes)];
    BodyCarriesMeta(frameId, r, m, extra);
    var f := Stripped(frameId, r, m, extra);
    MetaReads(r, m, f);
    assert KBoxes in extra;
    assert f.Keys == META_KEYS + {KType, KFrameId, KBoxes};
  }

  lemma PointsRead(frameId: string, r: InferenceResult, m: Measures)
    requires r.kind.KindPoints?
    requires AreLabeled(PointValues(r.points), KPointNorm, KPointPx, 2)
    ensures var points := ReadAllLabeled(PointValues(r.points), KPointNorm, KPointPx, 2);
      ReadResponse(Stripped(frameId, r, m, map[KPoints := PointValues(r.points)]))
      == if Fits(r, m) then Some(PointsReply(frameId, points, MetaOnWire(r, m))) else None
  {
    hide IsMeta, ReadMeta, Fits, MetaOnWire, AreLabeled, CarriesMeta, Stripped, PointValues, ReadAllLabeled;
    TagsDiffer();
    var extra := map[KPoints := PointValues(r.points)];
    BodyCarriesMeta(frameId, r, m, extra);
    var f := Stripped(frameId, r, m, extra);
    MetaReads(r, m, f);
    assert KPoints in extra;
    assert f.Keys == META_KEYS + {KType, KFrameId, KPoints};
  }

  lemma GeometryReads(r: InferenceResult, width: nat, height: nat)
    requires IsSound(r, width, height)
    ensures AreLabeled(BoxValues(r.boxes), KBoxNorm, KBoxPx, 4)
    ensures AreLabeled(PointValues(r.points), KPointNorm, KPointPx, 2)
    ensures ReadAllLabeled(BoxValues(r.boxes), KBoxNorm, KBoxPx, 4)
      == seq(|r.boxes|, k requires 0 <= k < |r.boxes| => BoxOnWire(r.boxes[k]))
    ensures ReadAllLabeled(PointValues(r.points), KPointNorm, KPointPx, 2)
      == seq(|r.points|, k requires 0 <= k < |r.points| => PointOnWire(r.points[k]))
  {
    hide BoxValue, PointValue, IsLabeled, ReadLabeled, BoxOnWire, PointOnWire;
    forall k | 0 <= k < |r.boxes|
      ensures IsLabeled(BoxValue(r.boxes[k]), KBoxNorm, KBoxPx, 4)
      ensures IsLabeled(BoxValue(r.boxes[k]), KBoxNorm, KBoxPx, 4)
          ==> ReadLabeled(BoxValue(r.boxes[k]), KBoxNorm, KBoxPx, 4) == BoxOnWire(r.boxes[k])
    {
      assert r.boxes[k] in r.boxes;
      BoxReads(r.boxes[k]);
    }
    forall k | 0 <= k < |r.points|
      ensures IsLabeled(PointValue(r.points[k]), KPointNorm, KPointPx, 2)
      ensures IsLabeled(PointValue(r.points[k]), KPointNorm, KPointPx, 2)
          ==> ReadLabeled(PointValue(r.points[k]), KPointNorm, KPointPx, 2) == PointOnWire(r.points[k])
    {
      assert r.points[k] in r.points;
      PointReads(r.points[k]);
    }
  }

  /** An error body with one of the four codes is read as it was written. */
  lemma ErrorReads(frameId: string, code: string, message: string)
    ensures FrameError(frameId, code, message).Some? <==> ReadCode(code).Some?
    ensures ReadCode(code).Some? ==>
      Egress(FrameError(frameId, code, message).value) == Ok(ErrorReply(frameId, ReadCode(code).value, message))
  {
    hide ReadCode;
    TagsDiffer();
    if ReadCode(code).Some? {
      var f := FrameError(frameId, code, message).value.fields - {KOk};
      assert f.Keys == {KType, KFrameId, KCode, KMessage};
    }
  }

  /**
   Main result: the edge accepts the body of a routed result exactly when its counts fit the schema,
   a deviation always, and what it reads is the result: the id, the variant, every box and point
   with its label, and the metadata.
   */
  lemma EgressReadsTheBody(frameId: string, r: InferenceResult, m: Measures, message: string, width: nat, height: nat)
    requires IsSound(r, width, height)
    ensures Egress(BodyOf(frameId, r, m, message)).Ok? <==> r.kind.KindDeviation? || Fits(r, m)
    ensures Egress(BodyOf(frameId, r, m, message)).Ok? ==>
      Egress(BodyOf(frameId, r, m, message)) == Ok(Expected(frameId, r, m, message))
  {
    hide Egress, Fits, MetaOnWire, Meta, Stripped, FrameError, ReadResponse, BoxValues, PointValues,
      ReadAllLabeled, AreLabeled, IsSound;
    GeometryReads(r, width, height);
    match r.kind
    case KindDeviation =>
      DeviationReads();
      ErrorReads(frameId, "model_deviation", message);
    case KindAbstained =>
      assert Meta(frameId, r, m) + map[] == Meta(frameId, r, m);
      SuccessEgress(frameId, r, m, map[]);
      AbstainedReads(frameId, r, m);
    case KindBoxes =>
      var extra := map[KBoxes := BoxValues(r.boxes)];
      assert Meta(frameId, r, m) + extra == Meta(frameId, r, m)[KBoxes := BoxValues(r.boxes)];
      SuccessEgress(frameId, r, m, extra);
      BoxesRead(frameId, r, m);
    case KindPoints =>
      var extra := map[KPoints := PointValues(r.points)];
      assert Meta(frameId, r, m) + extra == Meta(frameId, r, m)[KPoints := PointValues(r.points)];
      SuccessEgress(frameId, r, m, extra);
      PointsRead(frameId, r, m);
  }

  /** The counts of an accepted image and of an answer of fewer than 2^32 characters always fit. */
  lemma CountsFit(nd: Digits, r: InferenceResult, m: Measures, cap: nat, shrink: (int, int) -> (int, int))
    requires cap < U16 && EdgeGate(m.width, m.height, cap).None? && PlanResize(shrink, m.width, m.height).Ok?
    requires var p := PlanResize(shrink, m.width, m.height).value;
      m.dstW == p.dstW && m.dstH == p.dstH && m.tokens == p.llmTokens
    requires r.dropped <= Localised(nd, r.rawAnswer) && |r.rawAnswer| < U32
    ensures Fits(r, m)
  {
    AcceptedIsPlanned(shrink, m.width, m.height, cap);
    TokensAtAnyCap(m.width, m.height, cap);
    LocalisedIsBounded(nd, r.rawAnswer);
    assert EdgeGate(m.width, m.height, cap).None? ==> m.width <= cap && m.height <= cap;
    hide EdgeGate, PlanResize, Localised;
  }

  lemma InvalidImageReads()
    ensures ReadCode("invalid_image") == Some(InvalidImage)
  {
    assert |"invalid_image"| == 13 && |"invalid_request"| == 15;
  }

  /** The measures are those of the resize plan. */
  predicate FitsPlan(m: Measures, shrink: (int, int) -> (int, int)) {
    var plan := PlanResize(shrink, m.width, m.height);
    plan.Ok? && m.dstW == plan.value.dstW && m.dstH == plan.value.dstH && m.tokens == plan.value.llmTokens
  }

  /** The body for what the engine came to; its `ValueError`s are the image's fault. */
  function BodyFor(
    frameId: string, result: Result<InferenceResult, RoutingError>, m: Measures, message: string
  ): Value {
    match result
    case Ok(r) => BodyOf(frameId, r, m, message)
    case Err(_) => (InvalidImageReads(); FrameError(frameId, "invalid_image", message).value)
  }

  /**
   The whole of `_infer` after the engine's answer, for an accepted request and an accepted image:
   route the answer, plan the size, build the body. Main result: the edge accepts the body, whatever
   the answer. It reads an `invalid_image` error exactly when a coordinate that is read is too long;
   else it reads the routed result: `abstained` exactly when every closed block is a None literal,
   every box and point found for the request with its label, and a count of what was dropped that
   completes the account.
   */
  method ReplyTo(
    nd: Digits, nfc: string -> bool, frameId: string, request: PromptRequest, answer: string,
    width: nat, height: nat, cap: nat, shrink: (int, int) -> (int, int),
    scale: real, mode: Mode, latency: real, total: real, message: string
  )
    returns (body: Value, result: Result<InferenceResult, RoutingError>, m: Measures)
    requires Compile(nfc, request).Ok?
    requires EdgeGate(width, height, cap).None? && cap < U16 && |answer| < U32
    ensures result == Routed(nd, answer, width, height, request.WireName(), Prompt(request))
    ensures FitsPlan(m, shrink)
    ensures body == BodyFor(frameId, result, m, message)
    ensures result.Ok? <==> IsReadableAnswer(nd, answer, RequestedPhrase(request))
    ensures result.Err? ==> Egress(body) == Ok(ErrorReply(frameId, InvalidImage, message))
    ensures result.Ok? ==> Egress(body) == Ok(Expected(frameId, result.value, m, message))
    ensures m.width == width && m.height == height && m.mode == mode
    ensures m.tokens == DivCeil(width, LLM_TOKEN_PX) * DivCeil(height, LLM_TOKEN_PX)
    ensures result.Ok? ==> result.value.rawAnswer == answer && IsSound(result.value, width, height)
    ensures result.Ok? ==> (result.value.kind.KindAbstained? <==> IsAbsent(nd, answer))
    ensures result.Ok? ==>
      |result.value.boxes| + |result.value.points| + result.value.dropped == Localised(nd, answer)
    ensures var found := FoundBoxes(nd, answer, width, height);
      && (result.Ok? ==> (result.value.kind.KindBoxes? <==> !request.PointTo? && found != []))
      && (result.Ok? ==> result.value.boxes == if result.value.kind.KindBoxes? then found else [])
    ensures var found := FoundPoints(nd, answer, RequestedPhrase(request), width, height);
      && (result.Ok? ==> (result.value.kind.KindPoints? <==> request.PointTo? && found != []))
      && (result.Ok? ==> result.value.points == if result.value.kind.KindPoints? then found else [])
  {
    hide Compile, EdgeGate, PlanResize, DivCeil, Egress, IsReadableAnswer, IsSound, IsAbsent, Localised;
    hide FoundBoxes, FoundPoints, BodyOf, Expected, FrameError, RequestedPhrase, Fits, Routed;
    AcceptedIsPlanned(shrink, width, height, cap);
    var plan := PlanResize(shrink, width, height).value;
    m := Measures(width, height, plan.dstW, plan.dstH, plan.llmTokens, scale, mode, latency, total);
    result := RouteRequest(nd, nfc, request, answer, width, height);
    if result.Err? {
      InvalidImageReads();
      ErrorReads(frameId, "invalid_image", message);
      body := FrameError(frameId, "invalid_image", message).value;
    } else {
      CountsFit(nd, result.value, m, cap, shrink);
      EgressReadsTheBody(frameId, result.value, m, message, width, height);
      body := InferBody(frameId, result.value, m, message);
    }
  }
}

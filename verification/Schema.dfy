/**
 The reply schema as the edge enforces it, written out: a body is accepted exactly when it is the
 JSON object of one typed response, every field present, none added, every number in range.
 */
module Schema {
  import opened Wrappers
  import opened Json
  import opened EdgeFrames
  import opened Wire

  // ---------- writing a response ----------

  function ModeText(mode: Mode): string {
    match mode
    case Fast => "fast"
    case Hybrid => "hybrid"
    case Slow => "slow"
  }

  function CodeText(code: ErrorCode): string {
    match code
    case InvalidRequest => "invalid_request"
    case InvalidImage => "invalid_image"
    case ModelDeviation => "model_deviation"
    case Internal => "internal"
  }

  function Wholes(ns: seq<int>): Value {
    List(seq(|ns|, k requires 0 <= k < |ns| => Whole(ns[k])))
  }

  function Fixeds(ns: seq<int>): Value {
    List(seq(|ns|, k requires 0 <= k < |ns| => Fixed(ns[k])))
  }

  function WrittenItem(w: WireBox, norm: Key, px: Key): Value {
    Object(map[KLabel := Text(w.name), norm := Wholes(w.norm), px := Fixeds(w.px)])
  }

  function WrittenItems(ws: seq<WireBox>, norm: Key, px: Key): Value {
    List(seq(|ws|, k requires 0 <= k < |ws| => WrittenItem(ws[k], norm, px)))
  }

  function WrittenMeta(m: WireMeta): map<Key, Value> {
    map[
      KRawText := Text(m.rawText), KTruncated := Bool(m.truncated), KDropped := Whole(m.dropped),
      KImageSize := Wholes([m.width, m.height]),
      KResizePlan := Object(map[
        KDstW := Whole(m.dstW), KDstH := Whole(m.dstH), KTokens := Whole(m.tokens), KScale := Real(m.scale)]),
      KMode := Text(ModeText(m.mode)), KLatency := Real(m.latency), KTotal := Real(m.total)]
  }

  /** The fields of a response, without `ok`. */
  function WrittenFields(r: Response): map<Key, Value> {
    match r
    case BoxesReply(id, boxes, m) =>
      WrittenMeta(m) + map[KType := Text("boxes"), KFrameId := Text(id),
                           KBoxes := WrittenItems(boxes, KBoxNorm, KBoxPx)]
    case PointsReply(id, points, m) =>
      WrittenMeta(m) + map[KType := Text("points"), KFrameId := Text(id),
                           KPoints := WrittenItems(points, KPointNorm, KPointPx)]
    case AbstainedReply(id, m) =>
      WrittenMeta(m) + map[KType := Text("abstained"), KFrameId := Text(id)]
    case ErrorReply(id, code, message) =>
      map[KType := Text("error"), KFrameId := Text(id), KCode := Text(CodeText(code)), KMessage := Text(message)]
  }

  function Written(r: Response): Value {
    Object(WrittenFields(r)[KOk := Bool(!r.ErrorReply?)])
  }

  // ---------- what is in range ----------

  predicate IsItem(w: WireBox, size: nat) {
    |w.norm| == size && |w.px| == size && forall n | n in w.norm :: n < 65_536
  }

  predicate AreItems(ws: seq<WireBox>, size: nat) {
    forall w | w in ws :: IsItem(w, size)
  }

  predicate MetaInRange(m: WireMeta) {
    && m.dropped < 4_294_967_296 && m.width < 4_294_967_296 && m.height < 4_294_967_296
    && m.dstW < 4_294_967_296 && m.dstH < 4_294_967_296 && m.tokens < 4_294_967_296
  }

  predicate IsInSchema(r: Response) {
    match r
    case BoxesReply(_, boxes, m) => AreItems(boxes, 4) && MetaInRange(m)
    case PointsReply(_, points, m) => AreItems(points, 2) && MetaInRange(m)
    case AbstainedReply(_, m) => MetaInRange(m)
    case ErrorReply(_, _, _) => true
  }

  // ---------- what is accepted is written so ----------

  lemma ModeRead(s: string)
    requires ReadMode(s).Some?
    ensures s == ModeText(ReadMode(s).value)
  {
  }

  lemma CodeRead(s: string)
    requires ReadCode(s).Some?
    ensures s == CodeText(ReadCode(s).value)
  {
  }

  lemma WholesRead(v: Value, size: nat, limit: nat, ns: seq<int>)
    requires IsUnsignedList(v, size, limit) && |ns| == size && forall k | 0 <= k < size :: ns[k] == v.items[k].n
    ensures v == Wholes(ns) && forall n | n in ns :: n < limit
  {
    assert v.items == Wholes(ns).items;
  }

  lemma FixedsRead(v: Value, size: nat, ns: seq<int>)
    requires IsFixedList(v, size) && |ns| == size && forall k | 0 <= k < size :: ns[k] == v.items[k].hundredths
    ensures v == Fixeds(ns)
  {
    assert v.items == Fixeds(ns).items;
  }

  lemma ItemRead(v: Value, norm: Key, px: Key, size: nat)
    requires norm != px && norm != KLabel && px != KLabel && IsLabeled(v, norm, px, size)
    ensures var w := ReadLabeled(v, norm, px, size); v == WrittenItem(w, norm, px) && IsItem(w, size)
  {
    var w := ReadLabeled(v, norm, px, size);
    WholesRead(v.fields[norm], size, 65_536, w.norm);
    FixedsRead(v.fields[px], size, w.px);
    hide Wholes, Fixeds, IsUnsignedList, IsFixedList, ReadLabeled;
    assert v.fields == map[KLabel := v.fields[KLabel], norm := v.fields[norm], px := v.fields[px]];
  }

  /** A list is written out when its items are. */
  lemma ItemByItem(v: Value, ws: seq<WireBox>, norm: Key, px: Key)
    requires v.List? && |v.items| == |ws| && forall k | 0 <= k < |ws| :: v.items[k] == WrittenItem(ws[k], norm, px)
    ensures v == WrittenItems(ws, norm, px)
  {
    hide WrittenItem;
    assert v.items == WrittenItems(ws, norm, px).items;
  }

  lemma ItemsRead(v: Value, norm: Key, px: Key, size: nat)
    requires norm != px && norm != KLabel && px != KLabel && AreLabeled(v, norm, px, size)
    ensures var ws := ReadAllLabeled(v, norm, px, size); v == WrittenItems(ws, norm, px) && AreItems(ws, size)
  {
    hide IsLabeled, ReadLabeled, WrittenItem, IsItem, WrittenItems;
    var ws := ReadAllLabeled(v, norm, px, size);
    forall k | 0 <= k < |v.items|
      ensures v.items[k] == WrittenItem(ws[k], norm, px) && IsItem(ws[k], size)
    {
      ItemRead(v.items[k], norm, px, size);
    }
    ItemByItem(v, ws, norm, px);
  }

  lemma PlanRead(v: Value)
    requires IsPlan(v)
    ensures v == Object(map[KDstW := Whole(v.fields[KDstW].n), KDstH := Whole(v.fields[KDstH].n),
                            KTokens := Whole(v.fields[KTokens].n), KScale := Real(v.fields[KScale].r)])
  {
    var f := v.fields;
    assert f == map[KDstW := f[KDstW], KDstH := f[KDstH], KTokens := f[KTokens], KScale := f[KScale]];
  }

  /** Two objects agree on the metadata. */
  predicate SameMeta(f: map<Key, Value>, g: map<Key, Value>) {
    META_KEYS <= f.Keys && META_KEYS <= g.Keys && forall k | k in META_KEYS :: f[k] == g[k]
  }

  lemma MetaRead(f: map<Key, Value>)
    requires IsMeta(f)
    ensures SameMeta(f, WrittenMeta(ReadMeta(f))) && MetaInRange(ReadMeta(f))
  {
    ModeRead(f[KMode].s);
    PlanRead(f[KResizePlan]);
    var m := ReadMeta(f);
    WholesRead(f[KImageSize], 2, U32, [m.width, m.height]);
    hide Wholes, ReadMode, IsUnsignedList;
  }

  /** A success is its metadata and three more fields. */
  lemma FieldsRead(f: map<Key, Value>, more: map<Key, Value>, m: WireMeta)
    requires SameMeta(f, WrittenMeta(m)) && f.Keys == META_KEYS + more.Keys && META_KEYS !! more.Keys
    requires forall k | k in more :: f[k] == more[k]
    ensures f == WrittenMeta(m) + more
  {
    MetaKeys(m);
    hide WrittenMeta;
  }

  lemma GeometryRead(f: map<Key, Value>, items: Key)
    requires (items == KBoxes || items == KPoints) && f.Keys == META_KEYS + {KType, KFrameId, items} && IsMeta(f)
    ensures MetaInRange(ReadMeta(f))
    ensures f == WrittenMeta(ReadMeta(f)) + map[KType := f[KType], KFrameId := f[KFrameId], items := f[items]]
  {
    hide IsMeta, ReadMeta, WrittenMeta, MetaInRange, SameMeta;
    MetaRead(f);
    FieldsRead(f, map[KType := f[KType], KFrameId := f[KFrameId], items := f[items]], ReadMeta(f));
  }

  lemma MetaKeys(m: WireMeta)
    ensures WrittenMeta(m).Keys == META_KEYS
  {
    hide Wholes;
  }

  /** What an accepted body holds. */
  predicate Holds(f: map<Key, Value>, r: Response) {
    && KType in f && KFrameId in f && f[KFrameId] == Text(r.frameId)
    && match r
       case BoxesReply(_, boxes, m) =>
         && f.Keys == META_KEYS + {KType, KFrameId, KBoxes} && f[KType] == Text("boxes")
         && IsMeta(f) && m == ReadMeta(f)
         && AreLabeled(f[KBoxes], KBoxNorm, KBoxPx, 4) && boxes == ReadAllLabeled(f[KBoxes], KBoxNorm, KBoxPx, 4)
       case PointsReply(_, points, m) =>
         && f.Keys == META_KEYS + {KType, KFrameId, KPoints} && f[KType] == Text("points")
         && IsMeta(f) && m == ReadMeta(f)
         && AreLabeled(f[KPoints], KPointNorm, KPointPx, 2)
         && points == ReadAllLabeled(f[KPoints], KPointNorm, KPointPx, 2)
       case AbstainedReply(_, m) =>
         f.Keys == META_KEYS + {KType, KFrameId} && f[KType] == Text("abstained") && IsMeta(f) && m == ReadMeta(f)
       case ErrorReply(_, code, message) =>
         && f.Keys == {KType, KFrameId, KCode, KMessage} && f[KType] == Text("error") && f[KMessage] == Text(message)
         && f[KCode].Text? && ReadCode(f[KCode].s) == Some(code)
  }

  lemma ReadHolds(f: map<Key, Value>)
    requires ReadResponse(f).Some?
    ensures Holds(f, ReadResponse(f).value)
  {
    hide IsMeta, ReadMeta, AreLabeled, ReadAllLabeled, ReadCode;
  }

  lemma ResponseRead(f: map<Key, Value>, r: Response)
    requires Holds(f, r)
    ensures f == WrittenFields(r) && IsInSchema(r)
  {
    hide IsMeta, ReadMeta, WrittenMeta, AreLabeled, ReadAllLabeled, WrittenItems, AreItems, MetaInRange, ReadCode,
      SameMeta;
    match r
    case BoxesReply(id, boxes, m) =>
      GeometryRead(f, KBoxes);
      ItemsRead(f[KBoxes], KBoxNorm, KBoxPx, 4);
    case PointsReply(id, points, m) =>
      GeometryRead(f, KPoints);
      ItemsRead(f[KPoints], KPointNorm, KPointPx, 2);
    case AbstainedReply(id, m) =>
      MetaRead(f);
      FieldsRead(f, map[KType := f[KType], KFrameId := f[KFrameId]], m);
    case ErrorReply(id, code, message) =>
      CodeRead(f[KCode].s);
      assert f == map[KType := f[KType], KFrameId := f[KFrameId], KCode := f[KCode], KMessage := f[KMessage]];
  }

  // ---------- what is written so is accepted ----------

  lemma ModeWritten(mode: Mode)
    ensures ReadMode(ModeText(mode)) == Some(mode)
  {
    assert "fast"[0] == 'f' && "slow"[0] == 's';
  }

  lemma CodeWritten(code: ErrorCode)
    ensures ReadCode(CodeText(code)) == Some(code)
  {
    assert |"invalid_request"| == 15 && |"invalid_image"| == 13 && |"internal"| == 8 && |"model_deviation"| == 15;
    assert "invalid_request"[0] == 'i' && "model_deviation"[0] == 'm';
  }

  lemma ItemWritten(w: WireBox, norm: Key, px: Key, size: nat)
    requires norm != px && norm != KLabel && px != KLabel && IsItem(w, size)
    ensures var v := WrittenItem(w, norm, px); IsLabeled(v, norm, px, size) && ReadLabeled(v, norm, px, size) == w
  {
    var v := WrittenItem(w, norm, px);
    assert v.fields.Keys == {KLabel, norm, px};
    assert forall k | 0 <= k < size :: w.norm[k] in w.norm;
  }

  lemma ItemsWritten(ws: seq<WireBox>, norm: Key, px: Key, size: nat)
    requires norm != px && norm != KLabel && px != KLabel && AreItems(ws, size)
    ensures var v := WrittenItems(ws, norm, px);
      AreLabeled(v, norm, px, size) && ReadAllLabeled(v, norm, px, size) == ws
  {
    hide IsLabeled, ReadLabeled, WrittenItem, IsItem;
    var v := WrittenItems(ws, norm, px);
    forall k | 0 <= k < |ws|
      ensures IsLabeled(v.items[k], norm, px, size)
      ensures IsLabeled(v.items[k], norm, px, size) ==> ReadLabeled(v.items[k], norm, px, size) == ws[k]
    {
      assert ws[k] in ws;
      ItemWritten(ws[k], norm, px, size);
    }
  }

  lemma MetaWritten(f: map<Key, Value>, m: WireMeta)
    requires SameMeta(f, WrittenMeta(m)) && MetaInRange(m)
    ensures IsMeta(f) && ReadMeta(f) == m
  {
    ModeWritten(m.mode);
    var plan := f[KResizePlan];
    assert plan.fields.Keys == {KDstW, KDstH, KTokens, KScale};
    var size := f[KImageSize];
    assert size.items[0] == Whole(m.width) && size.items[1] == Whole(m.height);
    hide ReadMode;
  }

  lemma WithMore(m: WireMeta, more: map<Key, Value>)
    requires META_KEYS !! more.Keys
    ensures var f := WrittenMeta(m) + more;
      SameMeta(f, WrittenMeta(m)) && f.Keys == META_KEYS + more.Keys && forall k | k in more :: f[k] == more[k]
  {
    MetaKeys(m);
    hide WrittenMeta;
  }

  lemma BoxesAccepted(f: map<Key, Value>, id: string)
    requires f.Keys == META_KEYS + {KType, KFrameId, KBoxes} && f[KType] == Text("boxes") && f[KFrameId] == Text(id)
    requires IsMeta(f) && AreLabeled(f[KBoxes], KBoxNorm, KBoxPx, 4)
    ensures ReadResponse(f) == Some(BoxesReply(id, ReadAllLabeled(f[KBoxes], KBoxNorm, KBoxPx, 4), ReadMeta(f)))
  {
    hide IsMeta, ReadMeta, AreLabeled, ReadAllLabeled, ReadCode;
  }

  lemma PointsAccepted(f: map<Key, Value>, id: string)
    requires f.Keys == META_KEYS + {KType, KFrameId, KPoints} && f[KType] == Text("points") && f[KFrameId] == Text(id)
    requires IsMeta(f) && AreLabeled(f[KPoints], KPointNorm, KPointPx, 2)
    ensures ReadResponse(f) == Some(PointsReply(id, ReadAllLabeled(f[KPoints], KPointNorm, KPointPx, 2), ReadMeta(f)))
  {
    hide IsMeta, ReadMeta, AreLabeled, ReadAllLabeled, ReadCode;
    TagsDiffer();
  }

  lemma AbstainedAccepted(f: map<Key, Value>, id: string)
    requires f.Keys == META_KEYS + {KType, KFrameId} && f[KType] == Text("abstained") && f[KFrameId] == Text(id)
    requires IsMeta(f)
    ensures ReadResponse(f) == Some(AbstainedReply(id, ReadMeta(f)))
  {
    hide IsMeta, ReadMeta, AreLabeled, ReadAllLabeled, ReadCode;
    TagsDiffer();
  }

  lemma BoxesWritten(id: string, boxes: seq<WireBox>, m: WireMeta)
    requires AreItems(boxes, 4) && MetaInRange(m)
    ensures ReadResponse(WrittenFields(BoxesReply(id, boxes, m))) == Some(BoxesReply(id, boxes, m))
  {
    hide IsMeta, ReadMeta, WrittenMeta, AreLabeled, ReadAllLabeled, WrittenItems, AreItems, MetaInRange, ReadCode,
      SameMeta;
    hide ReadResponse;
    var more := map[KType := Text("boxes"), KFrameId := Text(id), KBoxes := WrittenItems(boxes, KBoxNorm, KBoxPx)];
    var f := WrittenMeta(m) + more;
    WithMore(m, more);
    MetaWritten(f, m);
    ItemsWritten(boxes, KBoxNorm, KBoxPx, 4);
    assert KType in more && KFrameId in more && KBoxes in more;
    BoxesAccepted(f, id);
  }

  lemma PointsWritten(id: string, points: seq<WireBox>, m: WireMeta)
    requires AreItems(points, 2) && MetaInRange(m)
    ensures ReadResponse(WrittenFields(PointsReply(id, points, m))) == Some(PointsReply(id, points, m))
  {
    hide IsMeta, ReadMeta, WrittenMeta, AreLabeled, ReadAllLabeled, WrittenItems, AreItems, MetaInRange, ReadCode,
      SameMeta;
    hide ReadResponse;
    var more := map[KType := Text("points"), KFrameId := Text(id),
                    KPoints := WrittenItems(points, KPointNorm, KPointPx)];
    var f := WrittenMeta(m) + more;
    WithMore(m, more);
    MetaWritten(f, m);
    ItemsWritten(points, KPointNorm, KPointPx, 2);
    assert KType in more && KFrameId in more && KPoints in more;
    PointsAccepted(f, id);
  }

  lemma AbstainedWritten(id: string, m: WireMeta)
    requires MetaInRange(m)
    ensures ReadResponse(WrittenFields(AbstainedReply(id, m))) == Some(AbstainedReply(id, m))
  {
    hide IsMeta, ReadMeta, WrittenMeta, AreLabeled, ReadAllLabeled, WrittenItems, AreItems, MetaInRange, ReadCode,
      SameMeta;
    hide ReadResponse;
    var more := map[KType := Text("abstained"), KFrameId := Text(id)];
    var f := WrittenMeta(m) + more;
    WithMore(m, more);
    MetaWritten(f, m);
    assert KType in more && KFrameId in more;
    AbstainedAccepted(f, id);
  }

  lemma ErrorWritten(id: string, code: ErrorCode, message: string)
    ensures ReadResponse(WrittenFields(ErrorReply(id, code, message))) == Some(ErrorReply(id, code, message))
  {
    TagsDiffer();
    CodeWritten(code);
    hide ReadCode, CodeText, IsMeta, AreLabeled;
    assert WrittenFields(ErrorReply(id, code, message)).Keys == {KType, KFrameId, KCode, KMessage};
  }

  lemma ResponseWritten(r: Response)
    requires IsInSchema(r)
    ensures ReadResponse(WrittenFields(r)) == Some(r)
  {
    hide ReadResponse, WrittenFields;
    match r
    case BoxesReply(id, boxes, m) => BoxesWritten(id, boxes, m);
    case PointsReply(id, points, m) => PointsWritten(id, points, m);
    case AbstainedReply(id, m) => AbstainedWritten(id, m);
    case ErrorReply(id, code, message) => ErrorWritten(id, code, message);
  }

  /** `ok` is no field of a response. */
  lemma NoOk(r: Response)
    ensures KOk !in WrittenFields(r)
  {
    if !r.ErrorReply? {
      MetaKeys(r.meta);
    }
    hide WrittenMeta, WrittenItems;
  }

  /**
   Main result: the edge accepts a body exactly when it is the written form of a response whose numbers
   are in range, and then it reads that response; anything missing, added or out of range, and an `ok`
   that contradicts the variant, is refused.
   */
  lemma EgressIsExact(v: Value, r: Response)
    ensures Egress(v) == Ok(r) <==> v == Written(r) && IsInSchema(r)
  {
    hide ReadResponse, WrittenFields, IsInSchema, Holds;
    NoOk(r);
    if Egress(v) == Ok(r) {
      ReadHolds(v.fields - {KOk});
      ResponseRead(v.fields - {KOk}, r);
      assert v.fields == (v.fields - {KOk})[KOk := v.fields[KOk]];
    }
    if v == Written(r) && IsInSchema(r) {
      ResponseWritten(r);
      assert v.fields - {KOk} == WrittenFields(r);
    }
  }
}

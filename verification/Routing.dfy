/**
 From the model's answer to exactly one variant of the reply: the tail of the worker's `run`.
 Everything the model localised is either returned or counted as dropped.
 */
module Routing {
  import opened Wrappers
  import opened Text
  import opened Lists
  import opened Scanner
  import opened Items
  import opened Coordinates
  import opened Parsing
  import opened Accounting
  import opened Prompts

  datatype Shape = BoxShape | PointShape

  const EXPECTED_SHAPE: map<string, Shape> := map[
    "detection" := BoxShape,
    "phrase_single" := BoxShape,
    "phrase_multi" := BoxShape,
    "text_grounding" := BoxShape,
    "scene_text" := BoxShape,
    "gui_box" := BoxShape,
    "point" := PointShape
  ]

  const END_OF_TURN := "<|im_end|>"

  datatype Kind = KindBoxes | KindPoints | KindAbstained | KindDeviation

  datatype InferenceResult = InferenceResult(
    kind: Kind, boxes: seq<Detection>, points: seq<Point>, rawAnswer: string, dropped: nat, truncated: bool)

  /** The source's `ValueError`s. */
  datatype RoutingError = UnknownTask | NotAPointPrompt | BadCoordinate(error: ReadError)

  /** The label for bare points: the queried phrase of a point prompt, and none for any other task. */
  function PointLabel(task: string, prompt: string): Option<string> {
    if task == "point" then PointPhrase(prompt) else None
  }

  predicate IsRoutable(task: string, prompt: string) {
    task in EXPECTED_SHAPE && (task == "point" ==> PointPhrase(prompt).Some?)
  }

  /** The boxes of the answer that stand in a run with a label. */
  ghost function FoundBoxes(nd: Digits, answer: string, width: nat, height: nat): seq<Detection> {
    AnswerItemsAreMatches(nd, FourCoord, answer);
    SelectedAreItems(nd, FourCoord, answer, ON_CONTRACT, AnswerItems(nd, FourCoord, answer));
    Boxes(nd, answer, Labelled(AnswerItems(nd, FourCoord, answer)), width, height)
  }

  /** The points of the answer that stand in a run with a label, then the bare ones if there is a phrase. */
  ghost function FoundPoints(nd: Digits, answer: string, phrase: Option<string>, width: nat, height: nat): seq<Point> {
    PointItemsAreMatches(nd, answer, phrase);
    Points(nd, answer, PointItems(nd, answer, phrase), width, height)
  }

  /** No labelled box has a coordinate too long to read. */
  ghost predicate HasReadableBoxes(nd: Digits, answer: string) {
    AnswerItemsAreMatches(nd, FourCoord, answer);
    SelectedAreItems(nd, FourCoord, answer, ON_CONTRACT, AnswerItems(nd, FourCoord, answer));
    AreReadable(nd, FourCoord, answer, Labelled(AnswerItems(nd, FourCoord, answer)))
  }

  /** No labelled point has one, and under a phrase no bare point either. */
  ghost predicate HasReadablePoints(nd: Digits, answer: string, phrase: Option<string>) {
    PointItemsAreMatches(nd, answer, phrase);
    AreReadable(nd, TwoCoord, answer, PointItems(nd, answer, phrase))
  }

  ghost predicate IsReadableAnswer(nd: Digits, answer: string, phrase: Option<string>) {
    HasReadableBoxes(nd, answer) && HasReadablePoints(nd, answer, phrase)
  }

  /** Every closed block of the answer is exactly a None literal. */
  ghost predicate IsAbsent(nd: Digits, answer: string) {
    forall b | b in ClosedBlocks(nd, answer) :: IsExactly(nd, NoneLiteral, answer, b)
  }

  /** The model ended its turn: the last ten characters say so. */
  ghost predicate IsComplete(answer: string) {
    exists text :: answer == text + "<|im_end|>"
  }

  lemma CompleteIff(answer: string)
    ensures IsComplete(answer) <==> EndsWith(answer, END_OF_TURN)
  {
    EndsWithIff(answer, END_OF_TURN);
  }

  /** Every box and point has a label, and coordinates in range. */
  ghost predicate IsSound(r: InferenceResult, width: nat, height: nat) {
    && (forall b | b in r.boxes :: b.name != "" && IsCanonical(b, width, height))
    && (forall p | p in r.points :: p.name != "" && IsInImage(p, width, height))
  }

  /** What the answer holds, block by block: blocks that are not a None literal, a doubled one twice. */
  function Localised(nd: Digits, answer: string): nat {
    |Filter(Present(nd, answer), ClosedBlocks(nd, answer))| + |Filter(Doubled(nd, answer), ClosedBlocks(nd, answer))|
  }

  /** What is found is part of what is localised. */
  lemma FoundIsLocalised(nd: Digits, answer: string, phrase: Option<string>, width: nat, height: nat)
    ensures |FoundBoxes(nd, answer, width, height)| <= |AnswerItems(nd, FourCoord, answer)|
    ensures |FoundPoints(nd, answer, phrase, width, height)| <= |AnswerItems(nd, TwoCoord, answer)|
    ensures |AnswerItems(nd, FourCoord, answer)| + |AnswerItems(nd, TwoCoord, answer)| <= Localised(nd, answer)
  {
    hide Filter, AnswerItems, Malformed, Doubled, IsExactly, FindAll;
    var boxes, points := AnswerItems(nd, FourCoord, answer), AnswerItems(nd, TwoCoord, answer);
    FilterIsShorter(ON_CONTRACT, boxes);
    LabelledOrBare(nd, answer);
    Account(nd, answer);
  }

  /** A labelled item is in a run, so no item is both labelled and bare. */
  lemma LabelledOrBare(nd: Digits, answer: string)
    ensures var items := AnswerItems(nd, TwoCoord, answer); |Labelled(items)| + |Bare(items)| <= |items|
  {
    hide Filter, AnswerItems;
    var items := AnswerItems(nd, TwoCoord, answer);
    LabelledInRuns(nd, TwoCoord, answer);
    FilterIsShorter(ON_CONTRACT, InRuns(items));
    FilterCount(OWNED, UNOWNED, items);
  }

  /** The result for an answer: the specification of `Route`, in terms of what the answer holds. */
  ghost function Routed(nd: Digits, answer: string, width: nat, height: nat, task: string, prompt: string)
    : Result<InferenceResult, RoutingError>
  {
    var phrase := PointLabel(task, prompt);
    if task !in EXPECTED_SHAPE then Err(UnknownTask)
    else if !HasReadableBoxes(nd, answer) then Err(BadCoordinate(CoordinateTooLong))
    else if task == "point" && phrase.None? then Err(NotAPointPrompt)
    else if !HasReadablePoints(nd, answer, phrase) then Err(BadCoordinate(CoordinateTooLong))
    else
      FoundIsLocalised(nd, answer, phrase, width, height);
      var boxes, points := FoundBoxes(nd, answer, width, height), FoundPoints(nd, answer, phrase, width, height);
      var all, truncated := Localised(nd, answer), !EndsWith(answer, END_OF_TURN);
      if task == "point" && points != [] then
        Ok(InferenceResult(KindPoints, [], points, answer, all - |points|, truncated))
      else if task != "point" && boxes != [] then
        Ok(InferenceResult(KindBoxes, boxes, [], answer, all - |boxes|, truncated))
      else
        Ok(InferenceResult(
             if IsAbsent(nd, answer) then KindAbstained else KindDeviation, [], [], answer, all, truncated))
  }

  /** Main result: what the specification promises of every answer. */
  lemma RoutedIsFaithful(nd: Digits, answer: string, width: nat, height: nat, task: string, prompt: string)
    ensures var r := Routed(nd, answer, width, height, task, prompt);
      && (r.Ok? <==> IsRoutable(task, prompt) && IsReadableAnswer(nd, answer, PointLabel(task, prompt)))
      && (IsRoutable(task, prompt) && r.Err? ==> r == Err(BadCoordinate(CoordinateTooLong)))
      && (r.Ok? ==>
            && r.value.rawAnswer == answer && IsSound(r.value, width, height)
            && |r.value.boxes| + |r.value.points| + r.value.dropped == Localised(nd, answer)
            && (r.value.kind.KindAbstained? <==> IsAbsent(nd, answer)))
    ensures var r := Routed(nd, answer, width, height, task, prompt);
      r.Ok? ==> (r.value.truncated <==> !IsComplete(answer))
  {
    hide FoundBoxes, FoundPoints, Localised, IsAbsent, IsCanonical, IsInImage, PointPhrase, HasReadableBoxes,
      HasReadablePoints, AnswerItems;
    var phrase := PointLabel(task, prompt);
    FoundIsLocalised(nd, answer, phrase, width, height);
    DroppedOnAbstention(nd, answer);
    EveryBoxIsSound(nd, answer, width, height);
    EveryPointIsSound(nd, answer, phrase, width, height);
    CompleteIff(answer);
  }

  method Route(nd: Digits, answer: string, width: nat, height: nat, task: string, prompt: string)
    returns (r: Result<InferenceResult, RoutingError>)
    ensures r == Routed(nd, answer, width, height, task, prompt)
    ensures r.Ok? <==> IsRoutable(task, prompt) && IsReadableAnswer(nd, answer, PointLabel(task, prompt))
    ensures r == Err(UnknownTask) <==> task !in EXPECTED_SHAPE
    ensures IsRoutable(task, prompt) ==>
      (r == Err(BadCoordinate(CoordinateTooLong)) <==> !IsReadableAnswer(nd, answer, PointLabel(task, prompt)))
    ensures r.Ok? ==> r.value.rawAnswer == answer && (r.value.truncated <==> !IsComplete(answer))
    ensures r.Ok? ==> (r.value.kind.KindAbstained? <==> IsAbsent(nd, answer))
    ensures r.Ok? ==> |r.value.boxes| + |r.value.points| + r.value.dropped == Localised(nd, answer)
    ensures var found := FoundBoxes(nd, answer, width, height);
      && (r.Ok? ==> (r.value.kind.KindBoxes? <==> task != "point" && found != []))
      && (r.Ok? ==> r.value.boxes == if r.value.kind.KindBoxes? then found else [])
    ensures var found := FoundPoints(nd, answer, PointLabel(task, prompt), width, height);
      && (r.Ok? ==> (r.value.kind.KindPoints? <==> task == "point" && found != []))
      && (r.Ok? ==> r.value.points == if r.value.kind.KindPoints? then found else [])
    ensures r.Ok? ==> IsSound(r.value, width, height)
  {
    hide FindAll, Filter, AnswerItems, Malformed, Present, Doubled, IsExactly, Boxes, Points, PointItems,
      PointPhrase, IsCanonical, IsInImage, AreReadable, EndsWith, IsComplete;
    CompleteIff(answer);
    if task !in EXPECTED_SHAPE {
      return Err(UnknownTask);
    }
    var parsedBoxes := ParseBoxes(nd, answer, width, height);
    if parsedBoxes.Err? {
      return Err(BadCoordinate(CoordinateTooLong));
    }
    var (boxes, boxOff) := parsedBoxes.value;
    var phrase := PointLabel(task, prompt);
    if task == "point" && phrase.None? {
      return Err(NotAPointPrompt);
    }
    var parsedPoints := ParsePoints(nd, answer, width, height, phrase);
    if parsedPoints.Err? {
      return Err(BadCoordinate(CoordinateTooLong));
    }
    var (points, pointOff) := parsedPoints.value;
    var malformed := CountMalformed(nd, answer);
    EveryBoxIsSound(nd, answer, width, height);
    EveryPointIsSound(nd, answer, phrase, width, height);
    Account(nd, answer);
    NothingPresent(nd, answer);
    DroppedOnAbstention(nd, answer);
    OnlyPointIsPointShaped(task);

    var expected := EXPECTED_SHAPE[task];
    var validKind, validCount, dropped;
    if expected == PointShape {
      validKind, validCount, dropped := KindPoints, |points|, |boxes| + boxOff + pointOff + malformed;
    } else {
      validKind, validCount, dropped := KindBoxes, |boxes|, |points| + pointOff + boxOff + malformed;
    }
    var anyGeometryBlock := |boxes| != 0 || |points| != 0 || boxOff != 0 || pointOff != 0 || malformed != 0;
    var truncated := !EndsWith(answer, END_OF_TURN);
    if validCount > 0 {
      var keptBoxes := if validKind == KindBoxes then boxes else [];
      var keptPoints := if validKind == KindPoints then points else [];
      return Ok(InferenceResult(validKind, keptBoxes, keptPoints, answer, dropped, truncated));
    }
    if anyGeometryBlock {
      return Ok(InferenceResult(KindDeviation, [], [], answer, dropped, truncated));
    }
    return Ok(InferenceResult(KindAbstained, [], [], answer, 0, truncated));
  }

  lemma OnlyPointIsPointShaped(task: string)
    requires task in EXPECTED_SHAPE
    ensures EXPECTED_SHAPE[task] == PointShape <==> task == "point"
  {
  }

  /**
   The sum over boxes, points and malformed blocks, which is what an answer without valid geometry
   would drop, is what is localised; it is the 0 written for an abstention exactly when the answer abstains.
   */
  lemma DroppedOnAbstention(nd: Digits, answer: string)
    ensures |AnswerItems(nd, FourCoord, answer)| + |AnswerItems(nd, TwoCoord, answer)|
            + |Filter(Malformed(nd, answer), ClosedBlocks(nd, answer))| == Localised(nd, answer)
    ensures Localised(nd, answer) == 0 <==> IsAbsent(nd, answer)
  {
    hide FindAll, Malformed, Doubled, IsExactly;
    Account(nd, answer);
    NothingPresent(nd, answer);
  }

  lemma {:induction false} LongSpans(r: seq<Span>, lo: nat, hi: nat)
    requires lo <= hi && InOrder(r, lo) && forall m | m in r :: m.start + 11 <= m.end <= hi
    ensures 11 * |r| <= hi - lo
    decreases |r|
  {
    if r != [] {
      assert r[0] in r;
      LongSpans(r[1..], r[0].end, hi);
    }
  }

  lemma {:induction false} FilterIsShorter<T>(keep: T -> bool, xs: seq<T>)
    ensures |Filter(keep, xs)| <= |xs|
  {
    if xs != [] {
      FilterIsShorter(keep, xs[1..]);
    }
  }

  /** Each block takes eleven characters, so what is localised is bounded by the length of the answer. */
  lemma LocalisedIsBounded(nd: Digits, answer: string)
    ensures 11 * Localised(nd, answer) <= 2 * |answer|
  {
    hide Scan, MatchEnd, Filter, Present, Doubled;
    var blocks := ClosedBlocks(nd, answer);
    Found(EndsOf(nd, AnyBlock, answer), 0, |answer|);
    forall b | b in blocks
      ensures b.start + 11 <= b.end <= |answer|
    {
      assert MatchEnd(nd, AnyBlock, answer, b.start) == Some(b.end);
    }
    LongSpans(blocks, 0, |answer|);
    FilterIsShorter(Present(nd, answer), blocks);
    FilterIsShorter(Doubled(nd, answer), blocks);
  }

  lemma EveryBoxIsSound(nd: Digits, answer: string, width: nat, height: nat)
    ensures forall b | b in FoundBoxes(nd, answer, width, height) :: b.name != "" && IsCanonical(b, width, height)
  {
    hide AnswerItems, Filter, IsMatch, IsCanonical, MakeBox;
    AnswerItemsAreMatches(nd, FourCoord, answer);
    var items := AnswerItems(nd, FourCoord, answer);
    SelectedAreItems(nd, FourCoord, answer, ON_CONTRACT, items);
    FilterMembers(ON_CONTRACT, items);
    var boxes := FoundBoxes(nd, answer, width, height);
    forall k | 0 <= k < |boxes|
      ensures boxes[k].name != "" && IsCanonical(boxes[k], width, height)
    {
      assert Labelled(items)[k] in Labelled(items);
      BoxIsSound(nd, answer, Labelled(items)[k], width, height);
    }
  }

  lemma BoxIsSound(nd: Digits, answer: string, item: Item, width: nat, height: nat)
    requires IsMatch(nd, FourCoord, answer, item.at) && item.name != ""
    ensures ReadBox(nd, answer, item.at, item.name, width, height).name != ""
    ensures IsCanonical(ReadBox(nd, answer, item.at, item.name, width, height), width, height)
  {
    var cs := Values(nd, FourCoord, answer, item.at);
    BoxIsCanonical(item.name, cs[0], cs[1], cs[2], cs[3], width, height);
  }

  lemma EveryPointIsSound(nd: Digits, answer: string, phrase: Option<string>, width: nat, height: nat)
    ensures forall p | p in FoundPoints(nd, answer, phrase, width, height) ::
      p.name != "" && IsInImage(p, width, height)
  {
    hide AnswerItems, Filter, IsMatch, IsInImage, MakePoint;
    PointItemsAreMatches(nd, answer, phrase);
    var items := AnswerItems(nd, TwoCoord, answer);
    FilterMembers(ON_CONTRACT, items);
    var kept, points := PointItems(nd, answer, phrase), FoundPoints(nd, answer, phrase, width, height);
    forall k | 0 <= k < |points|
      ensures points[k].name != "" && IsInImage(points[k], width, height)
    {
      if k < |Labelled(items)| {
        assert Labelled(items)[k] in Labelled(items);
      }
      PointIsSound(nd, answer, kept[k], width, height);
    }
  }

  lemma PointIsSound(nd: Digits, answer: string, item: Item, width: nat, height: nat)
    requires IsMatch(nd, TwoCoord, answer, item.at) && item.name != ""
    ensures ReadPoint(nd, answer, item.at, item.name, width, height).name != ""
    ensures IsInImage(ReadPoint(nd, answer, item.at, item.name, width, height), width, height)
  {
    var cs := Values(nd, TwoCoord, answer, item.at);
    ToPixelsInside(ClampCoord(cs[0]), width);
    ToPixelsInside(ClampCoord(cs[1]), height);
  }

  // ---------- from the compiled request to the labels ----------

  /** Main result: what the edge compiles, the worker can route, and the label of bare points is the slot. */
  lemma AcceptedIsRoutable(nfc: string -> bool, request: PromptRequest)
    requires Compile(nfc, request).Ok?
    ensures var (prompt, task) := Compile(nfc, request).value;
      IsRoutable(task, prompt) && PointLabel(task, prompt) == if request.PointTo? then Some(request.slot) else None
  {
    hide Compile, PointPhrase;
    AcceptedIffWellFormed(nfc, request);
    WireNamesAreTasks(request);
    if request.PointTo? {
      PointPhraseInverts(nfc, request.slot);
    }
  }

  lemma WireNamesAreTasks(request: PromptRequest)
    ensures request.WireName() in EXPECTED_SHAPE
    ensures request.WireName() == "point" <==> request.PointTo?
  {
    assert |"point"| == 5 && |request.WireName()| == 5 <==> request.PointTo?;
  }

  /** The label for bare points: the slot of a point request. */
  function RequestedPhrase(request: PromptRequest): Option<string> {
    if request.PointTo? then Some(request.slot) else None
  }

  /** Routing with the prompt and the task that the edge compiles for a request. */
  method RouteRequest(
    nd: Digits, nfc: string -> bool, request: PromptRequest, answer: string, width: nat, height: nat
  )
    returns (r: Result<InferenceResult, RoutingError>)
    requires Compile(nfc, request).Ok?
    ensures r == Routed(nd, answer, width, height, request.WireName(), Prompt(request))
    ensures r.Ok? <==> IsReadableAnswer(nd, answer, RequestedPhrase(request))
    ensures r.Err? ==> r.error == BadCoordinate(CoordinateTooLong)
    ensures r.Ok? ==> r.value.rawAnswer == answer && IsSound(r.value, width, height)
    ensures r.Ok? ==> (r.value.kind.KindAbstained? <==> IsAbsent(nd, answer))
    ensures r.Ok? ==> |r.value.boxes| + |r.value.points| + r.value.dropped == Localised(nd, answer)
    ensures var found := FoundBoxes(nd, answer, width, height);
      && (r.Ok? ==> (r.value.kind.KindBoxes? <==> !request.PointTo? && found != []))
      && (r.Ok? ==> r.value.boxes == if r.value.kind.KindBoxes? then found else [])
    ensures var found := FoundPoints(nd, answer, RequestedPhrase(request), width, height);
      && (r.Ok? ==> (r.value.kind.KindPoints? <==> request.PointTo? && found != []))
      && (r.Ok? ==> r.value.points == if r.value.kind.KindPoints? then found else [])
  {
    AcceptedIffWellFormed(nfc, request);
    AcceptedIsRoutable(nfc, request);
    WireNamesAreTasks(request);
    hide Compile, IsReadableAnswer, IsSound, IsAbsent, Localised, FoundBoxes, FoundPoints, PointPhrase, IsWellFormed,
      Routed;
    var (prompt, task) := Compile(nfc, request).value;
    r := Route(nd, answer, width, height, task, prompt);
  }

  /** Main result: every point outside a ref-run is returned with the slot of the request as its label. */
  lemma BarePointsCarryThePhrase(
    nd: Digits, nfc: string -> bool, slot: string, answer: string, width: nat, height: nat
  )
    requires Compile(nfc, PointTo(slot)).Ok?
    ensures var (prompt, task) := Compile(nfc, PointTo(slot)).value;
      var points := FoundPoints(nd, answer, PointLabel(task, prompt), width, height);
      var items := AnswerItems(nd, TwoCoord, answer);
      && |points| == |Labelled(items)| + |Bare(items)|
      && forall k | |Labelled(items)| <= k < |points| :: points[k].name == slot
  {
    hide Compile, PointPhrase, AnswerItems, Filter, IsMatch;
    AcceptedIffWellFormed(nfc, PointTo(slot));
    AcceptedIsRoutable(nfc, PointTo(slot));
    PointItemsAreMatches(nd, answer, Some(slot));
  }
}

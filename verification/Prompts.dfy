/**
 Typed requests and the seven trained prompt templates: the Rust compiler of requests, the Python
 builders of the same prompts, and the two inverses the worker applies.
 */
module Prompts {
  import opened Wrappers
  import opened Text

  // ---------- the templates ----------

  const CATEGORY_SEPARATOR := "</c>"

  /** Four of the templates end alike; they are told apart by what comes before. */
  const DESCRIPTION := " the following description: "

  const DETECTION_PREFIX := "Locate all the instances that matches" + DESCRIPTION
  const SINGLE_PHRASE_PREFIX := "Locate a single instance that matches" + DESCRIPTION
  const MULTI_PHRASE_PREFIX := "Locate all the instances that match" + DESCRIPTION
  const TEXT_GROUNDING_PREFIX := "Please locate the text referred as "
  const SCENE_TEXT_EXACT := "Detect all the text in box format."
  const GUI_BOX_PREFIX := "Locate the region that matches" + DESCRIPTION
  const POINT_PREFIX := "Point to: "

  const MAX_SLOT_CHARS: nat := 200
  const MAX_DETECTION_CATEGORIES: nat := 10
  const MAX_PROMPT_CHARS: nat := 16384

  /** A typed request: the seven tasks and their slots. */
  datatype PromptRequest =
    | Detection(categories: seq<string>)
    | PhraseSingle(slot: string)
    | PhraseMulti(slot: string)
    | TextGrounding(slot: string)
    | SceneText
    | GuiBox(slot: string)
    | PointTo(slot: string)
  {
    function WireName(): string {
      match this
      case Detection(_) => "detection"
      case PhraseSingle(_) => "phrase_single"
      case PhraseMulti(_) => "phrase_multi"
      case TextGrounding(_) => "text_grounding"
      case SceneText => "scene_text"
      case GuiBox(_) => "gui_box"
      case PointTo(_) => "point"
    }

    function Prefix(): string {
      match this
      case Detection(_) => DETECTION_PREFIX
      case PhraseSingle(_) => SINGLE_PHRASE_PREFIX
      case PhraseMulti(_) => MULTI_PHRASE_PREFIX
      case TextGrounding(_) => TEXT_GROUNDING_PREFIX
      case SceneText => SCENE_TEXT_EXACT
      case GuiBox(_) => GUI_BOX_PREFIX
      case PointTo(_) => POINT_PREFIX
    }
  }

  datatype SlotError =
    | NoCategories
    | TooManyCategories
    | EmptySlot
    | TooLong
    | SurroundingWhitespace
    | ControlCharacter
    | NotNfc
    | HasSeparator
    | TrailingPeriod
    | HasComma
    | PromptTooLong

  // ---------- the Rust side: validate, then assemble ----------

  /** `char::is_control`: Unicode category Cc. */
  predicate IsControl(c: char) {
    c as int <= 0x1F || 0x7F <= c as int <= 0x9F
  }

  /** `slot == slot.trim()`. */
  predicate IsTrimmed(s: string) {
    s == [] || (!IsUnicodeSpace(s[0]) && !IsUnicodeSpace(s[|s| - 1]))
  }

  predicate Contains(s: string, lit: string) {
    Find(s, lit, 0).Some?
  }

  lemma ContainsIff(s: string, lit: string)
    ensures Contains(s, lit) <==> exists a, b :: s == a + lit + b
  {
    if Contains(s, lit) {
      var i := Find(s, lit, 0).value;
      assert s == s[..i] + lit + s[i + |lit|..];
    }
    forall a, b | s == a + lit + b
      ensures Contains(s, lit)
    {
      assert At(s, |a|, lit);
    }
  }

  /** The first rule a slot breaks. Normalisation Form C is a parameter of the model. */
  function ValidateSlot(nfc: string -> bool, slot: string, forbidComma: bool): (r: Option<SlotError>)
    ensures r != Some(PromptTooLong)
  {
    if slot == "" then Some(EmptySlot)
    else if |slot| > MAX_SLOT_CHARS then Some(TooLong)
    else if !IsTrimmed(slot) then Some(SurroundingWhitespace)
    else if exists c | c in slot :: IsControl(c) then Some(ControlCharacter)
    else if !nfc(slot) then Some(NotNfc)
    else if Contains(slot, CATEGORY_SEPARATOR) then Some(HasSeparator)
    else if EndsWith(slot, ".") then Some(TrailingPeriod)
    else if forbidComma && ',' in slot then Some(HasComma)
    else None
  }

  /** The first rule the categories break, in order. */
  function ValidateCategories(nfc: string -> bool, categories: seq<string>): (r: Option<SlotError>)
    ensures r != Some(PromptTooLong)
  {
    if categories == [] then None
    else
      var first := ValidateSlot(nfc, categories[0], true);
      if first.Some? then first else ValidateCategories(nfc, categories[1..])
  }

  function Join(separator: string, parts: seq<string>): string {
    if parts == [] then ""
    else if |parts| == 1 then parts[0]
    else parts[0] + separator + Join(separator, parts[1..])
  }

  function CompileDetection(nfc: string -> bool, categories: seq<string>): Result<string, SlotError> {
    if categories == [] then Err(NoCategories)
    else if |categories| > MAX_DETECTION_CATEGORIES then Err(TooManyCategories)
    else
      match ValidateCategories(nfc, categories)
      case Some(e) => Err(e)
      case None => Ok(DETECTION_PREFIX + Join(CATEGORY_SEPARATOR, categories) + ".")
  }

  function CompileSlot(nfc: string -> bool, prefix: string, slot: string, forbidComma: bool)
    : Result<string, SlotError>
  {
    match ValidateSlot(nfc, slot, forbidComma)
    case Some(e) => Err(e)
    case None => Ok(prefix + slot + ".")
  }

  function Assemble(nfc: string -> bool, request: PromptRequest): Result<string, SlotError> {
    match request
    case Detection(categories) => CompileDetection(nfc, categories)
    case PhraseSingle(slot) => CompileSlot(nfc, SINGLE_PHRASE_PREFIX, slot, false)
    case PhraseMulti(slot) => CompileSlot(nfc, MULTI_PHRASE_PREFIX, slot, false)
    case TextGrounding(slot) => CompileSlot(nfc, TEXT_GROUNDING_PREFIX, slot, false)
    case SceneText => Ok(SCENE_TEXT_EXACT)
    case GuiBox(slot) => CompileSlot(nfc, GUI_BOX_PREFIX, slot, false)
    case PointTo(slot) => CompileSlot(nfc, POINT_PREFIX, slot, true)
  }

  /** A request becomes the trained prompt and the wire name of its task, or the rule it breaks. */
  function Compile(nfc: string -> bool, request: PromptRequest): Result<(string, string), SlotError> {
    match Assemble(nfc, request)
    case Err(e) => Err(e)
    case Ok(prompt) => if |prompt| > MAX_PROMPT_CHARS then Err(PromptTooLong) else Ok((prompt, request.WireName()))
  }

  // ---------- the Python side: strip, build, classify, recover ----------

  function StripAll(parts: seq<string>): seq<string> {
    if parts == [] then []
    else (if Strip(parts[0]) == "" then [] else [Strip(parts[0])]) + StripAll(parts[1..])
  }

  /** `detect_categories`; None is the source's `ValueError`. */
  function DetectCategories(categories: seq<string>): Option<string> {
    var cats := StripAll(categories);
    if cats == [] then None else Some(DETECTION_PREFIX + Join(CATEGORY_SEPARATOR, cats) + ".")
  }

  /** `ground_single`, `ground_multi`, `ground_text`, `ground_gui` and `point_to`, which differ in the prefix. */
  function Ground(prefix: string, phrase: string): Option<string> {
    if Strip(phrase) == "" then None else Some(prefix + Strip(phrase) + ".")
  }

  function PythonPrompt(request: PromptRequest): Option<string> {
    match request
    case Detection(categories) => DetectCategories(categories)
    case SceneText => Some(SCENE_TEXT_EXACT)
    case _ => Ground(request.Prefix(), request.slot)
  }

  function ClassifyPrompt(prompt: string): Option<string> {
    if prompt == SCENE_TEXT_EXACT then Some("scene_text")
    else if StartsWith(prompt, DETECTION_PREFIX) then Some("detection")
    else if StartsWith(prompt, SINGLE_PHRASE_PREFIX) then Some("phrase_single")
    else if StartsWith(prompt, MULTI_PHRASE_PREFIX) then Some("phrase_multi")
    else if StartsWith(prompt, TEXT_GROUNDING_PREFIX) then Some("text_grounding")
    else if StartsWith(prompt, GUI_BOX_PREFIX) then Some("gui_box")
    else if StartsWith(prompt, POINT_PREFIX) then Some("point")
    else None
  }

  function PointPhrase(prompt: string): Option<string> {
    if !StartsWith(prompt, POINT_PREFIX) then None
    else
      var body := prompt[|POINT_PREFIX|..];
      var phrase := if EndsWith(body, ".") then body[..|body| - 1] else body;
      if phrase == "" then None else Some(phrase)
  }

  /** `str.split`: at each occurrence of the separator, left to right. */
  function Split(separator: string, s: string): seq<string>
    requires separator != ""
    decreases |s|
  {
    match Find(s, separator, 0)
    case None => [s]
    case Some(i) => [s[..i]] + Split(separator, s[i + |separator|..])
  }

  // ---------- the separator ----------

  /** The separator has no self-overlap, so nothing before it can make it be found early. */
  lemma SeparatorFound(slot: string, rest: string)
    requires !Contains(slot, CATEGORY_SEPARATOR)
    ensures Find(slot + CATEGORY_SEPARATOR + rest, CATEGORY_SEPARATOR, 0) == Some(|slot|)
  {
    var sep := CATEGORY_SEPARATOR;
    var s := slot + sep + rest;
    assert sep[0] == '<' && sep[1] == '/' && sep[2] == 'c' && sep[3] == '>';
    assert At(s, |slot|, sep);
    forall j: nat | j < |slot|
      ensures !At(s, j, sep)
    {
      if j + 4 <= |slot| {
        assert !At(slot, j, sep);
        var k :| 0 <= k < 4 && slot[j + k] != sep[k];
        assert s[j + k] == slot[j + k];
      } else {
        var k := |slot| - j;
        assert s[j + k] == sep[0] != sep[k];
      }
    }
  }

  lemma NotFound(slot: string)
    requires !Contains(slot, CATEGORY_SEPARATOR)
    ensures Find(slot, CATEGORY_SEPARATOR, 0) == None
  {
  }

  lemma {:induction false} SplitJoin(parts: seq<string>)
    requires parts != [] && forall p | p in parts :: !Contains(p, CATEGORY_SEPARATOR)
    ensures Split(CATEGORY_SEPARATOR, Join(CATEGORY_SEPARATOR, parts)) == parts
    decreases |parts|
  {
    hide Find, At, Contains;
    assert parts[0] in parts;
    if |parts| == 1 {
      NotFound(parts[0]);
    } else {
      var rest := Join(CATEGORY_SEPARATOR, parts[1..]);
      SeparatorFound(parts[0], rest);
      var s := parts[0] + CATEGORY_SEPARATOR + rest;
      assert s[..|parts[0]|] == parts[0] && s[|parts[0]| + 4..] == rest;
      SplitJoin(parts[1..]);
    }
  }

  // ---------- what acceptance means ----------

  /** The rules of one slot, as the protocol document lists them. */
  ghost predicate IsSlot(nfc: string -> bool, s: string, forbidComma: bool) {
    && 1 <= |s| <= 200
    && IsTrimmed(s)
    && (forall c | c in s :: 0x20 <= c as int < 0x7F || 0xA0 <= c as int)
    && nfc(s)
    && !(exists a, b :: s == a + "</c>" + b)
    && s[|s| - 1] != '.'
    && (forbidComma ==> ',' !in s)
  }

  ghost predicate IsWellFormed(nfc: string -> bool, request: PromptRequest) {
    match request
    case Detection(cats) => 1 <= |cats| <= 10 && forall c | c in cats :: IsSlot(nfc, c, true)
    case SceneText => true
    case _ => IsSlot(nfc, request.slot, request.PointTo?)
  }

  /** The text between the prefix and the final period. */
  function Body(request: PromptRequest): string {
    match request
    case Detection(cats) => Join(CATEGORY_SEPARATOR, cats)
    case SceneText => ""
    case _ => request.slot
  }

  function Prompt(request: PromptRequest): string {
    if request.SceneText? then SCENE_TEXT_EXACT else request.Prefix() + Body(request) + "."
  }

  /** The categories as the model was trained to read them. */
  function Listed(cats: seq<string>): string {
    if |cats| == 0 then "" else if |cats| == 1 then cats[0] else cats[0] + "</c>" + Listed(cats[1..])
  }

  /** The sentences the model was trained on, spelled out. */
  function Sentence(request: PromptRequest): string {
    match request
    case Detection(cats) =>
      "Locate all the instances that matches" + " the following description: " + Listed(cats) + "."
    case PhraseSingle(slot) => "Locate a single instance that matches" + " the following description: " + slot + "."
    case PhraseMulti(slot) => "Locate all the instances that match" + " the following description: " + slot + "."
    case TextGrounding(slot) => "Please locate the text referred as " + slot + "."
    case SceneText => "Detect all the text in box format."
    case GuiBox(slot) => "Locate the region that matches" + " the following description: " + slot + "."
    case PointTo(slot) => "Point to: " + slot + "."
  }

  lemma {:induction false} JoinLists(cats: seq<string>)
    ensures Join(CATEGORY_SEPARATOR, cats) == Listed(cats)
  {
    if |cats| > 1 {
      JoinLists(cats[1..]);
    }
  }

  /** Main result: an accepted request becomes its trained sentence, word for word. */
  lemma PromptIsSentence(nfc: string -> bool, request: PromptRequest)
    requires Compile(nfc, request).Ok?
    ensures Compile(nfc, request).value == (Sentence(request), request.WireName())
  {
    AcceptedIffWellFormed(nfc, request);
    hide Compile, IsWellFormed;
    if request.Detection? {
      JoinLists(request.categories);
    }
  }

  lemma SlotAccepted(nfc: string -> bool, s: string, forbidComma: bool)
    ensures ValidateSlot(nfc, s, forbidComma).None? <==> IsSlot(nfc, s, forbidComma)
  {
    ContainsIff(s, CATEGORY_SEPARATOR);
  }

  lemma {:induction false} CategoriesAccepted(nfc: string -> bool, cats: seq<string>)
    ensures ValidateCategories(nfc, cats).None? <==> forall c | c in cats :: IsSlot(nfc, c, true)
  {
    if cats != [] {
      SlotAccepted(nfc, cats[0], true);
      CategoriesAccepted(nfc, cats[1..]);
      assert forall c | c in cats :: c == cats[0] || c in cats[1..];
      assert cats[0] in cats;
    }
  }

  lemma {:induction false} JoinLength(cats: seq<string>)
    requires forall c | c in cats :: |c| <= MAX_SLOT_CHARS
    ensures |Join(CATEGORY_SEPARATOR, cats)| <= (MAX_SLOT_CHARS + 4) * |cats|
  {
    if cats != [] {
      assert cats[0] in cats;
      JoinLength(cats[1..]);
    }
  }

  /** The 16384-character cap never fires: no well-formed request comes near it. */
  lemma PromptIsShort(nfc: string -> bool, request: PromptRequest)
    requires IsWellFormed(nfc, request)
    ensures |Prompt(request)| <= 2107 < MAX_PROMPT_CHARS
  {
    if request.Detection? {
      JoinLength(request.categories);
    }
  }

  /** Main result: a request is accepted exactly when it is well formed, and then its prompt is this. */
  lemma AcceptedIffWellFormed(nfc: string -> bool, request: PromptRequest)
    ensures Compile(nfc, request).Ok? <==> IsWellFormed(nfc, request)
    ensures IsWellFormed(nfc, request) ==> Compile(nfc, request) == Ok((Prompt(request), request.WireName()))
    ensures Compile(nfc, request) != Err(PromptTooLong)
  {
    if request.Detection? {
      CategoriesAccepted(nfc, request.categories);
    } else if !request.SceneText? {
      SlotAccepted(nfc, request.slot, request.PointTo?);
    }
    if IsWellFormed(nfc, request) {
      PromptIsShort(nfc, request);
    }
  }

  // ---------- Python builds the same prompt ----------

  lemma StripNothing(s: string)
    requires IsStripped(s)
    ensures Strip(s) == s
  {
  }

  /** What Python strips beyond Rust's whitespace are control characters, which no slot has. */
  lemma SlotIsStripped(nfc: string -> bool, s: string, forbidComma: bool)
    requires IsSlot(nfc, s, forbidComma)
    ensures Strip(s) == s
  {
    assert s[0] in s && s[|s| - 1] in s;
    StripNothing(s);
  }

  lemma {:induction false} StripAllSlots(nfc: string -> bool, cats: seq<string>)
    requires forall c | c in cats :: IsSlot(nfc, c, true)
    ensures StripAll(cats) == cats
  {
    if cats != [] {
      assert cats[0] in cats;
      SlotIsStripped(nfc, cats[0], true);
      StripAllSlots(nfc, cats[1..]);
    }
  }

  /** Main result: for every accepted request Python builds the prompt that Rust compiles. */
  lemma PythonBuildsTheSame(nfc: string -> bool, request: PromptRequest)
    requires Compile(nfc, request).Ok?
    ensures PythonPrompt(request) == Some(Compile(nfc, request).value.0)
  {
    AcceptedIffWellFormed(nfc, request);
    hide Compile;
    if request.Detection? {
      StripAllSlots(nfc, request.categories);
    } else if !request.SceneText? {
      SlotIsStripped(nfc, request.slot, request.PointTo?);
    }
  }

  lemma {:induction false} StripAllConcat(a: seq<string>, b: seq<string>)
    ensures StripAll(a + b) == StripAll(a) + StripAll(b)
  {
    if a == [] {
      assert a + b == b;
    } else {
      assert (a + b)[1..] == a[1..] + b;
      StripAllConcat(a[1..], b);
    }
  }

  lemma StripAllOne(s: string)
    ensures StripAll([s]) == if Strip(s) == "" then [] else [Strip(s)]
  {
    hide Strip;
  }

  /** Python goes further: whitespace around a slot and blank categories make no difference. */
  lemma PythonIgnoresWhitespace(
    prefix: string, pre: string, s: string, post: string, a: seq<string>, b: seq<string>
  )
    requires AllSpace(pre) && AllSpace(post) && IsStripped(s)
    ensures Ground(prefix, pre + s + post) == if s == "" then None else Some(prefix + s + ".")
    ensures DetectCategories(a + [pre + s + post] + b) == DetectCategories(if s == "" then a + b else a + [s] + b)
  {
    hide AllSpace, IsStripped, Join;
    if s == "" {
      BlankConcat(pre, s, post);
      StripBlank(pre + s + post);
    } else {
      StripPadded(pre, s, post);
      StripNothing(s);
      StripAllConcat(a + [s], b);
      StripAllConcat(a, [s]);
      StripAllOne(s);
    }
    StripAllConcat(a + [pre + s + post], b);
    StripAllConcat(a, [pre + s + post]);
    StripAllOne(pre + s + post);
    StripAllConcat(a, b);
    assert StripAll(a) + [] == StripAll(a);
  }

  lemma BlankConcat(pre: string, s: string, post: string)
    requires AllSpace(pre) && AllSpace(post) && s == ""
    ensures AllSpace(pre + s + post)
  {
  }

  lemma {:induction false} StripBlank(s: string)
    requires AllSpace(s)
    ensures Strip(s) == ""
  {
    if s != "" {
      assert s[0] in s;
      StripBlank(s[1..]);
    }
  }

  // ---------- the inverses ----------

  lemma DifferAt(prefix: string, other: string, rest: string, k: nat)
    requires k < |prefix| && k < |other| && prefix[k] != other[k]
    ensures !StartsWith(prefix + rest, other) && prefix + rest != other
  {
    assert (prefix + rest)[0 + k] == prefix[k];
  }

  lemma StartsWithItself(prefix: string, rest: string)
    ensures StartsWith(prefix + rest, prefix)
  {
  }

  /** The characters at which the templates part. */
  lemma PartingCharacters()
    ensures |DETECTION_PREFIX| == 65 && DETECTION_PREFIX[0] == 'L' && DETECTION_PREFIX[7] == 'a'
    ensures DETECTION_PREFIX[8] == 'l' && DETECTION_PREFIX[35] == 'e'
    ensures |SINGLE_PHRASE_PREFIX| == 65 && SINGLE_PHRASE_PREFIX[0] == 'L'
    ensures SINGLE_PHRASE_PREFIX[7] == 'a' && SINGLE_PHRASE_PREFIX[8] == ' '
    ensures |MULTI_PHRASE_PREFIX| == 63 && MULTI_PHRASE_PREFIX[0] == 'L' && MULTI_PHRASE_PREFIX[7] == 'a'
    ensures MULTI_PHRASE_PREFIX[8] == 'l' && MULTI_PHRASE_PREFIX[35] == ' '
    ensures |TEXT_GROUNDING_PREFIX| == 35 && TEXT_GROUNDING_PREFIX[0] == 'P' && TEXT_GROUNDING_PREFIX[1] == 'l'
    ensures |SCENE_TEXT_EXACT| == 34 && SCENE_TEXT_EXACT[0] == 'D'
    ensures |GUI_BOX_PREFIX| == 58 && GUI_BOX_PREFIX[0] == 'L' && GUI_BOX_PREFIX[7] == 't'
    ensures |POINT_PREFIX| == 10 && POINT_PREFIX[0] == 'P' && POINT_PREFIX[1] == 'o'
  {
  }

  /** No template is a prefix of another, so the first that fits is the right one. */
  lemma PrefixClassifies(request: PromptRequest, rest: string)
    requires !request.SceneText?
    ensures ClassifyPrompt(request.Prefix() + rest) == Some(request.WireName())
  {
    PartingCharacters();
    var p := request.Prefix();
    StartsWithItself(p, rest);
    DifferAt(p, SCENE_TEXT_EXACT, rest, 0);
    match request
    case Detection(_) =>
    case PhraseSingle(_) =>
      DifferAt(p, DETECTION_PREFIX, rest, 8);
    case PhraseMulti(_) =>
      DifferAt(p, DETECTION_PREFIX, rest, 35);  // `match ` against `matches`
      DifferAt(p, SINGLE_PHRASE_PREFIX, rest, 8);
    case TextGrounding(_) =>
      DifferAt(p, DETECTION_PREFIX, rest, 0);
      DifferAt(p, SINGLE_PHRASE_PREFIX, rest, 0);
      DifferAt(p, MULTI_PHRASE_PREFIX, rest, 0);
    case GuiBox(_) =>
      DifferAt(p, DETECTION_PREFIX, rest, 7);
      DifferAt(p, SINGLE_PHRASE_PREFIX, rest, 7);
      DifferAt(p, MULTI_PHRASE_PREFIX, rest, 7);
      DifferAt(p, TEXT_GROUNDING_PREFIX, rest, 0);
    case PointTo(_) =>
      DifferAt(p, DETECTION_PREFIX, rest, 0);
      DifferAt(p, SINGLE_PHRASE_PREFIX, rest, 0);
      DifferAt(p, MULTI_PHRASE_PREFIX, rest, 0);
      DifferAt(p, TEXT_GROUNDING_PREFIX, rest, 1);
      DifferAt(p, GUI_BOX_PREFIX, rest, 0);
  }

  /** Main result: the worker classifies every accepted prompt as the task it was compiled from. */
  lemma ClassifyInverts(nfc: string -> bool, request: PromptRequest)
    requires Compile(nfc, request).Ok?
    ensures ClassifyPrompt(Compile(nfc, request).value.0) == Some(Compile(nfc, request).value.1)
  {
    AcceptedIffWellFormed(nfc, request);
    hide Compile, ClassifyPrompt;
    if request.SceneText? {
      SceneTextClassifies();
    } else {
      assert Prompt(request) == request.Prefix() + (Body(request) + ".");
      PrefixClassifies(request, Body(request) + ".");
    }
  }

  lemma SceneTextClassifies()
    ensures ClassifyPrompt(SCENE_TEXT_EXACT) == Some("scene_text")
  {
  }

  /** Main result: `point_phrase` recovers the queried phrase exactly. */
  lemma PointPhraseInverts(nfc: string -> bool, slot: string)
    requires Compile(nfc, PointTo(slot)).Ok?
    ensures PointPhrase(Compile(nfc, PointTo(slot)).value.0) == Some(slot)
  {
    AcceptedIffWellFormed(nfc, PointTo(slot));
    hide Compile;
    var prompt := POINT_PREFIX + slot + ".";
    assert prompt == POINT_PREFIX + (slot + ".");
    StartsWithItself(POINT_PREFIX, slot + ".");
    assert prompt[|POINT_PREFIX|..] == slot + ".";
    assert (slot + ".")[..|slot|] == slot;
  }

  /** On any prompt: the phrase is what follows the prefix, without a final period, if there is any. */
  lemma PointPhraseIff(prompt: string, phrase: string)
    ensures PointPhrase(prompt) == Some(phrase) <==>
      phrase != ""
      && (prompt == "Point to: " + phrase + "." || (prompt == "Point to: " + phrase && phrase[|phrase| - 1] != '.'))
  {
    var prefix := "Point to: ";
    if StartsWith(prompt, prefix) {
      assert prompt == prefix + prompt[|prefix|..];
      var body := prompt[|prefix|..];
      EndsWithIff(body, ".");
      if EndsWith(body, ".") {
        assert body == body[..|body| - 1] + ".";
      }
    }
    if prompt == prefix + phrase + "." {
      assert prompt == prefix + (phrase + ".");
      StartsWithItself(prefix, phrase + ".");
    }
    if prompt == prefix + phrase {
      StartsWithItself(prefix, phrase);
    }
  }

  /** Main result: splitting the body of a detection prompt recovers the categories. */
  lemma CategoriesRecovered(nfc: string -> bool, cats: seq<string>)
    requires Compile(nfc, Detection(cats)).Ok?
    ensures var prompt := Compile(nfc, Detection(cats)).value.0;
      |DETECTION_PREFIX| < |prompt|
      && Split(CATEGORY_SEPARATOR, prompt[|DETECTION_PREFIX|..|prompt| - 1]) == cats
  {
    AcceptedIffWellFormed(nfc, Detection(cats));
    hide Compile, Split, Join;
    var body := Join(CATEGORY_SEPARATOR, cats);
    var prompt := DETECTION_PREFIX + body + ".";
    assert prompt[|DETECTION_PREFIX|..|prompt| - 1] == body;
    forall c | c in cats
      ensures !Contains(c, CATEGORY_SEPARATOR)
    {
      ContainsIff(c, CATEGORY_SEPARATOR);
    }
    SplitJoin(cats);
  }

  /** Main result: distinct accepted requests give distinct prompts. */
  lemma CompileIsInjective(nfc: string -> bool, a: PromptRequest, b: PromptRequest)
    requires Compile(nfc, a).Ok? && Compile(nfc, b).Ok? && Compile(nfc, a).value.0 == Compile(nfc, b).value.0
    ensures a == b
  {
    AcceptedIffWellFormed(nfc, a);
    AcceptedIffWellFormed(nfc, b);
    ClassifyInverts(nfc, a);
    ClassifyInverts(nfc, b);
    SameTask(a, b);
    if a.Detection? {
      CategoriesRecovered(nfc, a.categories);
      CategoriesRecovered(nfc, b.categories);
    } else if !a.SceneText? {
      hide Compile;
      BodyRecovered(a);
      BodyRecovered(b);
    }
  }

  lemma SameTask(a: PromptRequest, b: PromptRequest)
    requires a.WireName() == b.WireName()
    ensures a.Prefix() == b.Prefix() && (a.Detection? <==> b.Detection?) && (a.PhraseSingle? <==> b.PhraseSingle?)
    ensures (a.PhraseMulti? <==> b.PhraseMulti?) && (a.TextGrounding? <==> b.TextGrounding?)
    ensures (a.SceneText? <==> b.SceneText?) && (a.GuiBox? <==> b.GuiBox?) && (a.PointTo? <==> b.PointTo?)
  {
    assert a.WireName()[0] == b.WireName()[0] && |a.WireName()| == |b.WireName()|;
  }

  lemma BodyRecovered(request: PromptRequest)
    requires !request.SceneText?
    ensures var prompt := Prompt(request);
      |request.Prefix()| < |prompt| && prompt[|request.Prefix()|..|prompt| - 1] == Body(request)
  {
  }
}

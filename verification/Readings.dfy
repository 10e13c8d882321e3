/**
 What every returned box and point says, spelled out in characters: the text it was read from, the
 label it stands under, and the numbers that its digits denote.
 */
module Readings {
  import opened Wrappers
  import opened Text
  import opened Lists
  import opened Scanner
  import opened Blocks
  import opened Items
  import opened Coordinates
  import opened Parsing
  import opened Routing
  import opened Grammar
  import opened Answers

  // ---------- the text of a match ----------

  function Tokens(ts: seq<string>): string {
    if ts == [] then "" else "<" + ts[0] + ">" + Tokens(ts[1..])
  }

  /** The text of the match is a block of exactly these tokens, each of one digit or more. */
  ghost predicate IsSpelled(nd: Digits, s: string, m: Span, ts: seq<string>) {
    && m.start <= m.end <= |s| && s[m.start..m.end] == "<box>" + Tokens(ts) + "</box>"
    && forall t | t in ts :: t != "" && IsNumeral(nd, t)
  }

  lemma TokenSpelled(nd: Digits, s: string, i: nat)
    requires CoordEnd(nd, s, i).Some?
    ensures var j := CoordEnd(nd, s, i).value;
      i + 3 <= j <= |s| && s[i..j] == "<" + s[i + 1..j - 1] + ">" && s[i + 1..j - 1] != ""
  {
  }

  lemma {:induction false} TokensSpelled(nd: Digits, s: string, i: nat, n: nat)
    requires CoordsEnd(nd, s, i, n).Some? && i <= |s|
    ensures var ts, e := Captured(nd, s, i, n), CoordsEnd(nd, s, i, n).value;
      && i <= e <= |s| && s[i..e] == Tokens(ts)
      && forall t | t in ts :: t != ""
    decreases n
  {
    if n > 0 {
      hide CoordEnd;
      var j := CoordEnd(nd, s, i).value;
      TokenSpelled(nd, s, i);
      TokensSpelled(nd, s, j, n - 1);
      var e := CoordsEnd(nd, s, i, n).value;
      assert s[i..e] == s[i..j] + s[j..e];
    }
  }

  lemma MatchSpelled(nd: Digits, p: Pattern, s: string, m: Span)
    requires IsMatch(nd, p, s, m)
    ensures IsSpelled(nd, s, m, Texts(nd, p, s, m))
  {
    hide CoordsEnd, Captured, Tokens;
    var i, n := m.start + 5, Arity(p);
    TokensSpelled(nd, s, i, n);
    var e := CoordsEnd(nd, s, i, n).value;
    assert s[m.start..i] == "<box>" && s[e..m.end] == "</box>";
    assert s[m.start..m.end] == s[m.start..i] + s[i..e] + s[e..m.end];
  }

  // ---------- the label over a match ----------

  predicate IsWithin(m: Span, r: Span) {
    r.start <= m.start && m.end <= r.end
  }

  /** The run begins with this name as its label, with any whitespace around it. */
  ghost predicate IsNameOf(s: string, r: Span, name: string) {
    exists pre, post :: IsPaddedName(s, r, pre, name, post)
  }

  ghost predicate IsPaddedName(s: string, r: Span, pre: string, name: string, post: string) {
    && AllSpace(pre) && AllSpace(post) && IsStripped(name) && '<' !in pre + name + post
    && r.start <= |s| && "<ref>" + (pre + name + post) + "</ref>" <= s[r.start..]
  }

  lemma LabelSpelled(s: string, i: nat)
    requires LabelSpan(s, i).Some?
    ensures var group := LabelSpan(s, i).value;
      i <= |s| && "<ref>" + s[group.start..group.end] + "</ref>" <= s[i..] && '<' !in s[group.start..group.end]
  {
    hide SkipToTag;
    var lo, hi := i + 5, LabelSpan(s, i).value.end;
    assert s[i..lo] == "<ref>" && s[hi..hi + 6] == "</ref>";
    assert s[i..hi + 6] == s[i..lo] + s[lo..hi] + s[hi..hi + 6];
    assert s[i..] == s[i..hi + 6] + s[hi + 6..];
  }

  lemma LabelIsName(s: string, r: Span)
    requires IsRun(s, r)
    ensures IsNameOf(s, r, RunLabel(s, r))
  {
    LabelSpelled(s, r.start);
    hide LabelSpan, RunBlocksEnd, Strip, AllSpace;
    var group := LabelSpan(s, r.start).value;
    var text := s[group.start..group.end];
    StripRemovesOnlySpace(text);
    var pre, post :| text == pre + Strip(text) + post && AllSpace(pre) && AllSpace(post);
    assert IsPaddedName(s, r, pre, RunLabel(s, r), post);
  }

  lemma {:induction false} RunOfItem(nd: Digits, p: Pattern, s: string, rs: seq<Span>, i: Item) returns (r: Span)
    requires p.IsStrict() && AreRuns(s, rs) && i in RunsItems(nd, p, s, rs)
    ensures r in rs && IsWithin(i.at, r)
    decreases |rs|
  {
    hide RunBlocksEnd, LabelSpan, Scan, MatchEnd;
    if i in RunItems(nd, p, s, rs[0]) {
      r := rs[0];
      var g := BlocksStart(s, r.start);
      Found(EndsOf(nd, p, s), g, r.end);
      RunBounded(nd, p, s, g, r.end);
    } else {
      r := RunOfItem(nd, p, s, rs[1..], i);
    }
  }

  lemma {:induction false} OnlyRun(s: string, rs: seq<Span>, lo: nat, m: Span, r: Span)
    requires AreRuns(s, rs) && InOrder(rs, lo) && r in rs && m.start < m.end && IsWithin(m, r)
    ensures IsRun(s, r) && ItemOf(s, rs, m) == Item(m, RunLabel(s, r), false)
    decreases |rs|
  {
    hide RunBlocksEnd, LabelSpan, Strip;
    assert IsRun(s, r);
    if r != rs[0] {
      assert r in rs[1..];
      InOrderBound(rs[1..], rs[0].end);
      OnlyRun(s, rs[1..], rs[0].end, m, r);
    }
  }

  /**
   Main result: a match is named by the one run it stands in, if it stands in one, and bare if not; the
   name is what stands between the tags of that run, without the whitespace around it.
   */
  lemma NamedByItsRun(nd: Digits, p: Pattern, s: string, k: nat)
    requires (p == FourCoord || p == TwoCoord) && k < |FindAll(nd, p, s)|
    ensures var i, runs := AnswerItems(nd, p, s)[k], FindAll(nd, RefRun, s);
      && i.at == FindAll(nd, p, s)[k]
      && (i.bare <==> forall r | r in runs :: !IsWithin(i.at, r))
      && (i.bare ==> i.name == "")
      && forall r | r in runs && IsWithin(i.at, r) :: IsNameOf(s, r, i.name)
  {
    hide Scan, MatchEnd, RunItems, RunBlocksEnd, LabelSpan, Filter, IsNameOf, Strip;
    var i, runs := AnswerItems(nd, p, s)[k], FindAll(nd, RefRun, s);
    AnswerItemsAreMatches(nd, p, s);
    RunsFound(nd, s, 0);
    ItemsByRun(nd, p, s, 0);
    ItemOfBare(s, runs, i.at);
    FilterMembers(OWNED, AnswerItems(nd, p, s));
    assert i in AnswerItems(nd, p, s);
    MatchIsNotEmpty(nd, p, s, i.at);
    if !i.bare {
      var r := RunOfItem(nd, p, s, runs, i);
    }
    forall r | r in runs && IsWithin(i.at, r)
      ensures IsNameOf(s, r, i.name) && !i.bare
    {
      OnlyRun(s, runs, 0, i.at, r);
      LabelIsName(s, r);
    }
  }

  lemma MatchIsNotEmpty(nd: Digits, p: Pattern, s: string, m: Span)
    requires IsMatch(nd, p, s, m)
    ensures m.start < m.end
  {
  }

  // ---------- every box and point ----------

  /** The box is what the text of the match says, under the label over it. */
  ghost predicate IsBoxRead(nd: Digits, s: string, b: Detection, m: Span, width: nat, height: nat) {
    && (exists r | r in FindAll(nd, RefRun, s) :: IsWithin(m, r) && IsNameOf(s, r, b.name))
    && exists x1, y1, x2, y2 :: IsBoxOfTokens(nd, s, b, m, [x1, y1, x2, y2], width, height)
  }

  ghost predicate IsBoxOfTokens(
    nd: Digits, s: string, b: Detection, m: Span, ts: seq<string>, width: nat, height: nat
  )
    requires |ts| == 4
  {
    && IsSpelled(nd, s, m, ts)
    && (assert ts[0] in ts && ts[1] in ts && ts[2] in ts && ts[3] in ts;
        IsBoxOf(b, b.name, DecimalValue(nd, ts[0]), DecimalValue(nd, ts[1]), DecimalValue(nd, ts[2]),
          DecimalValue(nd, ts[3]), width, height))
  }

  ghost predicate IsPointOfTokens(
    nd: Digits, s: string, p: Point, m: Span, ts: seq<string>, width: nat, height: nat
  )
    requires |ts| == 2
  {
    && IsSpelled(nd, s, m, ts)
    && (assert ts[0] in ts && ts[1] in ts;
        IsPointOf(p, p.name, DecimalValue(nd, ts[0]), DecimalValue(nd, ts[1]), width, height))
  }

  /** The point is what the text of the match says. */
  ghost predicate IsPointRead(nd: Digits, s: string, p: Point, m: Span, width: nat, height: nat) {
    exists x, y :: IsPointOfTokens(nd, s, p, m, [x, y], width, height)
  }

  lemma BoxSpelled(nd: Digits, s: string, m: Span, name: string, width: nat, height: nat)
    requires IsMatch(nd, FourCoord, s, m)
    ensures var b := ReadBox(nd, s, m, name, width, height);
      && b.name == name
      && exists x1, y1, x2, y2 :: IsBoxOfTokens(nd, s, b, m, [x1, y1, x2, y2], width, height)
  {
    hide IsMatch, IsSpelled, DecimalValue, MakeBox, Texts;
    var b, ts, cs := ReadBox(nd, s, m, name, width, height), Texts(nd, FourCoord, s, m), Values(nd, FourCoord, s, m);
    MatchSpelled(nd, FourCoord, s, m);
    BoxIsCanonical(name, cs[0], cs[1], cs[2], cs[3], width, height);
    assert ts == [ts[0], ts[1], ts[2], ts[3]];
    assert IsBoxOfTokens(nd, s, b, m, [ts[0], ts[1], ts[2], ts[3]], width, height);
  }

  lemma PointSpelled(nd: Digits, s: string, m: Span, name: string, width: nat, height: nat)
    requires IsMatch(nd, TwoCoord, s, m)
    ensures var p := ReadPoint(nd, s, m, name, width, height);
      p.name == name && IsPointRead(nd, s, p, m, width, height)
  {
    hide IsMatch, IsSpelled, DecimalValue, MakePoint, Texts;
    var p, ts, cs := ReadPoint(nd, s, m, name, width, height), Texts(nd, TwoCoord, s, m), Values(nd, TwoCoord, s, m);
    MatchSpelled(nd, TwoCoord, s, m);
    PointIsPlaced(name, cs[0], cs[1], width, height);
    assert ts == [ts[0], ts[1]];
    assert IsPointOfTokens(nd, s, p, m, [ts[0], ts[1]], width, height);
  }

  /** A labelled item stands in a run that begins with its label. */
  lemma LabelledStands(nd: Digits, p: Pattern, s: string, i: Item)
    requires (p == FourCoord || p == TwoCoord) && i in Labelled(AnswerItems(nd, p, s))
    ensures IsMatch(nd, p, s, i.at) && i.name != ""
    ensures exists r | r in FindAll(nd, RefRun, s) :: IsWithin(i.at, r) && IsNameOf(s, r, i.name)
  {
    hide Filter, FindAll, IsNameOf, IsMatch;
    var items := AnswerItems(nd, p, s);
    FilterMembers(ON_CONTRACT, items);
    AnswerItemsAreMatches(nd, p, s);
    var k :| 0 <= k < |items| && items[k] == i;
    NamedByItsRun(nd, p, s, k);
  }

  /**
   Main result: the boxes are one for each labelled match, in text order. Each carries the label of the
   run it stands in, its corners are the four tokens in its own text, and its pixels are these scaled.
   */
  lemma BoxesAreRead(nd: Digits, s: string, width: nat, height: nat)
    ensures var boxes, items := FoundBoxes(nd, s, width, height), Labelled(AnswerItems(nd, FourCoord, s));
      && |boxes| == |items|
      && forall k | 0 <= k < |boxes| ::
        boxes[k].name == items[k].name && IsBoxRead(nd, s, boxes[k], items[k].at, width, height)
  {
    hide AnswerItems, Filter, IsMatch, ReadBox, IsBoxOfTokens, IsNameOf, FindAll;
    AnswerItemsAreMatches(nd, FourCoord, s);
    var items := AnswerItems(nd, FourCoord, s);
    SelectedAreItems(nd, FourCoord, s, ON_CONTRACT, items);
    forall k | 0 <= k < |Labelled(items)|
      ensures var b := FoundBoxes(nd, s, width, height)[k];
        b.name == Labelled(items)[k].name && IsBoxRead(nd, s, b, Labelled(items)[k].at, width, height)
    {
      var i := Labelled(items)[k];
      assert i in Labelled(items);
      LabelledStands(nd, FourCoord, s, i);
      BoxSpelled(nd, s, i.at, i.name, width, height);
    }
  }

  /**
   Main result: the points are those of the labelled matches, in text order with the labels of their
   runs, and then, under a phrase, those of the matches that stand in no run, all with the phrase.
   */
  lemma PointsAreRead(nd: Digits, s: string, phrase: Option<string>, width: nat, height: nat)
    ensures var points, items := FoundPoints(nd, s, phrase, width, height), AnswerItems(nd, TwoCoord, s);
      var labelled, bare := Labelled(items), if phrase.Some? && phrase.value != "" then Bare(items) else [];
      && |points| == |labelled| + |bare|
      && (forall k | 0 <= k < |labelled| ::
            && points[k].name == labelled[k].name
            && IsPointRead(nd, s, points[k], labelled[k].at, width, height)
            && exists r | r in FindAll(nd, RefRun, s) ::
              IsWithin(labelled[k].at, r) && IsNameOf(s, r, points[k].name))
      && forall k | 0 <= k < |bare| ::
        && points[|labelled| + k].name == phrase.value
        && IsPointRead(nd, s, points[|labelled| + k], bare[k].at, width, height)
        && forall r | r in FindAll(nd, RefRun, s) :: !IsWithin(bare[k].at, r)
  {
    hide AnswerItems, Filter, IsMatch, ReadPoint, IsPointRead, IsNameOf, FindAll;
    PointItemsAreMatches(nd, s, phrase);
    var items, kept := AnswerItems(nd, TwoCoord, s), PointItems(nd, s, phrase);
    var labelled := Labelled(items);
    forall k | 0 <= k < |kept|
      ensures var p := FoundPoints(nd, s, phrase, width, height)[k];
        p.name == kept[k].name && IsPointRead(nd, s, p, kept[k].at, width, height)
    {
      PointSpelled(nd, s, kept[k].at, kept[k].name, width, height);
    }
    forall k | 0 <= k < |labelled|
      ensures exists r | r in FindAll(nd, RefRun, s) :: IsWithin(labelled[k].at, r) && IsNameOf(s, r, labelled[k].name)
    {
      assert labelled[k] in labelled;
      LabelledStands(nd, TwoCoord, s, labelled[k]);
    }
    forall k | 0 <= k < |Bare(items)|
      ensures forall r | r in FindAll(nd, RefRun, s) :: !IsWithin(Bare(items)[k].at, r)
    {
      assert Bare(items)[k] in Bare(items);
      BareStandsApart(nd, s, Bare(items)[k]);
    }
  }

  lemma BareStandsApart(nd: Digits, s: string, i: Item)
    requires i in Bare(AnswerItems(nd, TwoCoord, s))
    ensures forall r | r in FindAll(nd, RefRun, s) :: !IsWithin(i.at, r)
  {
    hide Filter, FindAll, IsNameOf;
    var items := AnswerItems(nd, TwoCoord, s);
    FilterMembers(UNOWNED, items);
    var k :| 0 <= k < |items| && items[k] == i;
    NamedByItsRun(nd, TwoCoord, s, k);
  }

  // ---------- printed answers ----------

  /** A printed block, and the text between the tags of the group it was printed under. */
  datatype Leaf = Leaf(text: string, block: Block)

  function LeavesOf(form: Pattern, text: string, bs: seq<Block>): seq<Leaf> {
    if bs == [] then []
    else (if bs[0].Form() == form then [Leaf(text, bs[0])] else []) + LeavesOf(form, text, bs[1..])
  }

  /** The blocks of a form in text order. */
  function Leaves(form: Pattern, gs: seq<Group>): seq<Leaf> {
    if gs == [] then [] else LeavesOf(form, gs[0].text, gs[0].blocks) + Leaves(form, gs[1..])
  }

  /** The name is the text without the whitespace around it. */
  ghost predicate Trims(text: string, name: string) {
    IsStripped(name) && exists pre, post :: text == pre + name + post && AllSpace(pre) && AllSpace(post)
  }

  /** The box is that of a block printed under a group: with its name, and its four numbers. */
  ghost predicate IsLeafBox(b: Detection, leaf: Leaf, width: nat, height: nat) {
    && leaf.block.BoxBlock? && Trims(leaf.text, b.name)
    && IsBoxOf(b, b.name, leaf.block.x1, leaf.block.y1, leaf.block.x2, leaf.block.y2, width, height)
  }

  /** The point is; `exact` if its name is the text as it stands. */
  ghost predicate IsLeafPoint(p: Point, leaf: Leaf, exact: bool, width: nat, height: nat) {
    && leaf.block.PointBlock? && (if exact then leaf.text == p.name else Trims(leaf.text, p.name))
    && IsPointOf(p, p.name, leaf.block.x, leaf.block.y, width, height)
  }

  /** The boxes are those of the blocks, one for one and in order. */
  ghost predicate AreBoxesOf(boxes: seq<Detection>, leaves: seq<Leaf>, width: nat, height: nat) {
    |boxes| == |leaves| && forall k | 0 <= k < |boxes| :: IsLeafBox(boxes[k], leaves[k], width, height)
  }

  ghost predicate ArePointsOf(points: seq<Point>, leaves: seq<Leaf>, exact: bool, width: nat, height: nat) {
    |points| == |leaves| && forall k | 0 <= k < |points| :: IsLeafPoint(points[k], leaves[k], exact, width, height)
  }

  lemma MoreBoxes(
    a: seq<Detection>, la: seq<Leaf>, b: seq<Detection>, lb: seq<Leaf>, width: nat, height: nat
  )
    requires AreBoxesOf(a, la, width, height) && AreBoxesOf(b, lb, width, height)
    ensures AreBoxesOf(a + b, la + lb, width, height)
  {
    hide IsLeafBox;
  }

  lemma MorePoints(
    a: seq<Point>, la: seq<Leaf>, b: seq<Point>, lb: seq<Leaf>, exact: bool, width: nat, height: nat
  )
    requires ArePointsOf(a, la, exact, width, height) && ArePointsOf(b, lb, exact, width, height)
    ensures ArePointsOf(a + b, la + lb, exact, width, height)
  {
    hide IsLeafPoint;
  }

  lemma OneBox(name: string, leaf: Leaf, width: nat, height: nat)
    requires leaf.block.BoxBlock? && Trims(leaf.text, name)
    ensures var block := leaf.block;
      AreBoxesOf([MakeBox(name, block.x1, block.y1, block.x2, block.y2, width, height)], [leaf], width, height)
  {
    hide MakeBox, IsBoxOf, Trims;
    var block := leaf.block;
    BoxIsCanonical(name, block.x1, block.y1, block.x2, block.y2, width, height);
    BoxHasName(name, block, width, height);
  }

  lemma BoxHasName(name: string, block: Block, width: nat, height: nat)
    requires block.BoxBlock?
    ensures MakeBox(name, block.x1, block.y1, block.x2, block.y2, width, height).name == name
  {
  }

  lemma OnePlaced(name: string, leaf: Leaf, exact: bool, width: nat, height: nat)
    requires leaf.block.PointBlock? && if exact then leaf.text == name else Trims(leaf.text, name)
    ensures ArePointsOf([MakePoint(name, leaf.block.x, leaf.block.y, width, height)], [leaf], exact, width, height)
  {
    hide IsScaled, Trims, ToPixels;
    PointIsPlaced(name, leaf.block.x, leaf.block.y, width, height);
  }

  lemma {:induction false} LeafBoxes(name: string, text: string, bs: seq<Block>, width: nat, height: nat)
    requires Trims(text, name)
    ensures AreBoxesOf(BoxesIn(name, bs, width, height), LeavesOf(FourCoord, text, bs), width, height)
  {
    hide MakeBox, Trims, IsLeafBox;
    if bs != [] {
      LeafBoxes(name, text, bs[1..], width, height);
      if bs[0].BoxBlock? {
        var first := MakeBox(name, bs[0].x1, bs[0].y1, bs[0].x2, bs[0].y2, width, height);
        OneBox(name, Leaf(text, bs[0]), width, height);
        MoreBoxes([first], [Leaf(text, bs[0])], BoxesIn(name, bs[1..], width, height),
          LeavesOf(FourCoord, text, bs[1..]), width, height);
      }
    }
  }

  lemma {:induction false} LeafPoints(
    name: string, text: string, bs: seq<Block>, exact: bool, width: nat, height: nat
  )
    requires if exact then text == name else Trims(text, name)
    ensures ArePointsOf(PointsIn(name, bs, width, height), LeavesOf(TwoCoord, text, bs), exact, width, height)
  {
    hide MakePoint, Trims, IsLeafPoint;
    if bs != [] {
      LeafPoints(name, text, bs[1..], exact, width, height);
      if bs[0].PointBlock? {
        var first := MakePoint(name, bs[0].x, bs[0].y, width, height);
        OnePlaced(name, Leaf(text, bs[0]), exact, width, height);
        MorePoints([first], [Leaf(text, bs[0])], PointsIn(name, bs[1..], width, height),
          LeavesOf(TwoCoord, text, bs[1..]), exact, width, height);
      }
    }
  }

  /** The points are those of bare blocks, in order, all with the phrase for a name. */
  ghost predicate ArePointsUnder(
    points: seq<Point>, bare: seq<Block>, phrase: Option<string>, width: nat, height: nat
  ) {
    if phrase.None? || phrase.value == "" then points == []
    else ArePointsOf(points, LeavesOf(TwoCoord, phrase.value, bare), true, width, height)
  }

  lemma NameTrims(g: Group)
    ensures Trims(g.text, g.Name())
  {
    hide AllSpace;
    StripRemovesOnlySpace(g.text);
  }

  lemma {:induction false} GroupLeaves(gs: seq<Group>, width: nat, height: nat)
    ensures AreBoxesOf(GroupBoxes(gs, width, height), Leaves(FourCoord, gs), width, height)
    ensures ArePointsOf(GroupPoints(gs, width, height), Leaves(TwoCoord, gs), false, width, height)
  {
    hide Group.Name, Trims, BoxesIn, PointsIn, LeavesOf, IsLeafBox, IsLeafPoint;
    if gs != [] {
      var g := gs[0];
      NameTrims(g);
      LeafBoxes(g.Name(), g.text, g.blocks, width, height);
      LeafPoints(g.Name(), g.text, g.blocks, false, width, height);
      GroupLeaves(gs[1..], width, height);
      MoreBoxes(BoxesIn(g.Name(), g.blocks, width, height), LeavesOf(FourCoord, g.text, g.blocks),
        GroupBoxes(gs[1..], width, height), Leaves(FourCoord, gs[1..]), width, height);
      MorePoints(PointsIn(g.Name(), g.blocks, width, height), LeavesOf(TwoCoord, g.text, g.blocks),
        GroupPoints(gs[1..], width, height), Leaves(TwoCoord, gs[1..]), false, width, height);
    }
  }

  lemma PhraseLeaves(bare: seq<Block>, phrase: Option<string>, width: nat, height: nat)
    ensures ArePointsUnder(PhrasePoints(phrase, bare, width, height), bare, phrase, width, height)
  {
    hide PointsIn, LeavesOf, ArePointsOf;
    if phrase.Some? && phrase.value != "" {
      LeafPoints(phrase.value, phrase.value, bare, true, width, height);
    }
  }

  /**
   Main result: of a printed answer the boxes are those of its groups, in order: the k-th has the name
   between the tags of the group it was printed under, whatever whitespace was put around it, and the
   four numbers printed. So are the points, and the bare ones that follow have the phrase for a name.
   */
  lemma PrintedIsRead(
    nd: Digits, bare: seq<Block>, gs: seq<Group>, tail: string, phrase: Option<string>, width: nat, height: nat
  )
    requires AreGroups(gs) && NoClose(tail, 0)
    ensures AreBoxesOf(FoundBoxes(nd, Print(bare, gs) + tail, width, height), Leaves(FourCoord, gs), width, height)
    ensures var points, leaves := FoundPoints(nd, Print(bare, gs) + tail, phrase, width, height), Leaves(TwoCoord, gs);
      && |leaves| <= |points|
      && ArePointsOf(points[..|leaves|], leaves, false, width, height)
      && ArePointsUnder(points[|leaves|..], bare, phrase, width, height)
  {
    GroupLeaves(gs, width, height);
    assert |GroupPoints(gs, width, height)| == |Leaves(TwoCoord, gs)|;
    hide *;
    ParseAfterPrint(nd, bare, gs, tail, phrase, width, height);
    PhraseLeaves(bare, phrase, width, height);
    var a, b := GroupPoints(gs, width, height), PhrasePoints(phrase, bare, width, height);
    assert (a + b)[..|a|] == a && (a + b)[|a|..] == b;
  }
}

/**
 Whole answers in the trained grammar: bare blocks, then groups, then whatever follows. The parser
 returns what was printed, and an answer that was cut short anywhere returns a prefix of it.
 */
module Answers {
  import opened Wrappers
  import opened Text
  import opened Lists
  import opened Scanner
  import opened Blocks
  import opened Items
  import opened Coordinates
  import opened Parsing
  import opened Accounting
  import opened Routing
  import opened Grammar

  function Print(bare: seq<Block>, gs: seq<Group>): string {
    PrintBlocks(bare) + PrintGroups(gs)
  }

  /** `s` prints some bare blocks and groups, and nothing after them closes a block. */
  ghost predicate Prints(s: string, bare: seq<Block>, gs: seq<Group>) {
    && AreGroups(gs)
    && At(s, 0, PrintBlocks(bare))
    && At(s, |PrintBlocks(bare)|, PrintGroups(gs))
    && NoClose(s, |PrintBlocks(bare)| + |PrintGroups(gs)|)
  }

  lemma PrintedIs(bare: seq<Block>, gs: seq<Group>, tail: string)
    requires AreGroups(gs) && NoClose(tail, 0)
    ensures Prints(Print(bare, gs) + tail, bare, gs)
  {
    hide PrintBlocks, PrintGroups;
    var a, b := PrintBlocks(bare), PrintGroups(gs);
    var s := a + b + tail;
    assert At(s, 0, a) && At(s, |a|, b);
    forall k | |a| + |b| <= k
      ensures !CloseBox(s, k)
    {
      assert !CloseBox(tail, k - |a| - |b|);
    }
  }

  /** How many blocks are of a form. */
  function CountOf(p: Pattern, bs: seq<Block>): nat {
    if bs == [] then 0 else (if bs[0].Form() == p then 1 else 0) + CountOf(p, bs[1..])
  }

  lemma {:induction false} SpansCount(p: Pattern, bs: seq<Block>, i: nat)
    ensures |Spans(p, bs, i)| == CountOf(p, bs)
    decreases |bs|
  {
    hide PrintBlock;
    if bs != [] {
      SpansCount(p, bs[1..], i + |PrintBlock(bs[0])|);
    }
  }

  // ---------- the runs, and what is outside them ----------

  lemma BareFound(nd: Digits, p: Pattern, s: string, bare: seq<Block>, gs: seq<Group>)
    requires p.IsStrict() && Prints(s, bare, gs)
    ensures var i := |PrintBlocks(bare)|;
      i <= |s| && FindAll(nd, p, s) == Spans(p, bare, 0) + FindFrom(nd, p, s, i, |s|)
  {
    hide At, PrintBlocks, PrintGroups, Spans, Scan, NoClose, EndsOf, AreGroups;
    BlocksFound(nd, p, s, 0, bare);
    FindSplit(EndsOf(nd, p, s), 0, |PrintBlocks(bare)|, |s|);
  }

  lemma RunsAreGroups(nd: Digits, s: string, bare: seq<Block>, gs: seq<Group>)
    requires Prints(s, bare, gs)
    ensures var i := |PrintBlocks(bare)|;
      && i <= |s| && AreRuns(s, RunsOf(gs, i))
      && FindAll(nd, RefRun, s) == RunsOf(gs, i) == FindFrom(nd, RefRun, s, i, |s|)
  {
    hide At, PrintBlocks, PrintGroups, RunsOf, Scan, NoClose, RunBlocksEnd, IsRun;
    var i, ends := |PrintBlocks(bare)|, EndsOf(nd, RefRun, s);
    AtFits(s, 0, PrintBlocks(bare));
    NoOtherTag(nd, s, 0, bare);
    forall x | 0 <= x < i
      ensures ends[x].None?
    {
      assert !OpenRef(s, x);
    }
    FoundNothing(ends, 0, i);
    FindSplit(ends, 0, i, |s|);
    GroupsFound(nd, s, i, gs);
  }

  /** Items that belong to no run. */
  function Orphans(ms: seq<Span>): (items: seq<Item>)
    ensures |items| == |ms| && forall k | 0 <= k < |ms| :: items[k] == Item(ms[k], "", true)
  {
    seq(|ms|, k requires 0 <= k < |ms| => Item(ms[k], "", true))
  }

  lemma OrphansOf(s: string, rs: seq<Span>, ms: seq<Span>, i: nat)
    requires AreRuns(s, rs) && InOrder(rs, i) && forall m | m in ms :: m.end <= i
    ensures ItemsOf(s, rs, ms) == Orphans(ms)
    ensures Bare(ItemsOf(s, rs, ms)) == Orphans(ms) && InRuns(ItemsOf(s, rs, ms)) == []
  {
    hide ItemOf, IsRun, RunLabel;
    InOrderBound(rs, i);
    forall k | 0 <= k < |ms|
      ensures ItemOf(s, rs, ms[k]) == Item(ms[k], "", true)
    {
      assert ms[k] in ms;
      ItemOfBare(s, rs, ms[k]);
    }
    FilterAll(UNOWNED, Orphans(ms));
    FilterNone(OWNED, Orphans(ms));
  }

  lemma {:induction false} SpansBefore(p: Pattern, bs: seq<Block>, i: nat)
    ensures forall m | m in Spans(p, bs, i) :: m.end <= i + |PrintBlocks(bs)|
    decreases |bs|
  {
    hide PrintBlock;
    if bs != [] {
      SpansBefore(p, bs[1..], i + |PrintBlock(bs[0])|);
    }
  }

  /** The items of a printed answer: those of its groups in runs, its bare blocks outside. */
  lemma ItemsPrinted(nd: Digits, p: Pattern, s: string, bare: seq<Block>, gs: seq<Group>)
    requires p.IsStrict() && Prints(s, bare, gs)
    ensures var items, rs := AnswerItems(nd, p, s), RunsOf(gs, |PrintBlocks(bare)|);
      && AreRuns(s, rs)
      && InRuns(items) == RunsItems(nd, p, s, rs)
      && Bare(items) == Orphans(Spans(p, bare, 0))
      && |items| == |InRuns(items)| + |Bare(items)|
  {
    hide At, PrintBlocks, PrintGroups, RunsOf, Spans, Scan, NoClose, ItemOf, IsRun, RunLabel, RunsItems,
      Filter, AreGroups;
    var i := |PrintBlocks(bare)|;
    var rs := RunsOf(gs, i);
    RunsAreGroups(nd, s, bare, gs);
    RunsFound(nd, s, i);
    BareFound(nd, p, s, bare, gs);
    SpansBefore(p, bare, 0);
    var a, b := Spans(p, bare, 0), FindFrom(nd, p, s, i, |s|);
    OrphansOf(s, rs, a, i);
    ItemsByRun(nd, p, s, i);
    MatchesInGroups(nd, p, s, i, gs);
    FilterCount(OWNED, UNOWNED, ItemsOf(s, rs, b));
    assert AnswerItems(nd, p, s) == ItemsOf(s, rs, a) + ItemsOf(s, rs, b);
    FilterConcat(OWNED, ItemsOf(s, rs, a), ItemsOf(s, rs, b));
    FilterConcat(UNOWNED, ItemsOf(s, rs, a), ItemsOf(s, rs, b));
    FilterCount(OWNED, UNOWNED, AnswerItems(nd, p, s));
  }

  // ---------- boxes and points ----------

  lemma {:induction false} EveryRunIsNamed(nd: Digits, p: Pattern, s: string, i: nat, gs: seq<Group>)
    requires p.IsStrict() && AreGroups(gs) && At(s, i, PrintGroups(gs)) && NoClose(s, i + |PrintGroups(gs)|)
    ensures AreRuns(s, RunsOf(gs, i))
    ensures forall item | item in RunsItems(nd, p, s, RunsOf(gs, i)) :: ON_CONTRACT(item)
    decreases |gs|
  {
    hide At, PrintGroup, PrintBlocks, Spans, MatchEnd, IsRun, NoClose, RunItems, RunLabel, LabelSpan;
    GroupsFound(nd, s, i, gs);
    if gs != [] {
      FirstGroup(nd, s, i, gs);
      GroupItems(nd, p, s, i, gs);
      EveryRunIsNamed(nd, p, s, i + |PrintGroup(gs[0])|, gs[1..]);
    }
  }

  /** Every item in a run is on contract, and no other is. */
  lemma LabelledPrinted(nd: Digits, p: Pattern, s: string, bare: seq<Block>, gs: seq<Group>)
    requires (p == FourCoord || p == TwoCoord) && Prints(s, bare, gs)
    ensures |AnswerItems(nd, p, s)| == |Labelled(AnswerItems(nd, p, s))| + CountOf(p, bare)
  {
    hide At, PrintBlocks, PrintGroups, RunsOf, Spans, NoClose, IsRun, RunsItems, Filter, AreGroups,
      AnswerItems, CountOf;
    ItemsPrinted(nd, p, s, bare, gs);
    EveryRunIsNamed(nd, p, s, |PrintBlocks(bare)|, gs);
    FilterAll(ON_CONTRACT, InRuns(AnswerItems(nd, p, s)));
    LabelledInRuns(nd, p, s);
    SpansCount(p, bare, 0);
  }

  lemma BoxesReadBack(nd: Digits, s: string, bare: seq<Block>, gs: seq<Group>, width: nat, height: nat)
    requires Prints(s, bare, gs)
    ensures FoundBoxes(nd, s, width, height) == GroupBoxes(gs, width, height)
    ensures |AnswerItems(nd, FourCoord, s)| == |GroupBoxes(gs, width, height)| + CountOf(FourCoord, bare)
  {
    hide At, PrintBlocks, PrintGroups, RunsOf, NoClose, IsRun, RunsItems, Filter, AreGroups, AnswerItems,
      GroupBoxes, Emitted, FindAll, IsMatch;
    RunsAreGroups(nd, s, bare, gs);
    BoxesInRuns(nd, s, width, height);
    BoxesOfGroups(nd, s, |PrintBlocks(bare)|, gs, width, height);
    LabelledPrinted(nd, FourCoord, s, bare, gs);
  }

  /** The points under no phrase: those of the groups. */
  lemma LabelledPointsReadBack(nd: Digits, s: string, bare: seq<Block>, gs: seq<Group>, width: nat, height: nat)
    requires Prints(s, bare, gs)
    ensures AreItems(nd, TwoCoord, s, Labelled(AnswerItems(nd, TwoCoord, s)))
    ensures Points(nd, s, Labelled(AnswerItems(nd, TwoCoord, s)), width, height) == GroupPoints(gs, width, height)
  {
    hide At, PrintBlocks, PrintGroups, RunsOf, NoClose, IsRun, RunsItems, Filter, AreGroups, AnswerItems,
      GroupPoints, EmittedPoints, FindAll, IsMatch;
    RunsAreGroups(nd, s, bare, gs);
    PointsInRuns(nd, s, width, height);
    PointsOfGroups(nd, s, |PrintBlocks(bare)|, gs, width, height);
  }

  lemma BarePointsReadBack(
    nd: Digits, s: string, bare: seq<Block>, gs: seq<Group>, phrase: string, width: nat, height: nat
  )
    requires Prints(s, bare, gs)
    ensures var items := Renamed(Bare(AnswerItems(nd, TwoCoord, s)), phrase);
      AreItems(nd, TwoCoord, s, items) && Points(nd, s, items, width, height) == PointsIn(phrase, bare, width, height)
  {
    hide At, PrintBlocks, PrintGroups, RunsOf, NoClose, IsRun, RunsItems, Filter, AreGroups, AnswerItems,
      PointsIn, Spans, IsMatch;
    ItemsPrinted(nd, TwoCoord, s, bare, gs);
    PointsRead(nd, s, 0, bare, phrase, width, height);
    var items, named := Renamed(Bare(AnswerItems(nd, TwoCoord, s)), phrase), Named(Spans(TwoCoord, bare, 0), phrase);
    assert forall k | 0 <= k < |items| :: items[k].at == named[k].at && items[k].name == named[k].name;
  }

  function PhrasePoints(phrase: Option<string>, bare: seq<Block>, width: nat, height: nat): seq<Point> {
    if phrase.Some? && phrase.value != "" then PointsIn(phrase.value, bare, width, height) else []
  }

  lemma PointsReadBack(
    nd: Digits, s: string, bare: seq<Block>, gs: seq<Group>, phrase: Option<string>, width: nat, height: nat
  )
    requires Prints(s, bare, gs)
    ensures FoundPoints(nd, s, phrase, width, height)
         == GroupPoints(gs, width, height) + PhrasePoints(phrase, bare, width, height)
    ensures |AnswerItems(nd, TwoCoord, s)| == |GroupPoints(gs, width, height)| + CountOf(TwoCoord, bare)
  {
    hide Prints, Filter, AnswerItems, GroupPoints, PointsIn, CountOf, IsMatch, ReadPoint;
    LabelledPrinted(nd, TwoCoord, s, bare, gs);
    LabelledPointsReadBack(nd, s, bare, gs, width, height);
    PointItemsAreMatches(nd, s, phrase);
    if phrase.Some? && phrase.value != "" {
      BarePointsReadBack(nd, s, bare, gs, phrase.value, width, height);
      var items := AnswerItems(nd, TwoCoord, s);
      PointsConcat(nd, s, Labelled(items), Renamed(Bare(items), phrase.value), width, height);
    }
  }

  // ---------- every coordinate can be read ----------

  /** Every coordinate that was printed is short enough for `int`. */
  ghost predicate AreShort(bare: seq<Block>, gs: seq<Group>) {
    && (forall b | b in bare :: IsShort(b))
    && (forall g | g in gs :: forall b | b in g.blocks :: IsShort(b))
  }

  /** Every coordinate that was printed is one of the grid, as the trained tokens are. */
  ghost predicate AreOnGrid(bare: seq<Block>, gs: seq<Group>) {
    && (forall b | b in bare :: IsOnGrid(b))
    && (forall g | g in gs :: forall b | b in g.blocks :: IsOnGrid(b))
  }

  lemma GridsAreShort(bare: seq<Block>, gs: seq<Group>)
    requires AreOnGrid(bare, gs)
    ensures AreShort(bare, gs)
  {
    hide IsOnGrid, IsShort;
    forall b | b in bare ensures IsShort(b) { GridIsShort(b); }
    forall g, b | g in gs && b in g.blocks ensures IsShort(b) { GridIsShort(b); }
  }

  lemma LabelledReadBack(nd: Digits, p: Pattern, s: string, bare: seq<Block>, gs: seq<Group>)
    requires (p == FourCoord || p == TwoCoord) && Prints(s, bare, gs) && AreShort(bare, gs)
    ensures AreItems(nd, p, s, Labelled(AnswerItems(nd, p, s)))
    ensures AreReadable(nd, p, s, Labelled(AnswerItems(nd, p, s)))
  {
    hide At, PrintBlocks, PrintGroups, RunsOf, NoClose, IsRun, AreGroups, AnswerItems, IsReadableRun, IsShort, FindAll;
    hide AreReadable, Filter, IsMatch;
    RunsAreGroups(nd, s, bare, gs);
    GroupsReadable(nd, p, s, |PrintBlocks(bare)|, gs);
    ReadableRuns(nd, p, s);
  }

  lemma BareReadBack(nd: Digits, s: string, bare: seq<Block>, gs: seq<Group>)
    requires Prints(s, bare, gs) && AreShort(bare, gs)
    ensures AreItems(nd, TwoCoord, s, Bare(AnswerItems(nd, TwoCoord, s)))
    ensures AreReadable(nd, TwoCoord, s, Bare(AnswerItems(nd, TwoCoord, s)))
  {
    hide At, PrintBlocks, PrintGroups, RunsOf, NoClose, IsRun, AreGroups, AnswerItems, IsShort, Spans, RunsItems;
    hide Filter, IsMatch, IsReadable;
    ItemsPrinted(nd, TwoCoord, s, bare, gs);
    BlocksReadable(nd, TwoCoord, s, 0, bare);
    var ms, items := Spans(TwoCoord, bare, 0), Bare(AnswerItems(nd, TwoCoord, s));
    forall k | 0 <= k < |items|
      ensures IsMatch(nd, TwoCoord, s, items[k].at) && IsReadable(nd, TwoCoord, s, items[k].at)
    {
      assert ms[k] in ms;
    }
  }

  lemma PrintedIsReadable(nd: Digits, s: string, bare: seq<Block>, gs: seq<Group>, phrase: Option<string>)
    requires Prints(s, bare, gs) && AreShort(bare, gs)
    ensures IsReadableAnswer(nd, s, phrase)
  {
    hide Prints, AreShort, AnswerItems, AreReadable, Filter, IsMatch, PointItems;
    LabelledReadBack(nd, FourCoord, s, bare, gs);
    LabelledReadBack(nd, TwoCoord, s, bare, gs);
    BareReadBack(nd, s, bare, gs);
    ReadablePoints(nd, s, phrase);
  }

  // ---------- no block is malformed ----------

  lemma {:induction false} GroupsNoOtherTag(nd: Digits, s: string, i: nat, gs: seq<Group>)
    requires AreGroups(gs) && At(s, i, PrintGroups(gs)) && NoClose(s, i + |PrintGroups(gs)|)
    ensures forall x | i <= x < i + |PrintGroups(gs)| && OpenBox(s, x) :: IsSomeForm(nd, s, x)
    decreases |gs|
  {
    hide At, PrintGroup, PrintBlocks, MatchEnd, IsRun, NoClose, RunLabel, OpenBox, IsSomeForm;
    if gs != [] {
      FirstGroup(nd, s, i, gs);
      RunHasLabel(s, Span(i, i + |PrintGroup(gs[0])|));
      NoBlockInRef(s, i);
      NoOtherTag(nd, s, BlocksStart(s, i), gs[0].blocks);
      GroupsNoOtherTag(nd, s, i + |PrintGroup(gs[0])|, gs[1..]);
    }
  }

  lemma RunHasLabel(s: string, r: Span)
    requires IsRun(s, r)
    ensures LabelSpan(s, r.start).Some?
  {
  }

  lemma SomeFormIsOnContract(nd: Digits, s: string, b: Span)
    requires IsSomeForm(nd, s, b.start) && AnyBlockEnd(s, b.start) == Some(b.end)
    ensures IsOnContract(nd, s, b)
  {
    hide MatchEnd, AnyBlockEnd;
    forall p: Pattern | p.IsStrict() && MatchEnd(nd, p, s, b.start).Some?
      ensures IsExactly(nd, p, s, b)
    {
      StrictIsAny(nd, p, s, b.start, MatchEnd(nd, p, s, b.start).value);
    }
  }

  lemma NothingMalformed(nd: Digits, s: string, bare: seq<Block>, gs: seq<Group>)
    requires Prints(s, bare, gs)
    ensures Filter(Malformed(nd, s), ClosedBlocks(nd, s)) == []
  {
    hide At, PrintBlocks, PrintGroups, MatchEnd, Scan, IsSomeForm, FindClose, IsOnContract;
    BlocksAreBlocks(nd, s);
    NoOtherTag(nd, s, 0, bare);
    GroupsNoOtherTag(nd, s, |PrintBlocks(bare)|, gs);
    forall b | b in ClosedBlocks(nd, s)
      ensures IsOnContract(nd, s, b)
    {
      assert OpenBox(s, b.start) && CloseBox(s, b.end - 6);
      SomeFormIsOnContract(nd, s, b);
    }
    FilterNone(Malformed(nd, s), ClosedBlocks(nd, s));
  }

  /**
   Main result: parsing what was printed returns it. The boxes are those of the groups in text
   order with their labels, the points those of the groups and then the bare ones under the
   phrase; only bare boxes, and bare points without a phrase, are off contract; nothing is malformed;
   and coordinates that are not too long for `int`, as those of the grid, are read without an error.
   */
  lemma ParseAfterPrint(
    nd: Digits, bare: seq<Block>, gs: seq<Group>, tail: string, phrase: Option<string>, width: nat, height: nat
  )
    requires AreGroups(gs) && NoClose(tail, 0)
    ensures var s := Print(bare, gs) + tail;
      && FoundBoxes(nd, s, width, height) == GroupBoxes(gs, width, height)
      && |AnswerItems(nd, FourCoord, s)| == |GroupBoxes(gs, width, height)| + CountOf(FourCoord, bare)
      && FoundPoints(nd, s, phrase, width, height)
         == GroupPoints(gs, width, height) + PhrasePoints(phrase, bare, width, height)
      && |AnswerItems(nd, TwoCoord, s)| == |GroupPoints(gs, width, height)| + CountOf(TwoCoord, bare)
      && Filter(Malformed(nd, s), ClosedBlocks(nd, s)) == []
      && (AreShort(bare, gs) || AreOnGrid(bare, gs) ==> IsReadableAnswer(nd, s, phrase))
  {
    hide *;
    var s := Print(bare, gs) + tail;
    PrintedIs(bare, gs, tail);
    BoxesReadBack(nd, s, bare, gs, width, height);
    PointsReadBack(nd, s, bare, gs, phrase, width, height);
    NothingMalformed(nd, s, bare, gs);
    if AreOnGrid(bare, gs) {
      GridsAreShort(bare, gs);
    }
    if AreShort(bare, gs) {
      PrintedIsReadable(nd, s, bare, gs, phrase);
    }
  }
}

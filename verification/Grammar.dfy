/**
 The grammar the model was trained on, printed: groups of blocks under a label, and bare blocks
 before them. Parsing what is printed gives back exactly what was printed, whatever text without
 a closing `</box>` follows it.
 */
module Grammar {
  import opened Wrappers
  import opened Text
  import opened Scanner
  import opened Blocks
  import opened Items
  import opened Coordinates
  import opened Parsing
  import opened Accounting
  import Regex

  datatype Block =
    | BoxBlock(x1: nat, y1: nat, x2: nat, y2: nat)
    | PointBlock(x: nat, y: nat)
    | NoneBlock(capital: bool)
  {
    function Form(): (p: Pattern)
      ensures p.IsStrict()
    {
      if BoxBlock? then FourCoord else if PointBlock? then TwoCoord else NoneLiteral
    }

    function Tokens(): seq<nat> {
      if BoxBlock? then [x1, y1, x2, y2] else if PointBlock? then [x, y] else []
    }
  }

  /** A group as it is printed. Its name is the text without the whitespace around it. */
  datatype Group = Group(text: string, blocks: seq<Block>)
  {
    function Name(): string {
      Strip(text)
    }
  }

  /** A label the grammar can carry and that is not blank, and at least one block. */
  ghost predicate IsGroup(g: Group) {
    g.Name() != "" && '<' !in g.text && g.blocks != []
  }

  ghost predicate AreGroups(gs: seq<Group>) {
    forall g | g in gs :: IsGroup(g)
  }

  // ---------- printing ----------

  function PrintCoords(cs: seq<nat>): string {
    if cs == [] then "" else "<" + Decimal(cs[0]) + ">" + PrintCoords(cs[1..])
  }

  function PrintBlock(b: Block): string {
    "<box>" + (if b.NoneBlock? then (if b.capital then "None" else "none") else PrintCoords(b.Tokens())) + "</box>"
  }

  function PrintBlocks(bs: seq<Block>): string {
    if bs == [] then "" else PrintBlock(bs[0]) + PrintBlocks(bs[1..])
  }

  function PrintRef(name: string): string {
    "<ref>" + name + "</ref>"
  }

  function PrintGroup(g: Group): string {
    PrintRef(g.text) + PrintBlocks(g.blocks)
  }

  function PrintGroups(gs: seq<Group>): string {
    if gs == [] then "" else PrintGroup(gs[0]) + PrintGroups(gs[1..])
  }

  // ---------- what the printed blocks say ----------

  function BoxesIn(name: string, bs: seq<Block>, width: nat, height: nat): seq<Detection> {
    if bs == [] then []
    else
      var first := if bs[0].BoxBlock?
        then [MakeBox(name, bs[0].x1, bs[0].y1, bs[0].x2, bs[0].y2, width, height)] else [];
      first + BoxesIn(name, bs[1..], width, height)
  }

  function PointsIn(name: string, bs: seq<Block>, width: nat, height: nat): seq<Point> {
    if bs == [] then []
    else
      var first := if bs[0].PointBlock? then [MakePoint(name, bs[0].x, bs[0].y, width, height)] else [];
      first + PointsIn(name, bs[1..], width, height)
  }

  function GroupBoxes(gs: seq<Group>, width: nat, height: nat): seq<Detection> {
    if gs == [] then [] else BoxesIn(gs[0].Name(), gs[0].blocks, width, height) + GroupBoxes(gs[1..], width, height)
  }

  function GroupPoints(gs: seq<Group>, width: nat, height: nat): seq<Point> {
    if gs == [] then [] else PointsIn(gs[0].Name(), gs[0].blocks, width, height) + GroupPoints(gs[1..], width, height)
  }

  // ---------- one block ----------

  lemma AtConcat(s: string, i: nat, a: string, b: string)
    ensures At(s, i, a + b) <==> At(s, i, a) && At(s, i + |a|, b)
  {
    if At(s, i, a + b) {
      forall k | 0 <= k < |a| ensures s[i + k] == a[k] {
        assert (a + b)[k] == a[k];
      }
      forall k | 0 <= k < |b| ensures s[i + |a| + k] == b[k] {
        assert (a + b)[|a| + k] == b[k];
      }
    }
    if At(s, i, a) && At(s, i + |a|, b) {
      forall k | 0 <= k < |a| + |b| ensures s[i + k] == (a + b)[k] {
        if k >= |a| {
          assert s[i + |a| + (k - |a|)] == b[k - |a|];
        }
      }
    }
  }

  lemma {:induction false} SkipsAll(nd: Digits, s: string, i: nat, j: nat)
    requires i <= j < |s| && (forall k | i <= k < j :: s[k] in nd) && s[j] !in nd
    ensures SkipDigits(nd, s, i) == j
    decreases j - i
  {
    if i < j {
      SkipsAll(nd, s, i + 1, j);
    }
  }

  lemma CoordPrinted(nd: Digits, s: string, i: nat, n: nat)
    requires At(s, i, "<" + Decimal(n) + ">")
    ensures var e := i + |Decimal(n)| + 2;
      CoordEnd(nd, s, i) == Some(e) && s[i + 1..e - 1] == Decimal(n)
  {
    hide Decimal;
    var d := Decimal(n);
    var lt, gt := "<", ">";
    assert lt[0] == '<' && gt[0] == '>';
    AtConcat(s, i, lt + d, gt);
    AtConcat(s, i, lt, d);
    assert s[i + 0] == '<' && s[i + |lt + d| + 0] == '>';
    assert forall k | 0 <= k < |d| :: s[i + 1 + k] == d[k] && d[k] in d;
    forall k | i + 1 <= k < i + 1 + |d| ensures s[k] in nd {
      assert s[i + 1 + (k - i - 1)] == d[k - i - 1];
    }
    SkipsAll(nd, s, i + 1, i + 1 + |d|);
    assert s[i + 1..i + 1 + |d|] == d;
  }

  function Numerals(cs: seq<nat>): (ts: seq<string>)
    ensures |ts| == |cs|
  {
    seq(|cs|, k requires 0 <= k < |cs| => Decimal(cs[k]))
  }

  lemma {:induction false} CoordsPrinted(nd: Digits, s: string, i: nat, cs: seq<nat>)
    requires At(s, i, PrintCoords(cs))
    ensures CoordsEnd(nd, s, i, |cs|) == Some(i + |PrintCoords(cs)|)
    ensures Captured(nd, s, i, |cs|) == Numerals(cs)
    decreases |cs|
  {
    hide CoordEnd, Decimal, At;
    if cs != [] {
      var first := "<" + Decimal(cs[0]) + ">";
      AtConcat(s, i, first, PrintCoords(cs[1..]));
      CoordPrinted(nd, s, i, cs[0]);
      CoordsPrinted(nd, s, i + |first|, cs[1..]);
    }
  }

  lemma NonePrinted(s: string, i: nat)
    requires At(s, i, "None") || At(s, i, "none")
    ensures NoneWord(s, i)
  {
    var e, f := "None", "none";
    assert e[0] == 'N' && e[1] == 'o' && e[2] == 'n' && e[3] == 'e';
    assert f[0] == 'n' && f[1] == 'o' && f[2] == 'n' && f[3] == 'e';
    if At(s, i, e) {
      assert s[i + 0] == e[0] && s[i + 1] == e[1] && s[i + 2] == e[2] && s[i + 3] == e[3];
    } else {
      assert s[i + 0] == f[0] && s[i + 1] == f[1] && s[i + 2] == f[2] && s[i + 3] == f[3];
    }
  }

  /** A printed block matches its form, and captures its coordinates. */
  lemma BlockPrinted(nd: Digits, s: string, i: nat, b: Block)
    requires At(s, i, PrintBlock(b))
    ensures Matches(nd, b.Form(), s, i, i + |PrintBlock(b)|)
    ensures !b.NoneBlock? ==> CoordBlockEnd(nd, s, i, |b.Tokens()|) == Some(i + |PrintBlock(b)|)
    ensures !b.NoneBlock? ==> Captured(nd, s, i + 5, |b.Tokens()|) == Numerals(b.Tokens())
  {
    hide At, PrintCoords, CoordsEnd, Captured, Numerals;
    var inner := if b.NoneBlock? then (if b.capital then "None" else "none") else PrintCoords(b.Tokens());
    AtConcat(s, i, "<box>" + inner, "</box>");
    AtConcat(s, i, "<box>", inner);
    Regex.TagsAreLiterals(s, i);
    Regex.TagsAreLiterals(s, i + 5 + |inner|);
    if b.NoneBlock? {
      NonePrinted(s, i + 5);
    } else {
      CoordsPrinted(nd, s, i + 5, b.Tokens());
    }
  }

  /** Every coordinate is short enough for `int`. */
  predicate IsShort(b: Block) {
    forall c | c in b.Tokens() :: |Decimal(c)| <= 4300
  }

  predicate IsOnGrid(b: Block) {
    forall c | c in b.Tokens() :: c <= GRID
  }

  /** The coordinates of the grid are. */
  lemma GridIsShort(b: Block)
    requires IsOnGrid(b)
    ensures IsShort(b)
  {
    forall c | c in b.Tokens()
      ensures |Decimal(c)| <= MAX_INT_DIGITS
    {
      assert PowerOfTen(4) == 10000 by { assert PowerOfTen(1) == 10 && PowerOfTen(2) == 100 && PowerOfTen(3) == 1000; }
      DecimalIsShort(c, 4);
    }
  }

  /** And it reads back: as numbers, and without an error exactly if they are short. */
  lemma BlockReads(nd: Digits, s: string, i: nat, b: Block)
    requires At(s, i, PrintBlock(b)) && !b.NoneBlock?
    ensures var m := Span(i, i + |PrintBlock(b)|);
      && IsMatch(nd, b.Form(), s, m) && Values(nd, b.Form(), s, m) == b.Tokens()
      && (IsReadable(nd, b.Form(), s, m) <==> IsShort(b))
  {
    hide At, PrintBlock, MatchEnd, CoordBlockEnd, Captured, Decimal, DecimalValue;
    BlockPrinted(nd, s, i, b);
    var m, cs := Span(i, i + |PrintBlock(b)|), b.Tokens();
    var ts := Texts(nd, b.Form(), s, m);
    assert ts == Numerals(cs);
    forall k | 0 <= k < |cs|
      ensures IsNumeral(nd, ts[k]) && DecimalValue(nd, ts[k]) == cs[k]
    {
      assert ts[k] in ts;
      DecimalReadsBack(nd, cs[k]);
    }
    if IsReadable(nd, b.Form(), s, m) {
      forall k | 0 <= k < |cs| ensures |Decimal(cs[k])| <= MAX_INT_DIGITS {
        assert ts[k] in ts;
      }
    }
    if IsShort(b) {
      forall k | 0 <= k < |cs| ensures |ts[k]| <= MAX_INT_DIGITS {
        assert cs[k] in cs;
      }
    }
  }

  // ---------- a row of blocks ----------

  /** Where the blocks of one form stand when a row of blocks is printed at `i`. */
  function Spans(p: Pattern, bs: seq<Block>, i: nat): seq<Span> {
    if bs == [] then []
    else
      var e := i + |PrintBlock(bs[0])|;
      (if bs[0].Form() == p then [Span(i, e)] else []) + Spans(p, bs[1..], e)
  }

  lemma FirstBlock(nd: Digits, s: string, i: nat, bs: seq<Block>)
    requires bs != [] && At(s, i, PrintBlocks(bs))
    ensures var e := i + |PrintBlock(bs[0])|;
      && i < e <= i + |PrintBlocks(bs)| == e + |PrintBlocks(bs[1..])| <= |s|
      && At(s, i, PrintBlock(bs[0])) && At(s, e, PrintBlocks(bs[1..]))
      && Matches(nd, bs[0].Form(), s, i, e) && AnyBlockEnd(s, i) == Some(e)
  {
    hide At, PrintBlock, MatchEnd, AnyBlockEnd;
    AtConcat(s, i, PrintBlock(bs[0]), PrintBlocks(bs[1..]));
    BlockPrinted(nd, s, i, bs[0]);
    AtFits(s, i, PrintBlocks(bs));
    StrictIsAny(nd, bs[0].Form(), s, i, i + |PrintBlock(bs[0])|);
    BlockLength(bs[0]);
  }

  lemma AtFits(s: string, i: nat, lit: string)
    requires At(s, i, lit)
    ensures i + |lit| <= |s|
  {
  }

  lemma BlockLength(b: Block)
    ensures |PrintBlock(b)| >= 11
  {
    hide PrintCoords;
  }

  /** In a row of printed blocks a form finds the blocks of that form. */
  lemma {:induction false} BlocksFound(nd: Digits, p: Pattern, s: string, i: nat, bs: seq<Block>)
    requires p.IsStrict() && At(s, i, PrintBlocks(bs))
    ensures var e := i + |PrintBlocks(bs)|;
      e <= |s| && Bounded(EndsOf(nd, p, s), i, e) && FindFrom(nd, p, s, i, e) == Spans(p, bs, i)
    decreases |bs|
  {
    hide At, PrintBlock, MatchEnd, AnyBlockEnd, EndsOf;
    var ends, e := EndsOf(nd, p, s), i + |PrintBlocks(bs)|;
    AtFits(s, i, PrintBlocks(bs));
    if bs != [] {
      hide Scan;
      FirstBlock(nd, s, i, bs);
      var first := Span(i, i + |PrintBlock(bs[0])|);
      BlocksFound(nd, p, s, first.end, bs[1..]);
      BlockBounded(nd, p, s, first);
      ExactBlock(nd, bs[0].Form(), p, s, first);
      FindSplit(ends, i, first.end, e);
    }
  }

  /** Neither a block nor a ref-run begins inside a row of blocks, except the blocks themselves. */
  lemma {:induction false} NoOtherTag(nd: Digits, s: string, i: nat, bs: seq<Block>)
    requires At(s, i, PrintBlocks(bs))
    ensures forall x | i <= x < i + |PrintBlocks(bs)| :: !OpenRef(s, x) && (OpenBox(s, x) ==> IsSomeForm(nd, s, x))
    decreases |bs|
  {
    hide At, PrintBlock, MatchEnd, AnyBlockEnd, OpenRef, OpenBox;
    if bs != [] {
      FirstBlock(nd, s, i, bs);
      var e := i + |PrintBlock(bs[0])|;
      NoOpenInside(nd, bs[0].Form(), s, i, e);
      NotBothTags(s, i);
      NoOtherTag(nd, s, e, bs[1..]);
    }
  }

  lemma NotBothTags(s: string, i: nat)
    ensures !(OpenBox(s, i) && OpenRef(s, i))
  {
  }

  ghost predicate IsSomeForm(nd: Digits, s: string, x: nat) {
    MatchEnd(nd, FourCoord, s, x).Some? || MatchEnd(nd, TwoCoord, s, x).Some? || MatchEnd(nd, NoneLiteral, s, x).Some?
  }

  lemma NamedConcat(a: seq<Span>, b: seq<Span>, name: string)
    ensures Named(a + b, name) == Named(a, name) + Named(b, name)
  {
  }

  lemma BoxRead(nd: Digits, s: string, i: nat, b: Block, name: string, width: nat, height: nat)
    requires At(s, i, PrintBlock(b))
    ensures var items := Named(if b.BoxBlock? then [Span(i, i + |PrintBlock(b)|)] else [], name);
      && AreItems(nd, FourCoord, s, items)
      && Boxes(nd, s, items, width, height)
         == if b.BoxBlock? then [MakeBox(name, b.x1, b.y1, b.x2, b.y2, width, height)] else []
  {
    hide At, PrintBlock, MatchEnd, CoordBlockEnd, Values, MakeBox;
    if b.BoxBlock? {
      BlockReads(nd, s, i, b);
    }
  }

  lemma PointRead(nd: Digits, s: string, i: nat, b: Block, name: string, width: nat, height: nat)
    requires At(s, i, PrintBlock(b))
    ensures var items := Named(if b.PointBlock? then [Span(i, i + |PrintBlock(b)|)] else [], name);
      && AreItems(nd, TwoCoord, s, items)
      && Points(nd, s, items, width, height) == if b.PointBlock? then [MakePoint(name, b.x, b.y, width, height)] else []
  {
    hide At, PrintBlock, MatchEnd, CoordBlockEnd, Values, MakePoint;
    if b.PointBlock? {
      BlockReads(nd, s, i, b);
    }
  }

  lemma {:induction false} BoxesRead(
    nd: Digits, s: string, i: nat, bs: seq<Block>, name: string, width: nat, height: nat
  )
    requires At(s, i, PrintBlocks(bs))
    ensures var items := Named(Spans(FourCoord, bs, i), name);
      AreItems(nd, FourCoord, s, items) && Boxes(nd, s, items, width, height) == BoxesIn(name, bs, width, height)
    decreases |bs|
  {
    hide At, PrintBlock, MatchEnd, AnyBlockEnd, IsMatch, ReadBox, MakeBox, Named, Boxes;
    if bs != [] {
      FirstBlock(nd, s, i, bs);
      var e := i + |PrintBlock(bs[0])|;
      BoxesRead(nd, s, e, bs[1..], name, width, height);
      var first, rest := if bs[0].BoxBlock? then [Span(i, e)] else [], Spans(FourCoord, bs[1..], e);
      BoxRead(nd, s, i, bs[0], name, width, height);
      NamedConcat(first, rest, name);
      BoxesConcat(nd, s, Named(first, name), Named(rest, name), width, height);
    }
  }

  lemma {:induction false} PointsRead(
    nd: Digits, s: string, i: nat, bs: seq<Block>, name: string, width: nat, height: nat
  )
    requires At(s, i, PrintBlocks(bs))
    ensures var items := Named(Spans(TwoCoord, bs, i), name);
      AreItems(nd, TwoCoord, s, items) && Points(nd, s, items, width, height) == PointsIn(name, bs, width, height)
    decreases |bs|
  {
    hide At, PrintBlock, MatchEnd, AnyBlockEnd, IsMatch, ReadPoint, MakePoint, Named, Points;
    if bs != [] {
      FirstBlock(nd, s, i, bs);
      var e := i + |PrintBlock(bs[0])|;
      PointsRead(nd, s, e, bs[1..], name, width, height);
      var first, rest := if bs[0].PointBlock? then [Span(i, e)] else [], Spans(TwoCoord, bs[1..], e);
      PointRead(nd, s, i, bs[0], name, width, height);
      NamedConcat(first, rest, name);
      PointsConcat(nd, s, Named(first, name), Named(rest, name), width, height);
    }
  }

  /** What a row of blocks with short coordinates holds can be read. */
  lemma {:induction false} BlocksReadable(nd: Digits, p: Pattern, s: string, i: nat, bs: seq<Block>)
    requires (p == FourCoord || p == TwoCoord) && At(s, i, PrintBlocks(bs)) && forall b | b in bs :: IsShort(b)
    ensures forall m | m in Spans(p, bs, i) :: IsMatch(nd, p, s, m) && IsReadable(nd, p, s, m)
    decreases |bs|
  {
    hide At, PrintBlock, MatchEnd, AnyBlockEnd, IsMatch, IsReadable, IsShort;
    if bs != [] {
      FirstBlock(nd, s, i, bs);
      assert bs[0] in bs;
      if bs[0].Form() == p {
        BlockReads(nd, s, i, bs[0]);
      }
      BlocksReadable(nd, p, s, i + |PrintBlock(bs[0])|, bs[1..]);
    }
  }

  // ---------- a group ----------

  /** No closing `</box>` from `e` on. */
  ghost predicate NoClose(s: string, e: nat) {
    forall k | e <= k :: !CloseBox(s, k)
  }

  lemma TurnHere(s: string, i: nat, e: nat)
    requires AnyBlockEnd(s, i) == Some(e)
    ensures i <= |s| && RunTurnEnd(s, i) == Some(e)
  {
    assert s[i] == '<';
  }

  /** A row of printed blocks that no block follows is what the repeated group of a ref-run takes. */
  lemma {:induction false} RunPrinted(nd: Digits, s: string, i: nat, bs: seq<Block>)
    requires bs != [] && At(s, i, PrintBlocks(bs)) && i + |PrintBlocks(bs)| <= |s|
    requires RunTurnEnd(s, i + |PrintBlocks(bs)|).None?
    ensures RunBlocksEnd(s, i) == Some(i + |PrintBlocks(bs)|)
    decreases |bs|
  {
    hide At, PrintBlock, MatchEnd, AnyBlockEnd, RunTurnEnd;
    FirstBlock(nd, s, i, bs);
    var e := i + |PrintBlock(bs[0])|;
    TurnHere(s, i, e);
    if bs[1..] != [] {
      RunPrinted(nd, s, e, bs[1..]);
    }
  }

  lemma RefPrinted(s: string, i: nat, name: string)
    requires '<' !in name && At(s, i, PrintRef(name))
    ensures LabelSpan(s, i) == Some(Span(i + 5, i + 5 + |name|))
    ensures s[i + 5..i + 5 + |name|] == name
  {
    AtConcat(s, i, "<ref>" + name, "</ref>");
    AtConcat(s, i, "<ref>", name);
    Regex.TagsAreLiterals(s, i);
    Regex.TagsAreLiterals(s, i + 5 + |name|);
    forall k | i + 5 <= k < i + 5 + |name|
      ensures s[k] != '<'
    {
      assert s[i + 5 + (k - i - 5)] == name[k - i - 5];
    }
    SkipsToTag(s, i + 5, i + 5 + |name|);
  }

  lemma {:induction false} SkipsToTag(s: string, i: nat, j: nat)
    requires i <= j < |s| && (forall k | i <= k < j :: s[k] != '<') && s[j] == '<'
    ensures SkipToTag(s, i) == j
    decreases j - i
  {
    if i < j {
      SkipsToTag(s, i + 1, j);
    }
  }

  lemma GroupAt(s: string, i: nat, g: Group)
    requires At(s, i, PrintGroup(g))
    ensures At(s, i, PrintRef(g.text)) && At(s, i + 11 + |g.text|, PrintBlocks(g.blocks))
    ensures i + 11 + |g.text| + |PrintBlocks(g.blocks)| == i + |PrintGroup(g)| <= |s|
  {
    hide At, PrintBlocks;
    AtConcat(s, i, PrintRef(g.text), PrintBlocks(g.blocks));
    AtFits(s, i, PrintGroup(g));
  }

  /** A printed group that no block follows is one ref-run with its label. */
  lemma GroupPrinted(nd: Digits, s: string, i: nat, g: Group)
    requires IsGroup(g) && At(s, i, PrintGroup(g)) && i + |PrintGroup(g)| <= |s|
    requires RunTurnEnd(s, i + |PrintGroup(g)|).None?
    ensures var r := Span(i, i + |PrintGroup(g)|);
      && Matches(nd, RefRun, s, r.start, r.end) && IsRun(s, r)
      && BlocksStart(s, i) == i + 11 + |g.text| && RunLabel(s, r) == g.Name()
  {
    hide At, PrintBlocks, RunBlocksEnd, SkipToTag, RunTurnEnd;
    GroupAt(s, i, g);
    RefPrinted(s, i, g.text);
    RunPrinted(nd, s, i + 11 + |g.text|, g.blocks);
  }

  // ---------- a row of groups ----------

  /** Where the groups stand when they are printed at `i`. */
  function RunsOf(gs: seq<Group>, i: nat): seq<Span> {
    if gs == [] then []
    else
      var e := i + |PrintGroup(gs[0])|;
      [Span(i, e)] + RunsOf(gs[1..], e)
  }

  lemma NextStops(s: string, i: nat, gs: seq<Group>)
    requires AreGroups(gs) && At(s, i, PrintGroups(gs)) && i <= |s| && NoClose(s, i + |PrintGroups(gs)|)
    ensures RunTurnEnd(s, i).None?
  {
    hide At, PrintBlocks, FindClose;
    if gs == [] {
      var j := SkipSpace(s, i);
      assert AnyBlockEnd(s, j).None?;
    } else {
      AtConcat(s, i, PrintGroup(gs[0]), PrintGroups(gs[1..]));
      GroupAt(s, i, gs[0]);
      assert gs[0] in gs;
      RefPrinted(s, i, gs[0].text);
      assert OpenRef(s, i) && SkipSpace(s, i) == i;
    }
  }

  lemma RestAreGroups(gs: seq<Group>)
    requires gs != [] && AreGroups(gs)
    ensures IsGroup(gs[0]) && AreGroups(gs[1..])
  {
    assert gs[0] in gs;
  }

  lemma FirstGroup(nd: Digits, s: string, i: nat, gs: seq<Group>)
    requires gs != [] && AreGroups(gs) && At(s, i, PrintGroups(gs)) && NoClose(s, i + |PrintGroups(gs)|)
    ensures var g, r := gs[0], Span(i, i + |PrintGroup(gs[0])|);
      && IsGroup(g) && AreGroups(gs[1..])
      && i < r.end <= |s| && r.end + |PrintGroups(gs[1..])| == i + |PrintGroups(gs)|
      && At(s, r.end, PrintGroups(gs[1..])) && At(s, i + 11 + |g.text|, PrintBlocks(g.blocks))
      && i + 11 + |g.text| + |PrintBlocks(g.blocks)| == r.end
      && Matches(nd, RefRun, s, r.start, r.end) && IsRun(s, r)
      && BlocksStart(s, i) == i + 11 + |g.text| && RunLabel(s, r) == g.Name()
  {
    hide At, PrintGroup, PrintBlocks, MatchEnd, NoClose, IsRun, RunLabel, RunTurnEnd, LabelSpan, IsGroup;
    var g := gs[0];
    RestAreGroups(gs);
    AtConcat(s, i, PrintGroup(g), PrintGroups(gs[1..]));
    GroupAt(s, i, g);
    NextStops(s, i + |PrintGroup(g)|, gs[1..]);
    GroupPrinted(nd, s, i, g);
  }

  lemma {:induction false} GroupsFound(nd: Digits, s: string, i: nat, gs: seq<Group>)
    requires AreGroups(gs) && At(s, i, PrintGroups(gs)) && NoClose(s, i + |PrintGroups(gs)|)
    ensures i <= |s| && FindFrom(nd, RefRun, s, i, |s|) == RunsOf(gs, i) && AreRuns(s, RunsOf(gs, i))
    decreases |gs|
  {
    hide At, PrintGroup, PrintBlocks, MatchEnd, IsRun, RunLabel, LabelSpan, IsGroup;
    AtFits(s, i, PrintGroups(gs));
    var ends := EndsOf(nd, RefRun, s);
    if gs == [] {
      NoMatchWithoutClose(nd, RefRun, s, i);
      FoundNothing(ends, i, |s|);
    } else {
      FirstGroup(nd, s, i, gs);
      var e := i + |PrintGroup(gs[0])|;
      GroupsFound(nd, s, e, gs[1..]);
      assert ends[i] == Some(e);
    }
  }

  /** Every pattern ends in `</box>`. */
  lemma NoMatchWithoutClose(nd: Digits, p: Pattern, s: string, i: nat)
    requires i <= |s| && NoClose(s, i)
    ensures forall x | i <= x < |s| :: EndsOf(nd, p, s)[x].None?
  {
    hide CoordsEnd, FindClose, RunBlocksEnd;
    forall x | i <= x < |s|
      ensures MatchEnd(nd, p, s, x).None?
    {
      if p.RefRun? && LabelSpan(s, x).Some? {
        RunNeedsClose(s, LabelSpan(s, x).value.end + 6);
      }
    }
  }

  lemma RunNeedsClose(s: string, i: nat)
    requires i <= |s| && NoClose(s, i)
    ensures RunBlocksEnd(s, i).None?
  {
    hide FindClose;
    assert AnyBlockEnd(s, SkipSpace(s, i)).None?;
  }

  // ---------- the items of the groups ----------

  lemma GroupItems(nd: Digits, p: Pattern, s: string, i: nat, gs: seq<Group>)
    requires p.IsStrict()
    requires gs != [] && AreGroups(gs) && At(s, i, PrintGroups(gs)) && NoClose(s, i + |PrintGroups(gs)|)
    ensures var r := Span(i, i + |PrintGroup(gs[0])|);
      IsRun(s, r) && RunItems(nd, p, s, r) == Named(Spans(p, gs[0].blocks, i + 11 + |gs[0].text|), gs[0].Name())
  {
    hide At, PrintGroup, PrintBlocks, Spans, MatchEnd, IsRun, NoClose, Scan;
    FirstGroup(nd, s, i, gs);
    BlocksFound(nd, p, s, i + 11 + |gs[0].text|, gs[0].blocks);
  }

  lemma BoxesOfGroup(nd: Digits, s: string, i: nat, gs: seq<Group>, width: nat, height: nat)
    requires gs != [] && AreGroups(gs) && At(s, i, PrintGroups(gs)) && NoClose(s, i + |PrintGroups(gs)|)
    ensures var r := Span(i, i + |PrintGroup(gs[0])|);
      IsRun(s, r) && RunBoxes(nd, s, r, width, height) == BoxesIn(gs[0].Name(), gs[0].blocks, width, height)
  {
    hide At, PrintGroup, PrintBlocks, Spans, MatchEnd, IsRun, NoClose, BoxesIn, RunItems, RunLabel, Scan,
      IsMatch, Boxes;
    FirstGroup(nd, s, i, gs);
    GroupItems(nd, FourCoord, s, i, gs);
    BoxesRead(nd, s, i + 11 + |gs[0].text|, gs[0].blocks, gs[0].Name(), width, height);
  }

  lemma {:induction false} BoxesOfGroups(nd: Digits, s: string, i: nat, gs: seq<Group>, width: nat, height: nat)
    requires AreGroups(gs) && At(s, i, PrintGroups(gs)) && NoClose(s, i + |PrintGroups(gs)|)
    ensures AreRuns(s, RunsOf(gs, i))
    ensures Emitted(nd, s, RunsOf(gs, i), width, height) == GroupBoxes(gs, width, height)
    decreases |gs|
  {
    hide At, PrintGroup, PrintBlocks, MatchEnd, IsRun, NoClose, BoxesIn, RunBoxes, LabelSpan;
    GroupsFound(nd, s, i, gs);
    if gs != [] {
      FirstGroup(nd, s, i, gs);
      BoxesOfGroup(nd, s, i, gs, width, height);
      BoxesOfGroups(nd, s, i + |PrintGroup(gs[0])|, gs[1..], width, height);
    }
  }

  lemma PointsOfGroup(nd: Digits, s: string, i: nat, gs: seq<Group>, width: nat, height: nat)
    requires gs != [] && AreGroups(gs) && At(s, i, PrintGroups(gs)) && NoClose(s, i + |PrintGroups(gs)|)
    ensures var r := Span(i, i + |PrintGroup(gs[0])|);
      IsRun(s, r) && RunPoints(nd, s, r, width, height) == PointsIn(gs[0].Name(), gs[0].blocks, width, height)
  {
    hide At, PrintGroup, PrintBlocks, Spans, MatchEnd, IsRun, NoClose, PointsIn, RunItems, RunLabel, Scan,
      IsMatch, Points;
    FirstGroup(nd, s, i, gs);
    GroupItems(nd, TwoCoord, s, i, gs);
    PointsRead(nd, s, i + 11 + |gs[0].text|, gs[0].blocks, gs[0].Name(), width, height);
  }

  lemma FirstPoints(nd: Digits, s: string, i: nat, gs: seq<Group>, width: nat, height: nat)
    requires gs != [] && AreRuns(s, RunsOf(gs, i))
    ensures var r, rest := Span(i, i + |PrintGroup(gs[0])|), RunsOf(gs[1..], i + |PrintGroup(gs[0])|);
      && IsRun(s, r) && AreRuns(s, rest)
      && EmittedPoints(nd, s, RunsOf(gs, i), width, height)
         == RunPoints(nd, s, r, width, height) + EmittedPoints(nd, s, rest, width, height)
  {
    hide PrintGroup, IsRun, RunPoints;
    var rs := RunsOf(gs, i);
    assert rs[0] in rs && rs[1..] == RunsOf(gs[1..], i + |PrintGroup(gs[0])|);
  }

  lemma NoRunsNoPoints(nd: Digits, s: string, width: nat, height: nat)
    ensures EmittedPoints(nd, s, [], width, height) == []
  {
  }

  lemma {:induction false} PointsOfGroups(nd: Digits, s: string, i: nat, gs: seq<Group>, width: nat, height: nat)
    requires AreGroups(gs) && At(s, i, PrintGroups(gs)) && NoClose(s, i + |PrintGroups(gs)|)
    ensures AreRuns(s, RunsOf(gs, i))
    ensures EmittedPoints(nd, s, RunsOf(gs, i), width, height) == GroupPoints(gs, width, height)
    decreases |gs|
  {
    hide At, PrintGroup, PrintBlocks, MatchEnd, IsRun, NoClose, PointsIn, RunPoints, LabelSpan, Group.Name,
      EmittedPoints, BlocksStart;
    GroupsFound(nd, s, i, gs);
    if gs == [] {
      NoRunsNoPoints(nd, s, width, height);
    } else {
      FirstGroup(nd, s, i, gs);
      PointsOfGroup(nd, s, i, gs, width, height);
      PointsOfGroups(nd, s, i + |PrintGroup(gs[0])|, gs[1..], width, height);
      FirstPoints(nd, s, i, gs, width, height);
    }
  }

  /** Every match from the first group on is in a run. */
  lemma {:induction false} MatchesInGroups(nd: Digits, p: Pattern, s: string, i: nat, gs: seq<Group>)
    requires p.IsStrict()
    requires AreGroups(gs) && At(s, i, PrintGroups(gs)) && NoClose(s, i + |PrintGroups(gs)|)
    ensures i <= |s| && AreRuns(s, RunsOf(gs, i))
    ensures |FindFrom(nd, p, s, i, |s|)| == |RunsItems(nd, p, s, RunsOf(gs, i))|
    decreases |gs|
  {
    hide At, PrintGroup, PrintBlocks, MatchEnd, LabelSpan, RunBlocksEnd, NoClose;
    GroupsFound(nd, s, i, gs);
    if gs == [] {
      NoMatchWithoutClose(nd, p, s, i);
      FoundNothing(EndsOf(nd, p, s), i, |s|);
    } else {
      FirstGroup(nd, s, i, gs);
      var e := i + |PrintGroup(gs[0])|;
      StrictByRun(nd, p, s, i, i, e);
      MatchesInGroups(nd, p, s, e, gs[1..]);
    }
  }

  /** So can every group of such blocks. */
  lemma {:induction false} GroupsReadable(nd: Digits, p: Pattern, s: string, i: nat, gs: seq<Group>)
    requires p == FourCoord || p == TwoCoord
    requires AreGroups(gs) && At(s, i, PrintGroups(gs)) && NoClose(s, i + |PrintGroups(gs)|)
    requires forall g | g in gs :: forall b | b in g.blocks :: IsShort(b)
    ensures AreRuns(s, RunsOf(gs, i)) && forall r | r in RunsOf(gs, i) :: IsReadableRun(nd, p, s, r)
    decreases |gs|
  {
    hide At, PrintGroup, PrintBlocks, MatchEnd, IsRun, NoClose, RunItems, RunLabel, LabelSpan, IsReadableRun, IsShort;
    GroupsFound(nd, s, i, gs);
    if gs != [] {
      FirstGroup(nd, s, i, gs);
      assert gs[0] in gs;
      GroupReadable(nd, p, s, i, gs);
      GroupsReadable(nd, p, s, i + |PrintGroup(gs[0])|, gs[1..]);
    }
  }

  lemma GroupReadable(nd: Digits, p: Pattern, s: string, i: nat, gs: seq<Group>)
    requires p == FourCoord || p == TwoCoord
    requires gs != [] && AreGroups(gs) && At(s, i, PrintGroups(gs)) && NoClose(s, i + |PrintGroups(gs)|)
    requires forall b | b in gs[0].blocks :: IsShort(b)
    ensures var r := Span(i, i + |PrintGroup(gs[0])|); IsRun(s, r) && IsReadableRun(nd, p, s, r)
  {
    hide At, PrintGroup, PrintBlocks, Spans, MatchEnd, IsRun, NoClose, RunItems, RunLabel, Scan, IsMatch,
      IsReadable, IsShort;
    FirstGroup(nd, s, i, gs);
    var g, r := gs[0], Span(i, i + |PrintGroup(gs[0])|);
    GroupItems(nd, p, s, i, gs);
    BlocksReadable(nd, p, s, i + 11 + |g.text|, g.blocks);
    GroupRead(nd, p, s, r);
    var ms, items := Spans(p, g.blocks, i + 11 + |g.text|), RunItems(nd, p, s, r);
    forall k | 0 <= k < |items|
      ensures IsReadable(nd, p, s, items[k].at)
    {
      assert ms[k] in ms;
    }
  }
}

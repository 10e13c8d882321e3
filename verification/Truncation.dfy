/**
 An answer cut short by the token budget: every prefix of a printed answer prints the blocks that
 were complete, so truncation never alters, invents or mislabels geometry.
 */
module Truncation {
  import opened Wrappers
  import opened Text
  import opened Lists
  import opened Scanner
  import opened Items
  import opened Coordinates
  import opened Parsing
  import opened Accounting
  import opened Routing
  import opened Grammar
  import opened Answers

  // ---------- what is complete within the first n characters ----------

  function KeepBlocks(bs: seq<Block>, n: int): (kept: seq<Block>)
    ensures kept <= bs
  {
    if bs == [] || n < |PrintBlock(bs[0])| then [] else [bs[0]] + KeepBlocks(bs[1..], n - |PrintBlock(bs[0])|)
  }

  function KeepGroups(gs: seq<Group>, n: int): seq<Group> {
    if gs == [] then []
    else if n >= |PrintGroup(gs[0])| then [gs[0]] + KeepGroups(gs[1..], n - |PrintGroup(gs[0])|)
    else
      var kept := KeepBlocks(gs[0].blocks, n - |PrintRef(gs[0].text)|);
      if kept == [] then [] else [Group(gs[0].text, kept)]
  }

  // ---------- a prefix prints what is complete ----------

  lemma AtPrefix(s: string, n: nat, i: nat, lit: string)
    requires n <= |s| && At(s, i, lit) && i + |lit| <= n
    ensures At(s[..n], i, lit)
  {
  }

  lemma ClosePrefix(s: string, n: nat, k: nat)
    requires n <= |s| && CloseBox(s[..n], k)
    ensures CloseBox(s, k) && k + 6 <= n
  {
  }

  /** A block closes only at its end. */
  lemma BlockClosesLast(s: string, i: nat, e: nat)
    requires AnyBlockEnd(s, i) == Some(e)
    ensures forall k | i <= k < e - 6 :: !CloseBox(s, k)
  {
    assert OpenBox(s, i) && FindClose(s, i + 5) == Some(e - 6);
  }

  lemma {:induction false} BlocksCut(nd: Digits, s: string, n: nat, i: nat, bs: seq<Block>)
    requires At(s, i, PrintBlocks(bs)) && i <= n <= |s| && n <= i + |PrintBlocks(bs)|
    ensures var kept := KeepBlocks(bs, n - i);
      && i + |PrintBlocks(kept)| <= n
      && At(s[..n], i, PrintBlocks(kept)) && NoClose(s[..n], i + |PrintBlocks(kept)|)
    decreases |bs|
  {
    hide At, PrintBlock, CloseBox, AnyBlockEnd, MatchEnd;
    var kept := KeepBlocks(bs, n - i);
    NothingAt(s[..n], i);
    if bs == [] {
      PastEnd(s[..n], i);
    } else {
      FirstBlock(nd, s, i, bs);
      var e := i + |PrintBlock(bs[0])|;
      if n < e {
        BlockClosesLast(s, i, e);
        forall k | i <= k
          ensures !CloseBox(s[..n], k)
        {
          if CloseBox(s[..n], k) { ClosePrefix(s, n, k); }
        }
      } else {
        BlocksCut(nd, s, n, e, bs[1..]);
        assert kept[1..] == KeepBlocks(bs[1..], n - e);
        AtPrefix(s, n, i, PrintBlock(bs[0]));
        AtConcat(s[..n], i, PrintBlock(bs[0]), PrintBlocks(kept[1..]));
      }
    }
  }

  lemma NothingAt(s: string, i: nat)
    ensures i <= |s| ==> At(s, i, "")
  {
  }

  lemma PastEnd(s: string, e: nat)
    requires |s| <= e
    ensures NoClose(s, e)
  {
  }

  lemma RefDoesNotClose(s: string, i: nat, name: string)
    requires '<' !in name && At(s, i, PrintRef(name))
    ensures forall k | i <= k < i + 11 + |name| :: !CloseBox(s, k)
  {
    RefPrinted(s, i, name);
    var c := i + 5 + |name|;
    assert OpenRef(s, i) && CloseRef(s, c) && forall k | i + 5 <= k < c :: s[k] != '<';
  }

  lemma OneGroup(g: Group)
    ensures PrintGroups([g]) == PrintGroup(g)
  {
    hide PrintGroup;
    assert PrintGroup(g) + "" == PrintGroup(g);
  }

  /** A group cut short prints its label and the blocks that were complete, or nothing at all. */
  lemma GroupCut(nd: Digits, s: string, n: nat, i: nat, g: Group)
    requires IsGroup(g) && At(s, i, PrintGroup(g)) && i <= n <= |s| && n < i + |PrintGroup(g)|
    ensures var kept := KeepBlocks(g.blocks, n - i - |PrintRef(g.text)|);
      if kept == [] then NoClose(s[..n], i)
      else
        var g' := Group(g.text, kept);
        && IsGroup(g') && i + |PrintGroup(g')| <= n
        && At(s[..n], i, PrintGroup(g')) && NoClose(s[..n], i + |PrintGroup(g')|)
  {
    hide At, PrintBlocks, CloseBox, KeepBlocks;
    var b := i + |PrintRef(g.text)|;
    var t, kept := s[..n], KeepBlocks(g.blocks, n - b);
    GroupAt(s, i, g);
    RefDoesNotClose(s, i, g.text);
    if n < b {
      KeepNone(g.blocks, n - b);
      forall k | i <= k
        ensures !CloseBox(t, k)
      {
        if CloseBox(t, k) { ClosePrefix(s, n, k); }
      }
    } else {
      BlocksCut(nd, s, n, b, g.blocks);
      AtPrefix(s, n, i, PrintRef(g.text));
      AtConcat(t, i, PrintRef(g.text), PrintBlocks(kept));
      if kept == [] {
        NoBlocks();
        forall k | i <= k
          ensures !CloseBox(t, k)
        {
          if CloseBox(t, k) { ClosePrefix(s, n, k); }
        }
      }
    }
  }

  lemma NoBlocks()
    ensures PrintBlocks([]) == ""
  {
  }

  lemma KeepNone(bs: seq<Block>, n: int)
    requires n < 0
    ensures KeepBlocks(bs, n) == []
  {
  }

  lemma {:induction false} GroupsCut(nd: Digits, s: string, n: nat, i: nat, gs: seq<Group>)
    requires AreGroups(gs) && At(s, i, PrintGroups(gs)) && NoClose(s, i + |PrintGroups(gs)|) && i <= n <= |s|
    ensures var kept := KeepGroups(gs, n - i);
      && AreGroups(kept) && i + |PrintGroups(kept)| <= n
      && At(s[..n], i, PrintGroups(kept)) && NoClose(s[..n], i + |PrintGroups(kept)|)
    decreases |gs|
  {
    hide At, PrintGroup, PrintBlocks, CloseBox, MatchEnd, IsRun, RunLabel, LabelSpan, IsGroup, KeepBlocks;
    var t, kept := s[..n], KeepGroups(gs, n - i);
    NothingAt(t, i);
    if gs == [] {
      NoCloseInPrefix(s, n, i);
    } else {
      FirstGroup(nd, s, i, gs);
      var e := i + |PrintGroup(gs[0])|;
      if n >= e {
        GroupsCut(nd, s, n, e, gs[1..]);
        assert kept[1..] == KeepGroups(gs[1..], n - e);
        AtPrefix(s, n, i, PrintGroup(gs[0])) by { AtConcat(s, i, PrintGroup(gs[0]), PrintGroups(gs[1..])); }
        AtConcat(t, i, PrintGroup(gs[0]), PrintGroups(kept[1..]));
      } else {
        AtConcat(s, i, PrintGroup(gs[0]), PrintGroups(gs[1..]));
        GroupCut(nd, s, n, i, gs[0]);
        if kept != [] {
          OneGroup(kept[0]);
          assert kept == [kept[0]];
        }
      }
    }
  }

  lemma NoCloseInPrefix(s: string, n: nat, i: nat)
    requires n <= |s| && NoClose(s, i)
    ensures NoClose(s[..n], i)
  {
    forall k | i <= k
      ensures !CloseBox(s[..n], k)
    {
      if CloseBox(s[..n], k) { ClosePrefix(s, n, k); }
    }
  }

  /** What is complete in the first `n` characters of a printed answer. */
  function Keep(bare: seq<Block>, gs: seq<Group>, n: int): (seq<Block>, seq<Group>) {
    if n <= |PrintBlocks(bare)| then (KeepBlocks(bare, n), []) else (bare, KeepGroups(gs, n - |PrintBlocks(bare)|))
  }

  lemma PrefixPrints(nd: Digits, s: string, bare: seq<Block>, gs: seq<Group>, n: nat)
    requires Prints(s, bare, gs) && n <= |s|
    ensures var (bare', gs') := Keep(bare, gs, n); Prints(s[..n], bare', gs')
  {
    hide At, PrintBlocks, PrintGroup, CloseBox, KeepBlocks, KeepGroups, IsGroup;
    var i := |PrintBlocks(bare)|;
    if n <= i {
      BlocksCut(nd, s, n, 0, bare);
      NothingAt(s[..n], |PrintBlocks(KeepBlocks(bare, n))|);
    } else {
      GroupsCut(nd, s, n, i, gs);
      AtPrefix(s, n, 0, PrintBlocks(bare));
    }
  }

  // ---------- and says a prefix of what was said ----------

  lemma {:induction false} BoxesOfPrefix(name: string, kept: seq<Block>, bs: seq<Block>, width: nat, height: nat)
    requires kept <= bs
    ensures BoxesIn(name, kept, width, height) <= BoxesIn(name, bs, width, height)
    ensures PointsIn(name, kept, width, height) <= PointsIn(name, bs, width, height)
    ensures forall p :: CountOf(p, kept) <= CountOf(p, bs)
  {
    hide MakeBox, MakePoint;
    if kept != [] {
      BoxesOfPrefix(name, kept[1..], bs[1..], width, height);
    }
  }

  lemma {:induction false} BoxesOfKept(gs: seq<Group>, n: int, width: nat, height: nat)
    ensures GroupBoxes(KeepGroups(gs, n), width, height) <= GroupBoxes(gs, width, height)
    ensures GroupPoints(KeepGroups(gs, n), width, height) <= GroupPoints(gs, width, height)
    decreases |gs|
  {
    hide PrintGroup, BoxesIn, PointsIn, KeepBlocks, PrintRef, Strip;
    if gs != [] {
      if n >= |PrintGroup(gs[0])| {
        BoxesOfKept(gs[1..], n - |PrintGroup(gs[0])|, width, height);
      } else {
        var kept := KeepBlocks(gs[0].blocks, n - |PrintRef(gs[0].text)|);
        BoxesOfPrefix(gs[0].Name(), kept, gs[0].blocks, width, height);
        BoxesOfOne(gs[0].text, kept, width, height);
      }
    }
  }

  lemma BoxesOfOne(text: string, bs: seq<Block>, width: nat, height: nat)
    ensures GroupBoxes([Group(text, bs)], width, height) == BoxesIn(Strip(text), bs, width, height)
    ensures GroupPoints([Group(text, bs)], width, height) == PointsIn(Strip(text), bs, width, height)
  {
    hide BoxesIn, PointsIn, Strip;
  }

  /**
   Main result: wherever a printed answer is cut, the boxes and the labelled points found are a
   prefix of those of the whole answer, and all points, the bare ones under the phrase included, are
   a subsequence. Only bare geometry is ever off contract, nothing becomes malformed, and nothing
   becomes unreadable.
   */
  lemma TruncationIsSafe(
    nd: Digits, bare: seq<Block>, gs: seq<Group>, tail: string, n: nat, phrase: Option<string>, width: nat, height: nat
  )
    requires AreGroups(gs) && NoClose(tail, 0) && n <= |Print(bare, gs) + tail|
    ensures var s := Print(bare, gs) + tail;
      var t := s[..n];
      && FoundBoxes(nd, t, width, height) <= FoundBoxes(nd, s, width, height)
      && FoundPoints(nd, t, None, width, height) <= FoundPoints(nd, s, None, width, height)
      && IsSubsequence(FoundPoints(nd, t, phrase, width, height), FoundPoints(nd, s, phrase, width, height))
      && |AnswerItems(nd, FourCoord, t)| <= |FoundBoxes(nd, t, width, height)| + CountOf(FourCoord, bare)
      && |AnswerItems(nd, TwoCoord, t)| <= |FoundPoints(nd, t, None, width, height)| + CountOf(TwoCoord, bare)
      && Filter(Malformed(nd, t), ClosedBlocks(nd, t)) == []
      && (AreShort(bare, gs) || AreOnGrid(bare, gs) ==> IsReadableAnswer(nd, t, phrase))
  {
    hide Print, PrintBlocks, Prints, FoundBoxes, FoundPoints, GroupBoxes, GroupPoints, AnswerItems, Malformed,
      ClosedBlocks, KeepBlocks, CountOf, AreGroups, NoClose, AreShort, AreOnGrid, IsReadableAnswer, IsSubsequence, Keep,
      PhrasePoints;
    var s := Print(bare, gs) + tail;
    var t := s[..n];
    var (bare', gs') := Keep(bare, gs, n);
    PrintedIs(bare, gs, tail);
    PrefixPrints(nd, s, bare, gs, n);
    ReadBack(nd, s, bare, gs, phrase, width, height);
    ReadBack(nd, t, bare', gs', phrase, width, height);
    NothingMalformed(nd, t, bare', gs');
    KeptIsPrefix(bare, gs, n, phrase, width, height);
    KeptIsSubsequence(bare, gs, n, phrase, width, height);
    if AreOnGrid(bare, gs) {
      GridsAreShort(bare, gs);
    }
    if AreShort(bare, gs) {
      KeptIsShort(bare, gs, n);
      PrintedIsReadable(nd, t, bare', gs', phrase);
    }
  }

  lemma KeptIsSubsequence(bare: seq<Block>, gs: seq<Group>, n: int, phrase: Option<string>, width: nat, height: nat)
    ensures var (bare', gs') := Keep(bare, gs, n);
      IsSubsequence(
        GroupPoints(gs', width, height) + PhrasePoints(phrase, bare', width, height),
        GroupPoints(gs, width, height) + PhrasePoints(phrase, bare, width, height))
  {
    hide Keep, GroupPoints, PhrasePoints, IsSubsequence;
    var (bare', gs') := Keep(bare, gs, n);
    KeptIsPrefix(bare, gs, n, phrase, width, height);
    PrefixIsSubsequence(GroupPoints(gs', width, height), GroupPoints(gs, width, height));
    PrefixIsSubsequence(PhrasePoints(phrase, bare', width, height), PhrasePoints(phrase, bare, width, height));
    SubsequenceConcat(
      GroupPoints(gs', width, height), PhrasePoints(phrase, bare', width, height),
      GroupPoints(gs, width, height), PhrasePoints(phrase, bare, width, height));
  }

  lemma KeptIsShort(bare: seq<Block>, gs: seq<Group>, n: int)
    requires AreShort(bare, gs)
    ensures var (bare', gs') := Keep(bare, gs, n); AreShort(bare', gs')
  {
    hide PrintBlocks, KeepBlocks, IsShort, KeepGroups;
    KeptGroupsAreShort(gs, n - |PrintBlocks(bare)|);
    if n <= |PrintBlocks(bare)| {
      KeptBlocksAreKept(bare, n);
    }
  }

  lemma KeptBlocksAreKept(bs: seq<Block>, n: int)
    ensures forall b | b in KeepBlocks(bs, n) :: b in bs
  {
  }

  lemma {:induction false} KeptGroupsAreShort(gs: seq<Group>, n: int)
    requires forall g | g in gs :: forall b | b in g.blocks :: IsShort(b)
    ensures forall g | g in KeepGroups(gs, n) :: forall b | b in g.blocks :: IsShort(b)
    decreases |gs|
  {
    hide PrintGroup, PrintRef, KeepBlocks, IsShort;
    if gs != [] {
      assert gs[0] in gs;
      KeptGroupsAreShort(gs[1..], n - |PrintGroup(gs[0])|);
      KeptBlocksAreKept(gs[0].blocks, n - |PrintRef(gs[0].text)|);
    }
  }

  // ---------- when the points are a prefix ----------

  predicate AreAllTheSame(ps: seq<Point>) {
    forall i, j | 0 <= i < |ps| && 0 <= j < |ps| :: ps[i] == ps[j]
  }

  lemma KeepAllBlocks(bs: seq<Block>)
    ensures KeepBlocks(bs, |PrintBlocks(bs)|) == bs
  {
    hide PrintBlock;
  }

  lemma KeepNothing(bs: seq<Block>, gs: seq<Group>)
    ensures KeepBlocks(bs, 0) == [] && KeepGroups(gs, 0) == []
  {
    hide PrintBlock, PrintBlocks;
    if bs != [] {
      BlockLength(bs[0]);
    }
    if gs != [] {
      KeepNone(gs[0].blocks, -|PrintRef(gs[0].text)|);
    }
  }

  /** Some cut of a row of blocks keeps the first `j` of its points. */
  lemma {:induction false} CutAfterBlocks(name: string, bs: seq<Block>, j: nat, width: nat, height: nat)
    returns (m: nat)
    requires j <= |PointsIn(name, bs, width, height)|
    ensures m <= |PrintBlocks(bs)|
    ensures PointsIn(name, KeepBlocks(bs, m), width, height) == PointsIn(name, bs, width, height)[..j]
    decreases |bs|
  {
    hide PrintBlock, MakePoint;
    if j == 0 {
      m := 0;
      KeepNothing(bs, []);
    } else {
      var rest := if bs[0].PointBlock? then j - 1 else j;
      var i := CutAfterBlocks(name, bs[1..], rest, width, height);
      m := |PrintBlock(bs[0])| + i;
      assert KeepBlocks(bs, m)[1..] == KeepBlocks(bs[1..], i);
    }
  }

  /** And some cut of a row of groups keeps the first `j` of theirs. */
  lemma {:induction false} CutAfterGroups(gs: seq<Group>, j: nat, width: nat, height: nat) returns (m: nat)
    requires j <= |GroupPoints(gs, width, height)|
    ensures m <= |PrintGroups(gs)|
    ensures GroupPoints(KeepGroups(gs, m), width, height) == GroupPoints(gs, width, height)[..j]
    decreases |gs|
  {
    hide PrintBlocks, PrintRef, KeepBlocks, PointsIn;
    if gs == [] {
      m := 0;
    } else {
      var g := gs[0];
      var own := PointsIn(g.Name(), g.blocks, width, height);
      if j <= |own| {
        var i := CutAfterBlocks(g.Name(), g.blocks, j, width, height);
        m := |PrintRef(g.text)| + i;
        KeepAllBlocks(g.blocks);
        KeepNothing([], gs[1..]);
        NoPoints(g.Name(), width, height);
      } else {
        var i := CutAfterGroups(gs[1..], j - |own|, width, height);
        m := |PrintGroup(g)| + i;
        assert KeepGroups(gs, m)[1..] == KeepGroups(gs[1..], i);
      }
    }
  }

  lemma NoPoints(name: string, width: nat, height: nat)
    ensures PointsIn(name, [], width, height) == []
  {
  }

  /** Cutting after the bare blocks and some of the groups keeps all the bare points. */
  lemma CutInGroups(bare: seq<Block>, gs: seq<Group>, j: nat, width: nat, height: nat) returns (n: nat)
    requires j <= |GroupPoints(gs, width, height)|
    ensures n <= |Print(bare, gs)| && Keep(bare, gs, n).0 == bare
    ensures GroupPoints(Keep(bare, gs, n).1, width, height) == GroupPoints(gs, width, height)[..j]
  {
    hide PrintBlocks, PrintGroups, KeepBlocks, KeepGroups, GroupPoints;
    var m := CutAfterGroups(gs, j, width, height);
    n := |PrintBlocks(bare)| + m;
    KeepAllBlocks(bare);
    KeepNothing([], gs);
  }

  /** When every cut of `a + b` between the two leaves `b` in place, all elements are the same. */
  lemma AllTheSame(a: seq<Point>, b: seq<Point>)
    requires a != [] && b != [] && forall j | 0 <= j <= |a| :: a[..j] + b <= a + b
    ensures AreAllTheSame(a + b)
  {
    var x := b[0];
    forall j | 0 <= j < |a|
      ensures a[j] == x
    {
      assert (a[..j] + b)[j] == (a + b)[j];
    }
    var last := a[..|a| - 1] + b;
    assert last <= a + b;
    SameAsFirst(a, b);
  }

  lemma {:induction false} SameAsFirst(a: seq<Point>, b: seq<Point>)
    requires a != [] && b != [] && a[..|a| - 1] + b <= a + b
    ensures forall i | 0 <= i < |b| :: b[i] == b[0]
  {
    var k := |a| - 1;
    forall i | 0 <= i < |b| - 1
      ensures b[i + 1] == b[i]
    {
      assert (a[..k] + b)[k + i + 1] == (a + b)[k + i + 1];
    }
    var i := 0;
    while i < |b|
      invariant 0 <= i <= |b| && forall l | 0 <= l < i :: b[l] == b[0]
    {
      if i > 0 {
        assert b[(i - 1) + 1] == b[i - 1];
      }
      i := i + 1;
    }
  }

  lemma SamePrefix(a: seq<Point>, b: seq<Point>, a': seq<Point>, b': seq<Point>)
    requires a' <= a && b' <= b && (b == [] || a == [] || AreAllTheSame(a + b))
    ensures a' + b' <= a + b
  {
    var whole, part := a + b, a' + b';
    if b != [] && a != [] {
      forall k | 0 <= k < |part|
        ensures part[k] == whole[k]
      {
        assert part[k] == whole[if k < |a'| then k else |a| + k - |a'|];
      }
    }
  }

  /** Every cut finds a prefix of the points. */
  ghost predicate CutsArePrefixes(nd: Digits, s: string, phrase: Option<string>, width: nat, height: nat) {
    forall n | 0 <= n <= |s| ::
      FoundPoints(nd, s[..n], phrase, width, height) <= FoundPoints(nd, s, phrase, width, height)
  }

  /**
   Main result: every cut finds a prefix of the points exactly when there are no bare points under
   the phrase, or none in the groups, or all of them are one and the same point.
   */
  lemma PointsArePrefixIff(
    nd: Digits, bare: seq<Block>, gs: seq<Group>, tail: string, phrase: Option<string>, width: nat, height: nat
  )
    requires AreGroups(gs) && NoClose(tail, 0)
    ensures var inGroups, atLarge := GroupPoints(gs, width, height), PhrasePoints(phrase, bare, width, height);
      CutsArePrefixes(nd, Print(bare, gs) + tail, phrase, width, height)
      <==> inGroups == [] || atLarge == [] || AreAllTheSame(inGroups + atLarge)
  {
    hide Print, PrintBlocks, Prints, FoundPoints, GroupPoints, AreGroups, NoClose, Keep, PhrasePoints, AreAllTheSame;
    var s := Print(bare, gs) + tail;
    var a, b := GroupPoints(gs, width, height), PhrasePoints(phrase, bare, width, height);
    PrintedIs(bare, gs, tail);
    ReadBack(nd, s, bare, gs, phrase, width, height);
    forall n: nat | n <= |s|
      ensures var (bare', gs') := Keep(bare, gs, n);
        FoundPoints(nd, s[..n], phrase, width, height)
        == GroupPoints(gs', width, height) + PhrasePoints(phrase, bare', width, height)
    {
      var (bare', gs') := Keep(bare, gs, n);
      PrefixPrints(nd, s, bare, gs, n);
      ReadBack(nd, s[..n], bare', gs', phrase, width, height);
    }
    if a == [] || b == [] || AreAllTheSame(a + b) {
      forall n: nat | n <= |s|
        ensures FoundPoints(nd, s[..n], phrase, width, height) <= FoundPoints(nd, s, phrase, width, height)
      {
        var (bare', gs') := Keep(bare, gs, n);
        KeptIsPrefix(bare, gs, n, phrase, width, height);
        SamePrefix(a, b, GroupPoints(gs', width, height), PhrasePoints(phrase, bare', width, height));
      }
    }
    if CutsArePrefixes(nd, s, phrase, width, height) && a != [] && b != [] {
      forall j | 0 <= j <= |a|
        ensures a[..j] + b <= a + b
      {
        var n := CutInGroups(bare, gs, j, width, height);
        assert FoundPoints(nd, s[..n], phrase, width, height) == a[..j] + b;
      }
      AllTheSame(a, b);
    }
  }

  lemma OnePoint(text: string, x: nat, y: nat, width: nat, height: nat)
    ensures PointsIn(text, [PointBlock(x, y)], width, height) == [MakePoint(text, x, y, width, height)]
    ensures GroupPoints([Group(text, [PointBlock(x, y)])], width, height)
         == [MakePoint(Strip(text), x, y, width, height)]
  {
    hide MakePoint, Strip;
    NoPoints(Strip(text), width, height);
  }

  lemma IsOneGroup(b: Block)
    ensures AreGroups([Group("a", [b])])
  {
    assert "a"[0] == 'a';
    StripPadded("", "a", "");
    assert "" + "a" + "" == "a";
  }

  /** An answer on which what a cut loses is not last: a bare point before a group with another. */
  lemma CutLosesEarlierPoints(nd: Digits)
    ensures var bare, gs := [PointBlock(1, 2)], [Group("a", [PointBlock(3, 4)])];
      AreGroups(gs) && !CutsArePrefixes(nd, Print(bare, gs), Some("p"), 1000, 1000)
  {
    hide CutsArePrefixes, Print, PrintBlock, ToPixels, AreGroups, GroupPoints, PointsIn;
    var bare, gs := [PointBlock(1, 2)], [Group("a", [PointBlock(3, 4)])];
    IsOneGroup(PointBlock(3, 4));
    OnePoint("p", 1, 2, 1000, 1000);
    OnePoint("a", 3, 4, 1000, 1000);
    PointsArePrefixIff(nd, bare, gs, "", Some("p"), 1000, 1000);
    assert Print(bare, gs) + "" == Print(bare, gs);
    var inGroups, atLarge := GroupPoints(gs, 1000, 1000), PhrasePoints(Some("p"), bare, 1000, 1000);
    assert (inGroups + atLarge)[0] != (inGroups + atLarge)[1];
  }

  lemma ReadBack(
    nd: Digits, s: string, bare: seq<Block>, gs: seq<Group>, phrase: Option<string>, width: nat, height: nat
  )
    requires Prints(s, bare, gs)
    ensures FoundBoxes(nd, s, width, height) == GroupBoxes(gs, width, height)
    ensures |AnswerItems(nd, FourCoord, s)| == |GroupBoxes(gs, width, height)| + CountOf(FourCoord, bare)
    ensures FoundPoints(nd, s, None, width, height) == GroupPoints(gs, width, height)
    ensures FoundPoints(nd, s, phrase, width, height)
         == GroupPoints(gs, width, height) + PhrasePoints(phrase, bare, width, height)
    ensures |AnswerItems(nd, TwoCoord, s)| == |GroupPoints(gs, width, height)| + CountOf(TwoCoord, bare)
  {
    hide Prints, FoundBoxes, FoundPoints, GroupBoxes, GroupPoints, AnswerItems, CountOf, PointsIn;
    BoxesReadBack(nd, s, bare, gs, width, height);
    PointsReadBack(nd, s, bare, gs, None, width, height);
    PointsReadBack(nd, s, bare, gs, phrase, width, height);
  }

  lemma KeptIsPrefix(bare: seq<Block>, gs: seq<Group>, n: int, phrase: Option<string>, width: nat, height: nat)
    ensures var (bare', gs') := Keep(bare, gs, n);
      && GroupBoxes(gs', width, height) <= GroupBoxes(gs, width, height)
      && GroupPoints(gs', width, height) <= GroupPoints(gs, width, height)
      && PhrasePoints(phrase, bare', width, height) <= PhrasePoints(phrase, bare, width, height)
      && CountOf(FourCoord, bare') <= CountOf(FourCoord, bare) && CountOf(TwoCoord, bare') <= CountOf(TwoCoord, bare)
      && (gs == [] ==> gs' == [])
  {
    hide PrintBlocks, KeepBlocks, BoxesIn, PointsIn, CountOf, PrintGroup;
    var name := if phrase.Some? then phrase.value else "";
    BoxesOfPrefix(name, Keep(bare, gs, n).0, bare, width, height);
    BoxesOfKept(gs, n - |PrintBlocks(bare)|, width, height);
  }

  // ---------- what says that an answer was cut ----------

  /** No `<` stands before a bar, or at the end. */
  ghost predicate NoBar(s: string) {
    forall i | 0 <= i < |s| && s[i] == '<' :: i + 1 < |s| && s[i + 1] != '|'
  }

  lemma NoBarConcat(a: string, b: string)
    requires NoBar(a) && NoBar(b)
    ensures NoBar(a + b)
  {
    forall i | 0 <= i < |a + b| && (a + b)[i] == '<'
      ensures i + 1 < |a + b| && (a + b)[i + 1] != '|'
    {
      if i < |a| {
        assert a[i] == '<';
      } else {
        assert b[i - |a|] == '<';
      }
    }
  }

  lemma NoBarInTags()
    ensures NoBar("<box>") && NoBar("</box>") && NoBar("<ref>") && NoBar("</ref>") && NoBar("None") && NoBar("none")
  {
    var tags := ["<box>", "</box>", "<ref>", "</ref>", "None", "none"];
    forall k | 0 <= k < 6
      ensures NoBar(tags[k])
    {
      assert tags[k][0] == '<' ==> tags[k][1] != '|' && forall i | 0 < i < |tags[k]| :: tags[k][i] != '<';
    }
  }

  lemma {:induction false} NoBarInCoords(cs: seq<nat>)
    ensures NoBar(PrintCoords(cs))
  {
    if cs != [] {
      var d := Decimal(cs[0]);
      var first := "<" + d + ">";
      assert first[0] == '<' && first[1] == d[0] && d[0] in d;
      forall i | 1 <= i < |first|
        ensures first[i] != '<'
      {
        assert i <= |d| ==> first[i] == d[i - 1] && d[i - 1] in d;
      }
      NoBarInCoords(cs[1..]);
      NoBarConcat(first, PrintCoords(cs[1..]));
    }
  }

  lemma {:induction false} NoBarInBlocks(bs: seq<Block>)
    ensures NoBar(PrintBlocks(bs))
  {
    hide NoBar, PrintCoords;
    NoBarInNothing();
    if bs != [] {
      var inner := if bs[0].NoneBlock? then (if bs[0].capital then "None" else "none") else PrintCoords(bs[0].Tokens());
      NoBarInTags();
      NoBarInCoords(bs[0].Tokens());
      NoBarConcat("<box>", inner);
      NoBarConcat("<box>" + inner, "</box>");
      NoBarInBlocks(bs[1..]);
      NoBarConcat(PrintBlock(bs[0]), PrintBlocks(bs[1..]));
    }
  }

  lemma NoBarInNothing()
    ensures NoBar("")
  {
  }

  lemma NoBarInText(text: string)
    requires '<' !in text
    ensures NoBar(text)
  {
  }

  lemma {:induction false} NoBarInGroups(gs: seq<Group>)
    requires AreGroups(gs)
    ensures NoBar(PrintGroups(gs))
  {
    hide NoBar, PrintBlocks;
    NoBarInNothing();
    if gs != [] {
      assert gs[0] in gs;
      NoBarInTags();
      NoBarInText(gs[0].text);
      NoBarConcat("<ref>", gs[0].text);
      NoBarConcat("<ref>" + gs[0].text, "</ref>");
      NoBarInBlocks(gs[0].blocks);
      NoBarConcat(PrintRef(gs[0].text), PrintBlocks(gs[0].blocks));
      NoBarInGroups(gs[1..]);
      NoBarConcat(PrintGroup(gs[0]), PrintGroups(gs[1..]));
    }
  }

  /**
   Main result: the model's end of turn after a printed answer is what makes it complete: no proper
   cut of the two is reported as complete, wherever it ends.
   */
  lemma CutsAreTruncated(bare: seq<Block>, gs: seq<Group>, text: string, n: nat)
    requires AreGroups(gs) && '<' !in text
    ensures var s := Print(bare, gs) + text + "<|im_end|>";
      IsComplete(s) && (n < |s| ==> !IsComplete(s[..n]))
  {
    hide PrintBlocks, PrintGroups, AreGroups;
    NoBarInBlocks(bare);
    NoBarInGroups(gs);
    NoBarInText(text);
    NoBarConcat(PrintBlocks(bare), PrintGroups(gs));
    NoBarConcat(Print(bare, gs), text);
    OneBar(Print(bare, gs) + text, n);
  }

  lemma EndsInBar(t: string)
    requires IsComplete(t)
    ensures |t| >= 10 && t[|t| - 10] == '<' && t[|t| - 9] == '|'
  {
    var mark := "<|im_end|>";
    var text :| t == text + mark;
    assert t[|text|] == mark[0] && t[|text| + 1] == mark[1];
  }

  lemma OneBar(a: string, n: nat)
    requires NoBar(a)
    ensures var s := a + "<|im_end|>"; IsComplete(s) && (n < |s| ==> !IsComplete(s[..n]))
  {
    var s := a + "<|im_end|>";
    if 10 <= n < |s| && s[n - 10] == '<' {
      assert a[n - 10] == '<' && s[n - 9] == a[n - 9] != '|';
    }
    if n < |s| && (n < 10 || s[n - 10] != '<' || s[n - 9] != '|') {
      forall t | IsComplete(t)
        ensures t != s[..n]
      {
        EndsInBar(t);
      }
    }
  }
}

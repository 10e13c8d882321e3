/**
 How the matches of the five patterns lie in one string: no match straddles another's boundary,
 a match of a strict form is the tail of exactly one `<box>...</box>` block, and a match that
 touches a ref-run lies in its blocks.
 */
module Blocks {
  import opened Wrappers
  import opened Text
  import opened Scanner

  // ---------- inside one match ----------

  lemma {:induction false} CoordsInner(nd: Digits, s: string, i: nat, n: nat, j: nat, y: nat)
    requires CoordsEnd(nd, s, i, n) == Some(j) && i <= y < j && s[y] == '<'
    ensures y + 1 < j && s[y + 1] in nd
    decreases n
  {
    var e := CoordEnd(nd, s, i).value;
    assert e == SkipDigits(nd, s, i + 1) + 1 && s[e - 1] == '>';
    assert forall k | i < k < e - 1 :: s[k] in nd;
    if y >= e {
      CoordsInner(nd, s, e, n - 1, j, y);
    }
  }

  lemma CoordBlockInner(nd: Digits, s: string, n: nat, x: nat, e: nat, y: nat)
    requires CoordBlockEnd(nd, s, x, n) == Some(e) && x < y < e && s[y] == '<'
    ensures y == e - 6 || (y + 1 < e && s[y + 1] in nd)
  {
    hide CoordsEnd;
    assert CoordsEnd(nd, s, x + 5, n) == Some(e - 6);
    if x + 5 <= y < e - 6 {
      CoordsInner(nd, s, x + 5, n, e - 6, y);
    }
  }

  /** Past its first character, a strict match opens no tag but those of its digits and its `</box>`. */
  lemma InnerTag(nd: Digits, p: Pattern, s: string, x: nat, e: nat, y: nat)
    requires p.IsStrict() && Matches(nd, p, s, x, e) && x < y < e && s[y] == '<'
    ensures y == e - 6 || (y + 1 < e && s[y + 1] in nd)
  {
    hide CoordBlockEnd;
    match p
    case FourCoord => CoordBlockInner(nd, s, 4, x, e, y);
    case TwoCoord => CoordBlockInner(nd, s, 2, x, e, y);
    case NoneLiteral =>
  }

  lemma StrictClose(nd: Digits, p: Pattern, s: string, x: nat, e: nat)
    requires p.IsStrict() && Matches(nd, p, s, x, e)
    ensures OpenBox(s, x) && CloseBox(s, e - 6) && x + 5 <= e - 6
  {
  }

  /** A strict match is the shortest block that begins where it does. */
  lemma StrictIsAny(nd: Digits, p: Pattern, s: string, x: nat, e: nat)
    requires p.IsStrict() && Matches(nd, p, s, x, e)
    ensures AnyBlockEnd(s, x) == Some(e)
  {
    StrictClose(nd, p, s, x, e);
    hide MatchEnd, FindClose;
    var c := FindClose(s, x + 5).value;
    if c < e - 6 {
      InnerTag(nd, p, s, x, e, c);
    }
  }

  /** A block that begins inside another ends with it: both end at the same first `</box>`. */
  lemma SameEnd(s: string, b: nat, f: nat, x: nat, e: nat)
    requires AnyBlockEnd(s, b) == Some(f) && b <= x < f && AnyBlockEnd(s, x) == Some(e)
    ensures e == f
  {
    var c := FindClose(s, b + 5).value;
    assert x == b || (b + 5 <= x && x < c);
    assert x + 5 <= c;
    assert FindClose(s, x + 5) == Some(c) by {
      var d := FindClose(s, x + 5);
      assert d.Some? && d.value <= c;
    }
  }

  /** At one position at most one strict form matches. */
  lemma OneForm(nd: Digits, p: Pattern, q: Pattern, s: string, x: nat)
    requires p.IsStrict() && q.IsStrict() && MatchEnd(nd, p, s, x).Some? && MatchEnd(nd, q, s, x).Some?
    ensures p == q
  {
    if p.FourCoord? || q.FourCoord? {
      FourIsNotTwo(nd, s, x + 5);
    }
    assert p.NoneLiteral? || q.NoneLiteral? ==> s[x + 5] != '<';
  }

  lemma FourIsNotTwo(nd: Digits, s: string, i: nat)
    requires CoordsEnd(nd, s, i, 4).Some?
    ensures CoordsEnd(nd, s, i, 2).Some? && !CloseBox(s, CoordsEnd(nd, s, i, 2).value)
  {
    var a := CoordEnd(nd, s, i).value;
    var b := CoordEnd(nd, s, a).value;
    assert CoordsEnd(nd, s, i, 4) == CoordsEnd(nd, s, a, 3) == CoordsEnd(nd, s, b, 2);
    assert CoordsEnd(nd, s, i, 2) == CoordsEnd(nd, s, a, 1) == CoordsEnd(nd, s, b, 0);
    assert CoordEnd(nd, s, b).Some?;
    assert s[b + 1] in nd;
  }

  /** Overlapping strict matches are the same match of the same form. */
  lemma StrictApart(nd: Digits, p: Pattern, q: Pattern, s: string, x: nat, e: nat, y: nat, f: nat)
    requires p.IsStrict() && Matches(nd, p, s, x, e)
    requires q.IsStrict() && Matches(nd, q, s, y, f)
    requires x < f && y < e
    ensures p == q && x == y && e == f
  {
    NoOpenInside(nd, p, s, x, e);
    NoOpenInside(nd, q, s, y, f);
    OneForm(nd, p, q, s, x);
  }

  lemma NoOpenInside(nd: Digits, p: Pattern, s: string, x: nat, e: nat)
    requires p.IsStrict() && Matches(nd, p, s, x, e)
    ensures OpenBox(s, x) && forall y | x < y < e :: !OpenBox(s, y) && !OpenRef(s, y)
  {
    StrictClose(nd, p, s, x, e);
    forall y | x < y < e
      ensures !OpenBox(s, y) && !OpenRef(s, y)
    {
      if s[y] == '<' {
        InnerTag(nd, p, s, x, e, y);
      }
    }
  }

  // ---------- every strict match is the tail of one block ----------

  /** What a pattern finds inside one span. */
  function Inside(nd: Digits, p: Pattern, s: string, b: Span): seq<Span>
    requires b.end <= |s|
  {
    FindFrom(nd, p, s, b.start, b.end)
  }

  /** Every strict match that begins inside a block ends with it. */
  lemma BlockBounded(nd: Digits, p: Pattern, s: string, b: Span)
    requires p.IsStrict() && AnyBlockEnd(s, b.start) == Some(b.end)
    ensures forall x | b.start <= x < b.end && MatchEnd(nd, p, s, x).Some? :: MatchEnd(nd, p, s, x) == Some(b.end)
    ensures Bounded(EndsOf(nd, p, s), b.start, b.end)
  {
    forall x | b.start <= x < b.end && MatchEnd(nd, p, s, x).Some?
      ensures MatchEnd(nd, p, s, x) == Some(b.end)
    {
      var e := MatchEnd(nd, p, s, x).value;
      StrictIsAny(nd, p, s, x, e);
      SameEnd(s, b.start, b.end, x, e);
    }
  }

  /** A block holds at most one strict match of a form, and it is a tail of the block. */
  lemma InsideBlock(nd: Digits, p: Pattern, s: string, b: Span)
    requires p.IsStrict() && AnyBlockEnd(s, b.start) == Some(b.end)
    ensures var r := Inside(nd, p, s, b); |r| <= 1 && forall m | m in r ::
      b.start <= m.start && m.end == b.end && Matches(nd, p, s, m.start, m.end)
  {
    BlockBounded(nd, p, s, b);
    Found(EndsOf(nd, p, s), b.start, b.end);
    AtMostOne(Inside(nd, p, s, b), b.start, b.end);
  }

  /** What a pattern finds inside each of a list of spans, in turn. */
  function InsideEach(nd: Digits, p: Pattern, s: string, bs: seq<Span>): seq<Span>
    requires forall b | b in bs :: b.end <= |s|
  {
    if bs == [] then [] else Inside(nd, p, s, bs[0]) + InsideEach(nd, p, s, bs[1..])
  }

  ghost predicate AreBlocks(s: string, bs: seq<Span>) {
    forall b | b in bs :: b.end <= |s| && AnyBlockEnd(s, b.start) == Some(b.end)
  }

  lemma AnyIsAnyBlock(nd: Digits, s: string)
    ensures forall x | 0 <= x < |s| :: MatchEnd(nd, AnyBlock, s, x) == AnyBlockEnd(s, x)
  {
  }

  /** Main result: `finditer` of a strict form is its matches inside the blocks, block by block. */
  lemma {:induction false} StrictByBlocks(nd: Digits, p: Pattern, s: string, lo: nat)
    requires p.IsStrict() && lo <= |s|
    ensures var bs := FindFrom(nd, AnyBlock, s, lo, |s|);
      AreBlocks(s, bs) && FindFrom(nd, p, s, lo, |s|) == InsideEach(nd, p, s, bs)
    decreases |s| - lo
  {
    hide MatchEnd, AnyBlockEnd;
    var any, strict := EndsOf(nd, AnyBlock, s), EndsOf(nd, p, s);
    assert forall x | 0 <= x < |s| :: any[x] == MatchEnd(nd, AnyBlock, s, x);
    AnyIsAnyBlock(nd, s);
    if lo < |s| {
      if any[lo].Some? {
        var b := Span(lo, any[lo].value);
        BlockBounded(nd, p, s, b);
        FindSplit(strict, lo, b.end, |s|);
        StrictByBlocks(nd, p, s, b.end);
        assert Scan(any, lo, |s|)[1..] == Scan(any, b.end, |s|);
      } else {
        if strict[lo].Some? {
          StrictIsAny(nd, p, s, lo, strict[lo].value);
        }
        StrictByBlocks(nd, p, s, lo + 1);
      }
    }
  }

  // ---------- ref-runs ----------

  /** Where the blocks of the ref-run that begins at `r` begin. */
  function BlocksStart(s: string, r: nat): nat
    requires LabelSpan(s, r).Some?
  {
    LabelSpan(s, r).value.end + 6
  }

  lemma {:induction false} RunBounded(nd: Digits, p: Pattern, s: string, g: nat, h: nat)
    requires p.IsStrict() && g <= |s| && RunBlocksEnd(s, g) == Some(h)
    ensures Bounded(EndsOf(nd, p, s), g, h)
    decreases |s| - g
  {
    var b := SkipSpace(s, g);
    var e := RunTurnEnd(s, g).value;
    if RunBlocksEnd(s, e).Some? {
      RunBounded(nd, p, s, e, h);
    }
    BlockBounded(nd, p, s, Span(b, e));
    var ends := EndsOf(nd, p, s);
    forall x | g <= x < h && ends[x].Some?
      ensures ends[x].value <= h
    {
      assert OpenBox(s, x);
      assert b <= x;
    }
  }

  lemma BeforeRef(nd: Digits, p: Pattern, s: string, lo: nat, r: nat)
    requires p.IsStrict() && OpenRef(s, r)
    ensures Bounded(EndsOf(nd, p, s), lo, r)
  {
    var ends := EndsOf(nd, p, s);
    forall x | lo <= x < r && ends[x].Some?
      ensures ends[x].value <= r
    {
      NoOpenInside(nd, p, s, x, ends[x].value);
    }
  }

  /** No block begins inside `<ref>label</ref>`. */
  lemma NoBlockInRef(s: string, r: nat)
    requires LabelSpan(s, r).Some?
    ensures forall x | r <= x < BlocksStart(s, r) :: !OpenBox(s, x)
  {
    var c := LabelSpan(s, r).value.end;
    forall x | r <= x < BlocksStart(s, r)
      ensures !OpenBox(s, x)
    {
      assert r + 5 <= x < c ==> s[x] != '<';
    }
  }

  /** Main result: a ref-run cuts `finditer` of a strict form into before, inside its blocks, and after. */
  lemma StrictByRun(nd: Digits, p: Pattern, s: string, lo: nat, r: nat, h: nat)
    requires p.IsStrict() && lo <= r && LabelSpan(s, r).Some? && RunBlocksEnd(s, BlocksStart(s, r)) == Some(h)
    ensures r < BlocksStart(s, r) <= h <= |s|
    ensures FindFrom(nd, p, s, lo, |s|)
         == FindFrom(nd, p, s, lo, r) + FindFrom(nd, p, s, BlocksStart(s, r), h) + FindFrom(nd, p, s, h, |s|)
  {
    var g := BlocksStart(s, r);
    BeforeRef(nd, p, s, lo, r);
    NoBlockInRef(s, r);
    NoMatchWithoutOpen(nd, p, s, r, g);
    RunBounded(nd, p, s, g, h);
    FindCut(EndsOf(nd, p, s), lo, r, g, h, |s|);
  }

  lemma NoMatchWithoutOpen(nd: Digits, p: Pattern, s: string, lo: nat, hi: nat)
    requires p.IsStrict() && hi <= |s| && forall x | lo <= x < hi :: !OpenBox(s, x)
    ensures forall x | lo <= x < hi :: EndsOf(nd, p, s)[x].None?
  {
  }

  // ---------- finditer over the text of a group ----------

  /** A result of matching in `s`, as seen from `s[g..h]`. */
  function Clip(r: Option<nat>, g: nat, h: nat): Option<nat> {
    if r.Some? && g <= r.value <= h then Some(r.value - g) else None
  }

  lemma {:induction false} SkipDigitsClip(nd: Digits, s: string, g: nat, h: nat, i: nat)
    requires g <= h <= |s| && i <= h - g
    ensures var j := SkipDigits(nd, s, g + i); SkipDigits(nd, s[g..h], i) == (if j <= h then j else h) - g
    decreases h - i
  {
    if i < h - g && s[g + i] in nd {
      SkipDigitsClip(nd, s, g, h, i + 1);
    }
  }

  lemma CoordEndClip(nd: Digits, s: string, g: nat, h: nat, i: nat)
    requires g <= h <= |s|
    ensures CoordEnd(nd, s[g..h], i) == Clip(CoordEnd(nd, s, g + i), g, h)
  {
    if i + 1 <= h - g {
      SkipDigitsClip(nd, s, g, h, i + 1);
    }
  }

  lemma SliceOfSlice(s: string, g: nat, h: nat, a: nat, b: nat)
    requires g <= h <= |s| && a <= b <= h - g
    ensures s[g..h][a..b] == s[g + a..g + b]
  {
    var l, r := s[g..h][a..b], s[g + a..g + b];
    assert |l| == |r| && forall k | 0 <= k < b - a :: l[k] == r[k];
  }

  lemma {:induction false} CoordsClip(nd: Digits, s: string, g: nat, h: nat, i: nat, n: nat)
    requires g <= h <= |s| && i <= h - g
    ensures CoordsEnd(nd, s[g..h], i, n) == Clip(CoordsEnd(nd, s, g + i, n), g, h)
    decreases n
  {
    hide CoordEnd;
    if n > 0 {
      CoordEndClip(nd, s, g, h, i);
      var e := CoordEnd(nd, s, g + i);
      if e.Some? && e.value <= h {
        CoordsClip(nd, s, g, h, e.value - g, n - 1);
      }
    }
  }

  lemma {:induction false} CapturedClip(nd: Digits, s: string, g: nat, h: nat, i: nat, n: nat)
    requires g <= h <= |s| && CoordsEnd(nd, s[g..h], i, n).Some? && CoordsEnd(nd, s, g + i, n).Some?
    ensures Captured(nd, s[g..h], i, n) == Captured(nd, s, g + i, n)
    decreases n
  {
    hide CoordEnd;
    if n > 0 {
      CoordEndClip(nd, s, g, h, i);
      var e := CoordEnd(nd, s, g + i).value;
      CapturedClip(nd, s, g, h, e - g, n - 1);
      SliceOfSlice(s, g, h, i + 1, e - g - 1);
    }
  }

  lemma TagsClip(s: string, g: nat, h: nat, i: nat)
    requires g <= h <= |s|
    ensures OpenBox(s[g..h], i) == (OpenBox(s, g + i) && g + i + 5 <= h)
    ensures CloseBox(s[g..h], i) == (CloseBox(s, g + i) && g + i + 6 <= h)
  {
  }

  lemma CoordBlockClip(nd: Digits, n: nat, s: string, g: nat, h: nat, i: nat)
    requires g <= h <= |s| && i <= h - g
    ensures CoordBlockEnd(nd, s[g..h], i, n) == Clip(CoordBlockEnd(nd, s, g + i, n), g, h)
  {
    hide CoordsEnd;
    TagsClip(s, g, h, i);
    if OpenBox(s[g..h], i) {
      CoordsClip(nd, s, g, h, i + 5, n);
      var j := CoordsEnd(nd, s[g..h], i + 5, n);
      if j.Some? {
        TagsClip(s, g, h, j.value);
      }
    }
  }

  /** A coordinate block in part of a string reads as it does in the whole. */
  lemma CoordBlockReadClip(nd: Digits, n: nat, s: string, g: nat, h: nat, i: nat)
    requires g <= h <= |s| && i <= h - g && CoordBlockEnd(nd, s[g..h], i, n).Some?
    ensures CoordBlockEnd(nd, s, g + i, n) == Some(g + CoordBlockEnd(nd, s[g..h], i, n).value)
    ensures Captured(nd, s[g..h], i + 5, n) == Captured(nd, s, g + i + 5, n)
  {
    hide CoordsEnd, Captured;
    CoordBlockClip(nd, n, s, g, h, i);
    assert g + (i + 5) == g + i + 5;
    CapturedClip(nd, s, g, h, i + 5, n);
  }

  lemma MatchClip(nd: Digits, p: Pattern, s: string, g: nat, h: nat, i: nat)
    requires p.IsStrict() && g <= h <= |s| && i <= h - g
    ensures MatchEnd(nd, p, s[g..h], i) == Clip(MatchEnd(nd, p, s, g + i), g, h)
  {
    match p
    case FourCoord => CoordBlockClip(nd, 4, s, g, h, i);
    case TwoCoord => CoordBlockClip(nd, 2, s, g, h, i);
    case NoneLiteral =>
  }

  function Shift(r: seq<Span>, g: nat): seq<Span> {
    if r == [] then [] else [Span(g + r[0].start, g + r[0].end)] + Shift(r[1..], g)
  }

  lemma {:induction false} ShiftAt(r: seq<Span>, g: nat)
    ensures |Shift(r, g)| == |r|
    ensures forall k | 0 <= k < |r| :: Shift(r, g)[k] == Span(g + r[k].start, g + r[k].end)
  {
    if r != [] {
      ShiftAt(r[1..], g);
    }
  }

  lemma {:induction false} ScanClip(part: Ends, whole: Ends, g: nat, h: nat, i: nat)
    requires g <= h <= |whole| && |part| == h - g && i <= h - g && Bounded(whole, g, h)
    requires forall k | 0 <= k < h - g :: part[k] == Clip(whole[g + k], g, h)
    ensures Shift(Scan(part, i, h - g), g) == Scan(whole, g + i, h)
    decreases h - g - i
  {
    hide Shift, Scan;
    ShiftNothing(g);
    ScanStep(part, i, h - g);
    ScanStep(whole, g + i, h);
    if i < h - g {
      assert part[i] == Clip(whole[g + i], g, h);
      if part[i].Some? {
        var e := part[i].value;
        ScanClip(part, whole, g, h, e);
        ShiftFirst(Span(i, e), Scan(part, e, h - g), g);
      } else {
        ScanClip(part, whole, g, h, i + 1);
      }
    }
  }

  lemma ShiftNothing(g: nat)
    ensures Shift([], g) == []
  {
  }

  lemma ShiftFirst(m: Span, rest: seq<Span>, g: nat)
    ensures Shift([m] + rest, g) == [Span(g + m.start, g + m.end)] + Shift(rest, g)
  {
    assert ([m] + rest)[1..] == rest;
  }

  /** `finditer` over the text of a group finds, at an offset, what lies in the group. */
  lemma FindInGroup(nd: Digits, p: Pattern, s: string, g: nat, h: nat)
    requires p.IsStrict() && g <= h <= |s| && Bounded(EndsOf(nd, p, s), g, h)
    ensures Shift(FindAll(nd, p, s[g..h]), g) == FindFrom(nd, p, s, g, h)
  {
    hide MatchEnd;
    var part, whole := EndsOf(nd, p, s[g..h]), EndsOf(nd, p, s);
    forall k | 0 <= k < h - g
      ensures part[k] == Clip(whole[g + k], g, h)
    {
      MatchClip(nd, p, s, g, h, k);
    }
    ScanClip(part, whole, g, h, 0);
  }
}

/**
 `count_malformed_geometry`, and the account of an answer's `<box>...</box>` blocks: every closed
 block that is not exactly a None literal is a box, a point, or counted as malformed.
 */
module Accounting {
  import opened Wrappers
  import opened Text
  import opened Lists
  import opened Scanner
  import opened Blocks

  function ClosedBlocks(nd: Digits, s: string): seq<Span> {
    FindAll(nd, AnyBlock, s)
  }

  /** The block as a whole is of the form `p`. */
  predicate IsExactly(nd: Digits, p: Pattern, s: string, b: Span) {
    Matches(nd, p, s, b.start, b.end)
  }

  predicate IsOnContract(nd: Digits, s: string, b: Span) {
    IsExactly(nd, FourCoord, s, b) || IsExactly(nd, TwoCoord, s, b) || IsExactly(nd, NoneLiteral, s, b)
  }

  function Malformed(nd: Digits, s: string): Span -> bool {
    b => !IsOnContract(nd, s, b)
  }

  function Absent(nd: Digits, s: string): Span -> bool {
    b => IsExactly(nd, NoneLiteral, s, b)
  }

  function Present(nd: Digits, s: string): Span -> bool {
    b => !IsExactly(nd, NoneLiteral, s, b)
  }

  /** A malformed block that ends in a valid box or point, as after an unclosed `<box>`. */
  function Doubled(nd: Digits, s: string): Span -> bool {
    b => !IsOnContract(nd, s, b) && b.end <= |s|
         && (Inside(nd, FourCoord, s, b) != [] || Inside(nd, TwoCoord, s, b) != [])
  }

  // ---------- count_malformed_geometry ----------

  method CountMalformed(nd: Digits, answer: string) returns (n: nat)
    ensures n == |Filter(Malformed(nd, answer), ClosedBlocks(nd, answer))|
  {
    hide Scan, MatchEnd, FullMatch;
    n := 0;
    var blocks := FindIter(nd, AnyBlock, answer);
    Found(EndsOf(nd, AnyBlock, answer), 0, |answer|);
    for i := 0 to |blocks|
      invariant n == |Filter(Malformed(nd, answer), blocks[..i])|
    {
      assert blocks[i] in blocks;
      assert blocks[..i + 1] == blocks[..i] + [blocks[i]];
      FilterConcat(Malformed(nd, answer), blocks[..i], [blocks[i]]);
      FullMatchOfBlock(nd, answer, blocks[i]);
      var block := answer[blocks[i].start..blocks[i].end];
      if FullMatch(nd, FourCoord, block) || FullMatch(nd, TwoCoord, block) || FullMatch(nd, NoneLiteral, block) {
        continue;
      }
      n := n + 1;
    }
    assert blocks[..|blocks|] == blocks;
  }

  /** `fullmatch` on the text of a block is a match of the block where it stands. */
  lemma FullMatchOfBlock(nd: Digits, s: string, b: Span)
    requires b.start <= b.end <= |s|
    ensures forall p: Pattern | p.IsStrict() :: FullMatch(nd, p, s[b.start..b.end]) <==> IsExactly(nd, p, s, b)
  {
    hide MatchEnd;
    forall p: Pattern | p.IsStrict()
      ensures FullMatch(nd, p, s[b.start..b.end]) <==> IsExactly(nd, p, s, b)
    {
      MatchClip(nd, p, s, b.start, b.end, 0);
    }
  }

  // ---------- the account ----------

  lemma BlocksAreBlocks(nd: Digits, s: string)
    ensures AreBlocks(s, ClosedBlocks(nd, s))
  {
    hide Scan;
    Found(EndsOf(nd, AnyBlock, s), 0, |s|);
  }

  /** A block that is exactly of a form holds that one match and no match of another form. */
  lemma ExactBlock(nd: Digits, p: Pattern, q: Pattern, s: string, b: Span)
    requires p.IsStrict() && q.IsStrict() && b.end <= |s| && IsExactly(nd, p, s, b)
    ensures Inside(nd, q, s, b) == if p == q then [b] else []
  {
    StrictIsAny(nd, p, s, b.start, b.end);
    hide MatchEnd, AnyBlockEnd, Scan;
    var r := Inside(nd, q, s, b);
    InsideBlock(nd, q, s, b);
    FoundNothing(EndsOf(nd, q, s), b.start, b.end);
    assert EndsOf(nd, q, s)[b.start] == MatchEnd(nd, q, s, b.start);
    if r != [] {
      assert r[0] in r;
      StrictApart(nd, p, q, s, b.start, b.end, r[0].start, r[0].end);
    }
  }

  /** One block is accounted for once, or twice if it is doubled. */
  lemma OneBlock(nd: Digits, s: string, b: Span)
    requires b.end <= |s| && AnyBlockEnd(s, b.start) == Some(b.end)
    ensures |Inside(nd, FourCoord, s, b)| + |Inside(nd, TwoCoord, s, b)| + (if Malformed(nd, s)(b) then 1 else 0)
         == (if Present(nd, s)(b) then 1 else 0) + (if Doubled(nd, s)(b) then 1 else 0)
  {
    hide MatchEnd, AnyBlockEnd, Scan, Inside;
    if IsExactly(nd, FourCoord, s, b) {
      ExactBlock(nd, FourCoord, TwoCoord, s, b);
      ExactBlock(nd, FourCoord, FourCoord, s, b);
      NoneElse(nd, FourCoord, s, b);
    } else if IsExactly(nd, TwoCoord, s, b) {
      ExactBlock(nd, TwoCoord, TwoCoord, s, b);
      ExactBlock(nd, TwoCoord, FourCoord, s, b);
      NoneElse(nd, TwoCoord, s, b);
    } else if IsExactly(nd, NoneLiteral, s, b) {
      ExactBlock(nd, NoneLiteral, FourCoord, s, b);
      ExactBlock(nd, NoneLiteral, TwoCoord, s, b);
    } else {
      NotBoth(nd, s, b);
    }
  }

  lemma NoneElse(nd: Digits, p: Pattern, s: string, b: Span)
    requires (p == FourCoord || p == TwoCoord) && IsExactly(nd, p, s, b)
    ensures !IsExactly(nd, NoneLiteral, s, b)
  {
    hide MatchEnd;
    if MatchEnd(nd, NoneLiteral, s, b.start).Some? {
      OneForm(nd, p, NoneLiteral, s, b.start);
    }
  }

  lemma NotBoth(nd: Digits, s: string, b: Span)
    requires b.end <= |s| && AnyBlockEnd(s, b.start) == Some(b.end)
    ensures |Inside(nd, FourCoord, s, b)| + |Inside(nd, TwoCoord, s, b)| <= 1
  {
    hide MatchEnd, AnyBlockEnd, Scan;
    var four, two := Inside(nd, FourCoord, s, b), Inside(nd, TwoCoord, s, b);
    InsideBlock(nd, FourCoord, s, b);
    InsideBlock(nd, TwoCoord, s, b);
    if four != [] && two != [] {
      assert four[0] in four && two[0] in two;
      StrictApart(nd, FourCoord, TwoCoord, s, four[0].start, four[0].end, two[0].start, two[0].end);
    }
  }

  lemma {:induction false} EachBlock(nd: Digits, s: string, bs: seq<Span>)
    requires AreBlocks(s, bs)
    ensures |InsideEach(nd, FourCoord, s, bs)| + |InsideEach(nd, TwoCoord, s, bs)| + |Filter(Malformed(nd, s), bs)|
         == |Filter(Present(nd, s), bs)| + |Filter(Doubled(nd, s), bs)|
  {
    hide AnyBlockEnd, Inside, Malformed, Present, Doubled;
    if bs != [] {
      assert bs[0] in bs;
      OneBlock(nd, s, bs[0]);
      EachBlock(nd, s, bs[1..]);
    }
  }

  /**
   Main result: boxes, points and malformed blocks together are the closed blocks that are not
   exactly a None literal, and the doubled blocks once more.
   */
  lemma Account(nd: Digits, s: string)
    ensures |FindAll(nd, FourCoord, s)| + |FindAll(nd, TwoCoord, s)| + |Filter(Malformed(nd, s), ClosedBlocks(nd, s))|
         == |Filter(Present(nd, s), ClosedBlocks(nd, s))| + |Filter(Doubled(nd, s), ClosedBlocks(nd, s))|
    ensures |Filter(Doubled(nd, s), ClosedBlocks(nd, s))| <= |Filter(Malformed(nd, s), ClosedBlocks(nd, s))|
  {
    hide AnyBlockEnd, Inside, Scan, IsOnContract;
    var bs := ClosedBlocks(nd, s);
    BlocksAreBlocks(nd, s);
    StrictByBlocks(nd, FourCoord, s, 0);
    StrictByBlocks(nd, TwoCoord, s, 0);
    EachBlock(nd, s, bs);
    FewerKept(Doubled(nd, s), Malformed(nd, s), bs);
  }

  lemma {:induction false} FewerKept<T>(fewer: T -> bool, more: T -> bool, xs: seq<T>)
    requires forall x | x in xs && fewer(x) :: more(x)
    ensures |Filter(fewer, xs)| <= |Filter(more, xs)|
  {
    if xs != [] {
      assert xs[0] in xs && (fewer(xs[0]) ==> more(xs[0]));
      FewerKept(fewer, more, xs[1..]);
    }
  }

  /** Main result: each strict match is the tail of exactly one block, and overlaps no other block. */
  lemma TailOfOneBlock(nd: Digits, p: Pattern, s: string, m: Span)
    requires p.IsStrict() && m in FindAll(nd, p, s)
    ensures exists b | b in ClosedBlocks(nd, s) :: b.start <= m.start && b.end == m.end
    ensures forall b | b in ClosedBlocks(nd, s) && b.start < m.end && m.start < b.end ::
      b.start <= m.start && b.end == m.end
    ensures forall a, b | a in ClosedBlocks(nd, s) && b in ClosedBlocks(nd, s) :: Touch(a, m) && Touch(b, m) ==> a == b
  {
    hide AnyBlockEnd, Scan, MatchEnd;
    Found(EndsOf(nd, AnyBlock, s), 0, |s|);
    StrictByBlocks(nd, p, s, 0);
    BlocksAreBlocks(nd, s);
    Found(EndsOf(nd, p, s), 0, |s|);
    StrictIsAny(nd, p, s, m.start, m.end);
    InSomeBlock(nd, p, s, ClosedBlocks(nd, s), m);
    forall b | b in ClosedBlocks(nd, s) && b.start < m.end && m.start < b.end
      ensures b.start <= m.start && b.end == m.end
    {
      NoOpenInside(nd, p, s, m.start, m.end);
      BlockOpens(s, b.start, b.end);
      SameEnd(s, b.start, b.end, m.start, m.end);
    }
    forall a, b | a in ClosedBlocks(nd, s) && b in ClosedBlocks(nd, s) && Touch(a, m) && Touch(b, m)
      ensures a == b
    {
      EndsDiffer(ClosedBlocks(nd, s), 0, a, b);
    }
  }

  predicate Touch(b: Span, m: Span) {
    b.start < m.end && m.start < b.end
  }

  lemma BlockOpens(s: string, x: nat, e: nat)
    requires AnyBlockEnd(s, x) == Some(e)
    ensures OpenBox(s, x)
  {
  }

  lemma {:induction false} InSomeBlock(nd: Digits, p: Pattern, s: string, bs: seq<Span>, m: Span)
    requires p.IsStrict() && AreBlocks(s, bs) && m in InsideEach(nd, p, s, bs)
    ensures exists b | b in bs :: b.start <= m.start && b.end == m.end
  {
    hide AnyBlockEnd, Scan, MatchEnd, Inside;
    assert bs[0] in bs;
    if m in Inside(nd, p, s, bs[0]) {
      InsideBlock(nd, p, s, bs[0]);
    } else {
      InSomeBlock(nd, p, s, bs[1..], m);
      var b :| b in bs[1..] && b.start <= m.start && b.end == m.end;
      assert b in bs;
    }
  }

  /** No box, no point and no malformed block: exactly when every closed block is a None literal. */
  lemma NothingPresent(nd: Digits, s: string)
    ensures FindAll(nd, FourCoord, s) == [] && FindAll(nd, TwoCoord, s) == []
            && Filter(Malformed(nd, s), ClosedBlocks(nd, s)) == []
       <==> forall b | b in ClosedBlocks(nd, s) :: IsExactly(nd, NoneLiteral, s, b)
  {
    hide Scan, MatchEnd, IsOnContract, Doubled;
    var bs := ClosedBlocks(nd, s);
    Account(nd, s);
    FilterMembers(Present(nd, s), bs);
    if forall b | b in bs :: IsExactly(nd, NoneLiteral, s, b) {
      FilterNone(Present(nd, s), bs);
      NoneIsNotMalformed(nd, s);
      FilterNone(Malformed(nd, s), bs);
    } else {
      var b :| b in bs && !IsExactly(nd, NoneLiteral, s, b);
      assert b in Filter(Present(nd, s), bs);
    }
  }

  lemma NoneIsNotMalformed(nd: Digits, s: string)
    ensures forall b :: Absent(nd, s)(b) ==> !Malformed(nd, s)(b)
  {
  }
}

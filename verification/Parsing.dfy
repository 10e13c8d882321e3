/**
 `parse_boxes`, `parse_points` and `count_malformed_geometry`, each proved against what it should
 make of the matches of one pattern: every match is either emitted, once, in order and with the
 label of its run, or counted.
 */
module Parsing {
  import opened Wrappers
  import opened Text
  import opened Lists
  import opened Scanner
  import opened Blocks
  import opened Items
  import opened Coordinates

  function Arity(p: Pattern): nat {
    if p == FourCoord then 4 else 2
  }

  /** A match of a coordinate form, as seen anywhere in a string. */
  predicate IsMatch(nd: Digits, p: Pattern, s: string, m: Span) {
    CoordBlockEnd(nd, s, m.start, Arity(p)) == Some(m.end)
  }

  /** The groups of a match, as text. */
  function Texts(nd: Digits, p: Pattern, s: string, m: Span): (ts: seq<string>)
    requires IsMatch(nd, p, s, m)
    ensures |ts| == Arity(p) && forall t | t in ts :: IsNumeral(nd, t)
  {
    Captured(nd, s, m.start + 5, Arity(p))
  }

  /** `int` raises `ValueError` on a string of more digits than this. */
  const MAX_INT_DIGITS: nat := 4300

  predicate IsReadable(nd: Digits, p: Pattern, s: string, m: Span)
    requires IsMatch(nd, p, s, m)
  {
    forall t | t in Texts(nd, p, s, m) :: |t| <= MAX_INT_DIGITS
  }

  /** The `ValueError` of `int`. */
  datatype ReadError = CoordinateTooLong

  /** The groups of a match, each read as `int` reads it. */
  function Values(nd: Digits, p: Pattern, s: string, m: Span): (cs: seq<nat>)
    requires IsMatch(nd, p, s, m)
    ensures |cs| == Arity(p)
  {
    var ts := Texts(nd, p, s, m);
    seq(Arity(p), k requires 0 <= k < Arity(p) => DecimalValue(nd, ts[k]))
  }

  function ReadBox(nd: Digits, s: string, m: Span, name: string, width: nat, height: nat): Detection
    requires IsMatch(nd, FourCoord, s, m)
  {
    var cs := Values(nd, FourCoord, s, m);
    MakeBox(name, cs[0], cs[1], cs[2], cs[3], width, height)
  }

  function ReadPoint(nd: Digits, s: string, m: Span, name: string, width: nat, height: nat): Point
    requires IsMatch(nd, TwoCoord, s, m)
  {
    var cs := Values(nd, TwoCoord, s, m);
    MakePoint(name, cs[0], cs[1], width, height)
  }

  // ---------- what the answer holds ----------

  /** Every match of a form in the answer, in text order, with its owner. */
  ghost function AnswerItems(nd: Digits, p: Pattern, s: string): (items: seq<Item>)
    ensures |items| == |FindAll(nd, p, s)|
  {
    RunsFound(nd, s, 0);
    ItemsOf(s, FindAll(nd, RefRun, s), FindAll(nd, p, s))
  }

  lemma AnswerItemsAreMatches(nd: Digits, p: Pattern, s: string)
    requires p == FourCoord || p == TwoCoord
    ensures AreItems(nd, p, s, AnswerItems(nd, p, s))
    ensures forall k | 0 <= k < |FindAll(nd, p, s)| :: AnswerItems(nd, p, s)[k].at == FindAll(nd, p, s)[k]
  {
    hide CoordBlockEnd, MatchEnd, Scan;
    RunsFound(nd, s, 0);
    AllFound(nd, p, s);
    var rs, ms := FindAll(nd, RefRun, s), FindAll(nd, p, s);
    forall k | 0 <= k < |ms|
      ensures ItemOf(s, rs, ms[k]).at == ms[k]
    {
      ItemOfBare(s, rs, ms[k]);
    }
  }

  ghost predicate AreItems(nd: Digits, p: Pattern, s: string, items: seq<Item>) {
    forall k | 0 <= k < |items| :: IsMatch(nd, p, s, items[k].at)
  }

  /** No item has a coordinate too long to read. */
  ghost predicate AreReadable(nd: Digits, p: Pattern, s: string, items: seq<Item>)
    requires AreItems(nd, p, s, items)
  {
    forall k | 0 <= k < |items| :: IsReadable(nd, p, s, items[k].at)
  }

  ghost function Boxes(nd: Digits, s: string, items: seq<Item>, width: nat, height: nat): (ds: seq<Detection>)
    requires AreItems(nd, FourCoord, s, items)
    ensures |ds| == |items|
  {
    seq(|items|, k requires 0 <= k < |items| => ReadBox(nd, s, items[k].at, items[k].name, width, height))
  }

  ghost function Points(nd: Digits, s: string, items: seq<Item>, width: nat, height: nat): (ps: seq<Point>)
    requires AreItems(nd, TwoCoord, s, items)
    ensures |ps| == |items|
  {
    seq(|items|, k requires 0 <= k < |items| => ReadPoint(nd, s, items[k].at, items[k].name, width, height))
  }

  /** Bare points labelled with the queried phrase. */
  ghost function Renamed(items: seq<Item>, name: string): (r: seq<Item>)
    ensures |r| == |items|
  {
    seq(|items|, k requires 0 <= k < |items| => items[k].(name := name))
  }

  lemma {:induction false} SelectedAreItems(nd: Digits, p: Pattern, s: string, keep: Item -> bool, items: seq<Item>)
    requires AreItems(nd, p, s, items)
    ensures AreItems(nd, p, s, Filter(keep, items))
  {
    FilterMembers(keep, items);
    var kept := Filter(keep, items);
    forall k | 0 <= k < |kept|
      ensures IsMatch(nd, p, s, kept[k].at)
    {
      assert kept[k] in kept;
    }
  }

  // ---------- one run ----------

  /** The text of a run's blocks: `m.group("boxes")`. */
  function BlocksText(s: string, r: Span): string
    requires IsRun(s, r)
  {
    s[BlocksStart(s, r.start)..r.end]
  }

  lemma GroupSpans(nd: Digits, p: Pattern, s: string, r: Span)
    requires p.IsStrict() && IsRun(s, r)
    ensures var g, ms, items := BlocksStart(s, r.start), FindAll(nd, p, BlocksText(s, r)), RunItems(nd, p, s, r);
      && |ms| == |items|
      && forall k | 0 <= k < |ms| :: items[k] == Item(Span(g + ms[k].start, g + ms[k].end), RunLabel(s, r), false)
  {
    hide CoordBlockEnd, RunBlocksEnd, Scan, MatchEnd;
    var g := BlocksStart(s, r.start);
    RunBounded(nd, p, s, g, r.end);
    FindInGroup(nd, p, s, g, r.end);
    ShiftAt(FindAll(nd, p, BlocksText(s, r)), g);
  }

  /** A match in part of a string reads as it does in the whole. */
  lemma PartRead(nd: Digits, p: Pattern, s: string, g: nat, h: nat, m: Span)
    requires g <= h <= |s| && IsMatch(nd, p, s[g..h], m)
    ensures IsMatch(nd, p, s, Span(g + m.start, g + m.end))
    ensures Texts(nd, p, s[g..h], m) == Texts(nd, p, s, Span(g + m.start, g + m.end))
  {
    hide CoordBlockEnd, Captured;
    CoordBlockReadClip(nd, Arity(p), s, g, h, m.start);
  }

  lemma AllFound(nd: Digits, p: Pattern, s: string)
    requires p == FourCoord || p == TwoCoord
    ensures forall k | 0 <= k < |FindAll(nd, p, s)| :: IsMatch(nd, p, s, FindAll(nd, p, s)[k])
  {
    hide CoordBlockEnd, Scan;
    Found(EndsOf(nd, p, s), 0, |s|);
    var ms := FindAll(nd, p, s);
    forall k | 0 <= k < |ms|
      ensures IsMatch(nd, p, s, ms[k])
    {
      assert ms[k] in ms;
      assert Matches(nd, p, s, ms[k].start, ms[k].end);
    }
  }

  /** What the parser reads from the text of a run's blocks is what stands in the answer. */
  lemma GroupRead(nd: Digits, p: Pattern, s: string, r: Span)
    requires (p == FourCoord || p == TwoCoord) && IsRun(s, r)
    ensures var text, items := BlocksText(s, r), RunItems(nd, p, s, r);
      var ms := FindAll(nd, p, text);
      && |ms| == |items|
      && AreItems(nd, p, s, items)
      && (forall k | 0 <= k < |ms| :: IsMatch(nd, p, text, ms[k]))
      && (forall k | 0 <= k < |ms| :: Texts(nd, p, text, ms[k]) == Texts(nd, p, s, items[k].at))
  {
    hide CoordBlockEnd, Captured, RunBlocksEnd, LabelSpan, Scan, MatchEnd;
    var text, items := BlocksText(s, r), RunItems(nd, p, s, r);
    var ms := FindAll(nd, p, text);
    GroupSpans(nd, p, s, r);
    AllFound(nd, p, text);
    forall k | 0 <= k < |ms|
      ensures IsMatch(nd, p, s, items[k].at) && Texts(nd, p, text, ms[k]) == Texts(nd, p, s, items[k].at)
    {
      PartRead(nd, p, s, BlocksStart(s, r.start), r.end, ms[k]);
    }
  }

  // ---------- parse_boxes ----------

  method ParseBoxes(nd: Digits, answer: string, width: nat, height: nat)
    returns (r: Result<(seq<Detection>, nat), ReadError>)
    ensures var items := AnswerItems(nd, FourCoord, answer);
      && AreItems(nd, FourCoord, answer, Labelled(items))
      && (r.Ok? <==> AreReadable(nd, FourCoord, answer, Labelled(items)))
      && (r.Ok? ==> r.value.0 == Boxes(nd, answer, Labelled(items), width, height))
      && (r.Ok? ==> |r.value.0| + r.value.1 == |items|)
  {
    hide Scan, MatchEnd, ItemOf, RunBlocksEnd, LabelSpan, RunItems, IsReadable, Filter;
    BoxesInRuns(nd, answer, width, height);
    ReadableRuns(nd, FourCoord, answer);
    ghost var items := AnswerItems(nd, FourCoord, answer);
    var runs := FindIter(nd, RefRun, answer);
    var first := BoxesOfRuns(nd, answer, runs, width, height);
    if first.Err? {
      return Err(first.error);
    }
    var (out, offContract, consumed) := first.value;
    var all := FindIter(nd, FourCoord, answer);
    var orphans := CountOrphans(answer, consumed, all);
    FilterCount(OWNED, UNOWNED, items);
    return Ok((out, offContract + orphans));
  }

  /** Pass 1: the boxes of the runs, and how many are in runs without a label. */
  method BoxesOfRuns(nd: Digits, answer: string, runs: seq<Span>, width: nat, height: nat)
    returns (r: Result<(seq<Detection>, nat, seq<Span>), ReadError>)
    requires AreRuns(answer, runs)
    ensures r.Ok? <==> forall run | run in runs :: IsReadableRun(nd, FourCoord, answer, run)
    ensures r.Ok? ==> r.value.0 == Emitted(nd, answer, runs, width, height)
    ensures r.Ok? ==> |r.value.0| + r.value.1 == |RunsItems(nd, FourCoord, answer, runs)|
    ensures r.Ok? ==> r.value.2 == runs
  {
    hide RunBlocksEnd, LabelSpan, RunBoxes, RunItems, IsReadableRun;
    var out, offContract, consumed := [], 0, [];
    for i := 0 to |runs|
      invariant consumed == runs[..i]
      invariant forall run | run in runs[..i] :: IsReadableRun(nd, FourCoord, answer, run)
      invariant Emitted(nd, answer, runs, width, height) == out + Emitted(nd, answer, runs[i..], width, height)
      invariant |RunsItems(nd, FourCoord, answer, runs)|
             == |out| + offContract + |RunsItems(nd, FourCoord, answer, runs[i..])|
    {
      assert runs[i] in runs && runs[i..][0] == runs[i] && runs[i..][1..] == runs[i + 1..];
      assert runs[..i + 1] == runs[..i] + [runs[i]];
      consumed := consumed + [runs[i]];
      var found := BoxesOfRun(nd, answer, runs[i], width, height);
      if found.Err? {
        return Err(found.error);
      }
      out := out + found.value.0;
      offContract := offContract + found.value.1;
    }
    assert runs[..|runs|] == runs;
    return Ok((out, offContract, consumed));
  }

  method BoxesOfRun(nd: Digits, answer: string, run: Span, width: nat, height: nat)
    returns (r: Result<(seq<Detection>, nat), ReadError>)
    requires IsRun(answer, run)
    ensures r.Ok? <==> IsReadableRun(nd, FourCoord, answer, run)
    ensures r.Ok? ==> r.value.0 == RunBoxes(nd, answer, run, width, height)
    ensures r.Ok? ==> |r.value.0| + r.value.1 == |RunItems(nd, FourCoord, answer, run)|
  {
    hide CoordBlockEnd, Texts, RunBlocksEnd, LabelSpan, Scan, MatchEnd, ReadBox, IsReadable;
    GroupRead(nd, FourCoord, answer, run);
    var name := RunLabel(answer, run);
    var text := BlocksText(answer, run);
    var boxesInRun := FindIter(nd, FourCoord, text);
    if name == "" {
      return Ok(([], |boxesInRun|));
    }
    ghost var items := RunItems(nd, FourCoord, answer, run);
    var out := [];
    for j := 0 to |boxesInRun|
      invariant out == RunBoxes(nd, answer, run, width, height)[..j]
      invariant forall k | 0 <= k < j :: IsReadable(nd, FourCoord, answer, items[k].at)
    {
      SameBox(nd, text, boxesInRun[j], answer, items[j].at, name, width, height);
      if !IsReadable(nd, FourCoord, text, boxesInRun[j]) {
        return Err(CoordinateTooLong);
      }
      out := out + [ReadBox(nd, text, boxesInRun[j], name, width, height)];
    }
    return Ok((out, 0));
  }

  lemma SameBox(nd: Digits, s: string, m: Span, t: string, n: Span, name: string, width: nat, height: nat)
    requires IsMatch(nd, FourCoord, s, m) && IsMatch(nd, FourCoord, t, n)
    requires Texts(nd, FourCoord, s, m) == Texts(nd, FourCoord, t, n)
    ensures IsReadable(nd, FourCoord, s, m) <==> IsReadable(nd, FourCoord, t, n)
    ensures ReadBox(nd, s, m, name, width, height) == ReadBox(nd, t, n, name, width, height)
  {
    hide CoordBlockEnd, Texts, MakeBox;
  }

  /** Pass 2: how many matches overlap no run. */
  method CountOrphans(answer: string, consumed: seq<Span>, all: seq<Span>) returns (n: nat)
    requires AreRuns(answer, consumed)
    ensures n == |Bare(ItemsOf(answer, consumed, all))|
  {
    hide ItemOf, RunBlocksEnd, LabelSpan;
    n := 0;
    for i := 0 to |all|
      invariant n == |Bare(ItemsOf(answer, consumed, all[..i]))|
    {
      var item := ItemOf(answer, consumed, all[i]);
      ghost var before := ItemsOf(answer, consumed, all[..i]);
      assert ItemsOf(answer, consumed, all[..i + 1]) == before + [item];
      FilterConcat(UNOWNED, before, [item]);
      ItemOfBare(answer, consumed, all[i]);
      if Touches(all[i], consumed) {
        continue;
      }
      n := n + 1;
    }
    assert all[..|all|] == all;
  }

  /** What is read of a run, which is nothing if its label is empty, can be read. */
  ghost predicate IsReadableRun(nd: Digits, p: Pattern, s: string, r: Span)
    requires (p == FourCoord || p == TwoCoord) && IsRun(s, r)
  {
    GroupRead(nd, p, s, r);
    RunLabel(s, r) == "" || AreReadable(nd, p, s, RunItems(nd, p, s, r))
  }

  lemma ReadableConcat(nd: Digits, p: Pattern, s: string, a: seq<Item>, b: seq<Item>)
    requires AreItems(nd, p, s, a) && AreItems(nd, p, s, b)
    ensures AreItems(nd, p, s, a + b)
    ensures AreReadable(nd, p, s, a + b) <==> AreReadable(nd, p, s, a) && AreReadable(nd, p, s, b)
  {
    hide CoordBlockEnd, IsReadable;
    if AreReadable(nd, p, s, a + b) {
      assert forall k | 0 <= k < |a| :: (a + b)[k] == a[k];
      assert forall k | 0 <= k < |b| :: (a + b)[|a| + k] == b[k];
    }
  }

  /** The labelled items can be read exactly when every run can. */
  lemma {:induction false} LabelledReadable(nd: Digits, p: Pattern, s: string, rs: seq<Span>)
    requires (p == FourCoord || p == TwoCoord) && AreRuns(s, rs)
    ensures var items := Labelled(RunsItems(nd, p, s, rs));
      && AreItems(nd, p, s, items)
      && (AreReadable(nd, p, s, items) <==> forall r | r in rs :: IsReadableRun(nd, p, s, r))
  {
    hide CoordBlockEnd, IsReadable, RunBlocksEnd, LabelSpan, Filter;
    if rs == [] {
      FilterNone(ON_CONTRACT, []);
    } else {
      var first, rest := RunItems(nd, p, s, rs[0]), RunsItems(nd, p, s, rs[1..]);
      GroupRead(nd, p, s, rs[0]);
      LabelledReadable(nd, p, s, rs[1..]);
      FilterConcat(ON_CONTRACT, first, rest);
      if RunLabel(s, rs[0]) == "" {
        FilterNone(ON_CONTRACT, first);
      } else {
        FilterAll(ON_CONTRACT, first);
      }
      ReadableConcat(nd, p, s, Labelled(first), Labelled(rest));
      assert rs == [rs[0]] + rs[1..];
    }
  }

  lemma ReadableRuns(nd: Digits, p: Pattern, s: string)
    requires p == FourCoord || p == TwoCoord
    ensures AreRuns(s, FindAll(nd, RefRun, s))
    ensures var items := Labelled(AnswerItems(nd, p, s));
      && AreItems(nd, p, s, items)
      && (AreReadable(nd, p, s, items)
          <==> forall r | r in FindAll(nd, RefRun, s) :: IsReadableRun(nd, p, s, r))
  {
    hide Scan, MatchEnd, RunBlocksEnd, LabelSpan, RunItems, ItemsOf, Filter, IsReadableRun, CoordBlockEnd, IsReadable;
    RunsFound(nd, s, 0);
    ItemsByRun(nd, p, s, 0);
    LabelledReadable(nd, p, s, FindAll(nd, RefRun, s));
    LabelledInRuns(nd, p, s);
  }

  /** The boxes of one run with its label; none if the label is empty. */
  ghost function RunBoxes(nd: Digits, s: string, r: Span, width: nat, height: nat): seq<Detection>
    requires IsRun(s, r)
  {
    GroupRead(nd, FourCoord, s, r);
    if RunLabel(s, r) == "" then [] else Boxes(nd, s, RunItems(nd, FourCoord, s, r), width, height)
  }

  ghost function Emitted(nd: Digits, s: string, rs: seq<Span>, width: nat, height: nat): seq<Detection>
    requires AreRuns(s, rs)
  {
    if rs == [] then [] else RunBoxes(nd, s, rs[0], width, height) + Emitted(nd, s, rs[1..], width, height)
  }

  lemma BoxesConcat(nd: Digits, s: string, a: seq<Item>, b: seq<Item>, width: nat, height: nat)
    requires AreItems(nd, FourCoord, s, a) && AreItems(nd, FourCoord, s, b)
    ensures AreItems(nd, FourCoord, s, a + b)
    ensures Boxes(nd, s, a + b, width, height) == Boxes(nd, s, a, width, height) + Boxes(nd, s, b, width, height)
  {
  }

  lemma {:induction false} EmittedIsLabelled(nd: Digits, s: string, rs: seq<Span>, width: nat, height: nat)
    requires AreRuns(s, rs)
    ensures AreItems(nd, FourCoord, s, Labelled(RunsItems(nd, FourCoord, s, rs)))
    ensures Emitted(nd, s, rs, width, height)
         == Boxes(nd, s, Labelled(RunsItems(nd, FourCoord, s, rs)), width, height)
  {
    if rs != [] {
      var first, rest := RunItems(nd, FourCoord, s, rs[0]), RunsItems(nd, FourCoord, s, rs[1..]);
      GroupRead(nd, FourCoord, s, rs[0]);
      EmittedIsLabelled(nd, s, rs[1..], width, height);
      FilterConcat(ON_CONTRACT, first, rest);
      if RunLabel(s, rs[0]) == "" {
        FilterNone(ON_CONTRACT, first);
      } else {
        FilterAll(ON_CONTRACT, first);
      }
      BoxesConcat(nd, s, Labelled(first), Labelled(rest), width, height);
    }
  }

  lemma BoxesInRuns(nd: Digits, s: string, width: nat, height: nat)
    ensures AreRuns(s, FindAll(nd, RefRun, s))
    ensures var items, rs := AnswerItems(nd, FourCoord, s), FindAll(nd, RefRun, s);
      && InRuns(items) == RunsItems(nd, FourCoord, s, rs)
      && AreItems(nd, FourCoord, s, Labelled(items))
      && Emitted(nd, s, rs, width, height) == Boxes(nd, s, Labelled(items), width, height)
  {
    hide Scan, MatchEnd, RunBlocksEnd, LabelSpan, RunItems, ItemsOf, Filter;
    var items, rs := AnswerItems(nd, FourCoord, s), FindAll(nd, RefRun, s);
    RunsFound(nd, s, 0);
    ItemsByRun(nd, FourCoord, s, 0);
    EmittedIsLabelled(nd, s, rs, width, height);
    LabelledInRuns(nd, FourCoord, s);
  }

  /** A label only ever comes from a run, so what is labelled is found among the items in runs. */
  lemma LabelledInRuns(nd: Digits, p: Pattern, s: string)
    requires p == FourCoord || p == TwoCoord
    ensures Labelled(InRuns(AnswerItems(nd, p, s))) == Labelled(AnswerItems(nd, p, s))
  {
    var rs, ms := FindAll(nd, RefRun, s), FindAll(nd, p, s);
    RunsFound(nd, s, 0);
    forall i | i in AnswerItems(nd, p, s) && ON_CONTRACT(i)
      ensures OWNED(i)
    {
      var k :| 0 <= k < |ms| && i == ItemOf(s, rs, ms[k]);
      ItemOfBare(s, rs, ms[k]);
    }
    FilterFilter(ON_CONTRACT, OWNED, AnswerItems(nd, p, s));
  }

  // ---------- parse_points ----------

  method ParsePoints(nd: Digits, answer: string, width: nat, height: nat, phrase: Option<string>)
    returns (r: Result<(seq<Point>, nat), ReadError>)
    ensures AreItems(nd, TwoCoord, answer, PointItems(nd, answer, phrase))
    ensures r.Ok? <==> AreReadable(nd, TwoCoord, answer, PointItems(nd, answer, phrase))
    ensures r.Ok? ==> r.value.0 == Points(nd, answer, PointItems(nd, answer, phrase), width, height)
    ensures r.Ok? ==> |r.value.0| + r.value.1 == |AnswerItems(nd, TwoCoord, answer)|
  {
    hide Scan, MatchEnd, ItemOf, RunBlocksEnd, LabelSpan, RunItems, Filter, CoordBlockEnd, Captured, MakePoint;
    hide IsReadable, AreReadable;
    ghost var items := AnswerItems(nd, TwoCoord, answer);
    PointsInRuns(nd, answer, width, height);
    ReadableRuns(nd, TwoCoord, answer);
    PointItemsAreMatches(nd, answer, phrase);
    ReadablePoints(nd, answer, phrase);
    FilterCount(OWNED, UNOWNED, items);
    var boxSpans := FindIter(nd, FourCoord, answer);
    var runs := FindIter(nd, RefRun, answer);
    var first := PointsOfRuns(nd, answer, runs, boxSpans, width, height);
    if first.Err? {
      return Err(first.error);
    }
    var (out, offContract, consumed) := first.value;
    var all := FindIter(nd, TwoCoord, answer);
    var bare := BareSpans(nd, answer, all, boxSpans, consumed);
    if phrase.Some? && phrase.value != "" {
      var named := NamePoints(nd, answer, Bare(items), bare, phrase.value, width, height);
      if named.Err? {
        return Err(named.error);
      }
      PointsConcat(nd, answer, Labelled(items), Renamed(Bare(items), phrase.value), width, height);
      return Ok((out + named.value, offContract));
    }
    return Ok((out, offContract + |bare|));
  }

  /** What is read of the answer is its labelled points, and the bare ones if there is a phrase. */
  lemma ReadablePoints(nd: Digits, s: string, phrase: Option<string>)
    ensures AreItems(nd, TwoCoord, s, PointItems(nd, s, phrase))
    ensures AreItems(nd, TwoCoord, s, Labelled(AnswerItems(nd, TwoCoord, s)))
    ensures AreItems(nd, TwoCoord, s, Bare(AnswerItems(nd, TwoCoord, s)))
    ensures AreReadable(nd, TwoCoord, s, PointItems(nd, s, phrase))
       <==> AreReadable(nd, TwoCoord, s, Labelled(AnswerItems(nd, TwoCoord, s)))
            && (phrase.Some? && phrase.value != "" ==> AreReadable(nd, TwoCoord, s, Bare(AnswerItems(nd, TwoCoord, s))))
  {
    hide Filter, IsReadable, CoordBlockEnd, AnswerItems;
    var items := AnswerItems(nd, TwoCoord, s);
    PointItemsAreMatches(nd, s, phrase);
    AnswerItemsAreMatches(nd, TwoCoord, s);
    SelectedAreItems(nd, TwoCoord, s, ON_CONTRACT, items);
    if phrase.Some? && phrase.value != "" {
      var bare, named := Bare(items), Renamed(Bare(items), phrase.value);
      ReadableConcat(nd, TwoCoord, s, Labelled(items), named);
      assert forall k | 0 <= k < |bare| :: named[k].at == bare[k].at;
    } else {
      assert PointItems(nd, s, phrase) == Labelled(items) + [] == Labelled(items);
    }
  }

  method NamePoints(
    nd: Digits, answer: string, ghost items: seq<Item>, bare: seq<Span>, name: string, width: nat, height: nat
  )
    returns (r: Result<seq<Point>, ReadError>)
    requires AreItems(nd, TwoCoord, answer, items) && bare == SpansOf(items)
    ensures AreItems(nd, TwoCoord, answer, Renamed(items, name))
    ensures r.Ok? <==> AreReadable(nd, TwoCoord, answer, items)
    ensures r.Ok? ==> r.value == Points(nd, answer, Renamed(items, name), width, height)
  {
    hide CoordBlockEnd, ReadPoint, IsReadable;
    var out := [];
    for i := 0 to |bare|
      invariant out == Points(nd, answer, Renamed(items, name), width, height)[..i]
      invariant forall k | 0 <= k < i :: IsReadable(nd, TwoCoord, answer, items[k].at)
    {
      assert bare[i] == items[i].at;
      if !IsReadable(nd, TwoCoord, answer, bare[i]) {
        return Err(CoordinateTooLong);
      }
      out := out + [ReadPoint(nd, answer, bare[i], name, width, height)];
    }
    return Ok(out);
  }

  /** What `parse_points` emits: the labelled points of the runs, then the bare ones under the queried phrase. */
  ghost function PointItems(nd: Digits, s: string, phrase: Option<string>): seq<Item> {
    var items := AnswerItems(nd, TwoCoord, s);
    Labelled(items) + if phrase.Some? && phrase.value != "" then Renamed(Bare(items), phrase.value) else []
  }

  lemma PointItemsAreMatches(nd: Digits, s: string, phrase: Option<string>)
    ensures AreItems(nd, TwoCoord, s, PointItems(nd, s, phrase))
    ensures AreItems(nd, TwoCoord, s, Bare(AnswerItems(nd, TwoCoord, s)))
  {
    hide MatchEnd, CoordBlockEnd, Scan, Filter;
    var items := AnswerItems(nd, TwoCoord, s);
    AnswerItemsAreMatches(nd, TwoCoord, s);
    SelectedAreItems(nd, TwoCoord, s, ON_CONTRACT, items);
    SelectedAreItems(nd, TwoCoord, s, UNOWNED, items);
  }

  ghost function SpansOf(items: seq<Item>): seq<Span> {
    seq(|items|, k requires 0 <= k < |items| => items[k].at)
  }

  lemma SpansConcat(a: seq<Item>, b: seq<Item>)
    ensures |SpansOf(a)| == |a| && SpansOf(a + b) == SpansOf(a) + SpansOf(b)
  {
  }

  /** Pass 1: the points of the runs, how many are in runs without a label, and where they stand. */
  method PointsOfRuns(nd: Digits, answer: string, runs: seq<Span>, boxSpans: seq<Span>, width: nat, height: nat)
    returns (r: Result<(seq<Point>, nat, seq<Span>), ReadError>)
    requires AreRuns(answer, runs) && boxSpans == FindAll(nd, FourCoord, answer)
    ensures r.Ok? <==> forall run | run in runs :: IsReadableRun(nd, TwoCoord, answer, run)
    ensures r.Ok? ==> r.value.0 == EmittedPoints(nd, answer, runs, width, height)
    ensures r.Ok? ==> |r.value.0| + r.value.1 == |RunsItems(nd, TwoCoord, answer, runs)|
    ensures r.Ok? ==> r.value.2 == SpansOf(RunsItems(nd, TwoCoord, answer, runs))
  {
    hide RunBlocksEnd, LabelSpan, RunPoints, RunItems, Scan, MatchEnd, SpansOf, IsReadableRun;
    var out, offContract, consumed := [], 0, [];
    SpansConcat([], []);
    for i := 0 to |runs|
      invariant forall run | run in runs[..i] :: IsReadableRun(nd, TwoCoord, answer, run)
      invariant EmittedPoints(nd, answer, runs, width, height)
             == out + EmittedPoints(nd, answer, runs[i..], width, height)
      invariant |RunsItems(nd, TwoCoord, answer, runs)|
             == |out| + offContract + |RunsItems(nd, TwoCoord, answer, runs[i..])|
      invariant SpansOf(RunsItems(nd, TwoCoord, answer, runs))
             == consumed + SpansOf(RunsItems(nd, TwoCoord, answer, runs[i..]))
    {
      assert runs[i] in runs && runs[i..][0] == runs[i] && runs[i..][1..] == runs[i + 1..];
      assert runs[..i + 1] == runs[..i] + [runs[i]];
      SpansConcat(RunItems(nd, TwoCoord, answer, runs[i]), RunsItems(nd, TwoCoord, answer, runs[i + 1..]));
      var found := PointsOfRun(nd, answer, runs[i], boxSpans, width, height);
      if found.Err? {
        return Err(found.error);
      }
      out := out + found.value.0;
      offContract := offContract + found.value.1;
      consumed := consumed + found.value.2;
    }
    assert runs[..|runs|] == runs;
    return Ok((out, offContract, consumed));
  }

  method PointsOfRun(nd: Digits, answer: string, run: Span, boxSpans: seq<Span>, width: nat, height: nat)
    returns (r: Result<(seq<Point>, nat, seq<Span>), ReadError>)
    requires IsRun(answer, run) && boxSpans == FindAll(nd, FourCoord, answer)
    ensures r.Ok? <==> IsReadableRun(nd, TwoCoord, answer, run)
    ensures r.Ok? ==> r.value.0 == RunPoints(nd, answer, run, width, height)
    ensures r.Ok? ==> |r.value.0| + r.value.1 == |RunItems(nd, TwoCoord, answer, run)|
    ensures r.Ok? ==> r.value.2 == SpansOf(RunItems(nd, TwoCoord, answer, run))
  {
    hide CoordBlockEnd, Texts, RunBlocksEnd, LabelSpan, Scan, MatchEnd, ReadPoint, Touches, IsReadable;
    hide RunItems, Points, SpansOf;
    RunSizes(nd, answer, run, width, height);
    var name := RunLabel(answer, run);
    var text, offset := BlocksText(answer, run), BlocksStart(answer, run.start);
    var pointsInRun := FindIter(nd, TwoCoord, text);
    ghost var items := RunItems(nd, TwoCoord, answer, run);
    var out, offContract, consumed := [], 0, [];
    for j := 0 to |pointsInRun|
      invariant consumed == SpansOf(items)[..j]
      invariant name != "" ==> forall k | 0 <= k < j :: IsReadable(nd, TwoCoord, answer, items[k].at)
      invariant if name == "" then out == [] && offContract == j
                else offContract == 0 && out == RunPoints(nd, answer, run, width, height)[..j]
    {
      var at := Span(offset + pointsInRun[j].start, offset + pointsInRun[j].end);
      PointOfRun(nd, answer, run, j, width, height);
      NoBoxThere(nd, answer, at);
      if !Touches(at, boxSpans) {
        consumed := consumed + [at];
        if name == "" {
          offContract := offContract + 1;
          continue;
        }
        if !IsReadable(nd, TwoCoord, text, pointsInRun[j]) {
          return Err(CoordinateTooLong);
        }
        out := out + [ReadPoint(nd, text, pointsInRun[j], name, width, height)];
      }
    }
    return Ok((out, offContract, consumed));
  }

  lemma RunSizes(nd: Digits, s: string, r: Span, width: nat, height: nat)
    requires IsRun(s, r)
    ensures var items := RunItems(nd, TwoCoord, s, r);
      && AreItems(nd, TwoCoord, s, items)
      && |FindAll(nd, TwoCoord, BlocksText(s, r))| == |items| == |SpansOf(items)|
      && |RunPoints(nd, s, r, width, height)| == if RunLabel(s, r) == "" then 0 else |items|
  {
    hide CoordBlockEnd, Texts, RunBlocksEnd, LabelSpan, Scan, MatchEnd, ReadPoint;
    GroupRead(nd, TwoCoord, s, r);
  }

  /** A point as read from the text of its run, and as it stands in the answer. */
  lemma PointOfRun(nd: Digits, s: string, r: Span, j: nat, width: nat, height: nat)
    requires IsRun(s, r) && j < |FindAll(nd, TwoCoord, BlocksText(s, r))|
    ensures var text, g, name := BlocksText(s, r), BlocksStart(s, r.start), RunLabel(s, r);
      var m, items := FindAll(nd, TwoCoord, text)[j], RunItems(nd, TwoCoord, s, r);
      && |items| == |SpansOf(items)| == |FindAll(nd, TwoCoord, text)|
      && SpansOf(items)[j] == items[j].at == Span(g + m.start, g + m.end)
      && IsMatch(nd, TwoCoord, text, m) && IsMatch(nd, TwoCoord, s, items[j].at)
      && (IsReadable(nd, TwoCoord, text, m) <==> IsReadable(nd, TwoCoord, s, items[j].at))
      && (name != "" ==>
            && |RunPoints(nd, s, r, width, height)| == |items|
            && RunPoints(nd, s, r, width, height)[j] == ReadPoint(nd, text, m, name, width, height))
  {
    hide CoordBlockEnd, Texts, RunBlocksEnd, LabelSpan, Scan, MatchEnd, ReadPoint, IsReadable;
    GroupRead(nd, TwoCoord, s, r);
    GroupSpans(nd, TwoCoord, s, r);
    var text, items := BlocksText(s, r), RunItems(nd, TwoCoord, s, r);
    SamePoint(nd, text, FindAll(nd, TwoCoord, text)[j], s, items[j].at, RunLabel(s, r), width, height);
  }

  lemma SamePoint(nd: Digits, s: string, m: Span, t: string, n: Span, name: string, width: nat, height: nat)
    requires IsMatch(nd, TwoCoord, s, m) && IsMatch(nd, TwoCoord, t, n)
    requires Texts(nd, TwoCoord, s, m) == Texts(nd, TwoCoord, t, n)
    ensures IsReadable(nd, TwoCoord, s, m) <==> IsReadable(nd, TwoCoord, t, n)
    ensures ReadPoint(nd, s, m, name, width, height) == ReadPoint(nd, t, n, name, width, height)
  {
  }

  /** Pass 2: the points that stand in no run. */
  method BareSpans(nd: Digits, answer: string, all: seq<Span>, boxSpans: seq<Span>, consumed: seq<Span>)
    returns (bare: seq<Span>)
    requires all == FindAll(nd, TwoCoord, answer) && boxSpans == FindAll(nd, FourCoord, answer)
    requires consumed == SpansOf(InRuns(AnswerItems(nd, TwoCoord, answer)))
    ensures bare == SpansOf(Bare(AnswerItems(nd, TwoCoord, answer)))
  {
    hide Scan, MatchEnd, ItemOf, CoordBlockEnd;
    ghost var items := AnswerItems(nd, TwoCoord, answer);
    AnswerItemsAreMatches(nd, TwoCoord, answer);
    bare := [];
    for i := 0 to |all|
      invariant bare == SpansOf(Bare(items[..i]))
    {
      NoBoxThere(nd, answer, all[i]);
      assert items[..i + 1] == items[..i] + [items[i]];
      FilterConcat(UNOWNED, items[..i], [items[i]]);
      ConsumedIsOwned(nd, answer, i);
      if !Touches(all[i], boxSpans) && !Touches(all[i], consumed) {
        bare := bare + [all[i]];
      }
    }
    assert items[..|all|] == items;
  }

  /** The skip of points that overlap a box never fires. */
  lemma NoBoxThere(nd: Digits, s: string, m: Span)
    requires IsMatch(nd, TwoCoord, s, m)
    ensures !Touches(m, FindAll(nd, FourCoord, s))
  {
    hide Scan, CoordBlockEnd;
    Found(EndsOf(nd, FourCoord, s), 0, |s|);
    forall b | b in FindAll(nd, FourCoord, s) && Overlaps(m, b)
      ensures false
    {
      assert Matches(nd, FourCoord, s, b.start, b.end) && Matches(nd, TwoCoord, s, m.start, m.end);
      StrictApart(nd, FourCoord, TwoCoord, s, b.start, b.end, m.start, m.end);
    }
  }

  /** Overlap with a point already read in pass 1 is the same as standing in a run. */
  lemma ConsumedIsOwned(nd: Digits, s: string, k: nat)
    requires k < |FindAll(nd, TwoCoord, s)|
    ensures var items := AnswerItems(nd, TwoCoord, s); Touches(items[k].at, SpansOf(InRuns(items))) <==> !items[k].bare
  {
    hide Scan, CoordBlockEnd, Filter, ItemOf;
    var items := AnswerItems(nd, TwoCoord, s);
    var owned := InRuns(items);
    AnswerItemsAreMatches(nd, TwoCoord, s);
    FilterMembers(OWNED, items);
    assert items[k] in items;
    var m := items[k].at;
    assert IsMatch(nd, TwoCoord, s, m) && Overlaps(m, m);
    if OWNED(items[k]) {
      var i :| 0 <= i < |owned| && owned[i] == items[k];
      assert SpansOf(owned)[i] == m;
    }
    if Touches(m, SpansOf(owned)) {
      var c :| c in SpansOf(owned) && Overlaps(m, c);
      var i :| 0 <= i < |owned| && SpansOf(owned)[i] == c;
      assert owned[i] in owned;
      var j :| 0 <= j < |items| && items[j] == owned[i];
      assert Matches(nd, TwoCoord, s, m.start, m.end) && Matches(nd, TwoCoord, s, c.start, c.end);
      StrictApart(nd, TwoCoord, TwoCoord, s, m.start, m.end, c.start, c.end);
      assert OWNED(items[j]) && items[j] == items[k];
    }
  }

  /** The points of one run with its label; none if the label is empty. */
  ghost function RunPoints(nd: Digits, s: string, r: Span, width: nat, height: nat): seq<Point>
    requires IsRun(s, r)
  {
    GroupRead(nd, TwoCoord, s, r);
    if RunLabel(s, r) == "" then [] else Points(nd, s, RunItems(nd, TwoCoord, s, r), width, height)
  }

  ghost function EmittedPoints(nd: Digits, s: string, rs: seq<Span>, width: nat, height: nat): seq<Point>
    requires AreRuns(s, rs)
  {
    if rs == [] then [] else RunPoints(nd, s, rs[0], width, height) + EmittedPoints(nd, s, rs[1..], width, height)
  }

  lemma PointsConcat(nd: Digits, s: string, a: seq<Item>, b: seq<Item>, width: nat, height: nat)
    requires AreItems(nd, TwoCoord, s, a) && AreItems(nd, TwoCoord, s, b)
    ensures AreItems(nd, TwoCoord, s, a + b)
    ensures Points(nd, s, a + b, width, height) == Points(nd, s, a, width, height) + Points(nd, s, b, width, height)
  {
    hide CoordBlockEnd, ReadPoint;
  }

  lemma {:induction false} PointsAreLabelled(nd: Digits, s: string, rs: seq<Span>, width: nat, height: nat)
    requires AreRuns(s, rs)
    ensures AreItems(nd, TwoCoord, s, Labelled(RunsItems(nd, TwoCoord, s, rs)))
    ensures EmittedPoints(nd, s, rs, width, height)
         == Points(nd, s, Labelled(RunsItems(nd, TwoCoord, s, rs)), width, height)
  {
    hide CoordBlockEnd, ReadPoint, RunBlocksEnd, LabelSpan, Filter;
    if rs == [] {
      FilterNone(ON_CONTRACT, []);
    } else {
      var first, rest := RunItems(nd, TwoCoord, s, rs[0]), RunsItems(nd, TwoCoord, s, rs[1..]);
      GroupRead(nd, TwoCoord, s, rs[0]);
      PointsAreLabelled(nd, s, rs[1..], width, height);
      FilterConcat(ON_CONTRACT, first, rest);
      if RunLabel(s, rs[0]) == "" {
        FilterNone(ON_CONTRACT, first);
      } else {
        FilterAll(ON_CONTRACT, first);
      }
      PointsConcat(nd, s, Labelled(first), Labelled(rest), width, height);
    }
  }

  lemma PointsInRuns(nd: Digits, s: string, width: nat, height: nat)
    ensures AreRuns(s, FindAll(nd, RefRun, s))
    ensures var items, rs := AnswerItems(nd, TwoCoord, s), FindAll(nd, RefRun, s);
      && InRuns(items) == RunsItems(nd, TwoCoord, s, rs)
      && AreItems(nd, TwoCoord, s, Labelled(items))
      && EmittedPoints(nd, s, rs, width, height) == Points(nd, s, Labelled(items), width, height)
  {
    hide Scan, MatchEnd, RunBlocksEnd, LabelSpan, RunItems, ItemsOf, Filter;
    var items, rs := AnswerItems(nd, TwoCoord, s), FindAll(nd, RefRun, s);
    RunsFound(nd, s, 0);
    ItemsByRun(nd, TwoCoord, s, 0);
    PointsAreLabelled(nd, s, rs, width, height);
    LabelledInRuns(nd, TwoCoord, s);
  }
}

/**
 Which ref-run each match belongs to. The parser finds runs and matches separately and compares
 spans; this module says what that comparison amounts to for a whole answer.
 */
module Items {
  import opened Wrappers
  import opened Text
  import opened Lists
  import opened Scanner
  import opened Blocks

  /** A match and its owner: the label of the ref-run it overlaps, or none. */
  datatype Item = Item(at: Span, name: string, bare: bool)

  predicate Overlaps(a: Span, b: Span) {
    a.start < b.end && b.start < a.end
  }

  /** `any(...)` over a list of intervals. */
  predicate Touches(m: Span, spans: seq<Span>) {
    exists b | b in spans :: Overlaps(m, b)
  }

  ghost predicate IsRun(s: string, r: Span) {
    LabelSpan(s, r.start).Some? && RunBlocksEnd(s, BlocksStart(s, r.start)) == Some(r.end)
  }

  /** `m.group("label").strip()`. */
  function RunLabel(s: string, r: Span): string
    requires IsRun(s, r)
  {
    var group := LabelSpan(s, r.start).value;
    Strip(s[group.start..group.end])
  }

  ghost predicate AreRuns(s: string, rs: seq<Span>) {
    forall r | r in rs :: IsRun(s, r)
  }

  /** The owner of a match among the runs of the answer: the first run that overlaps it. */
  ghost function ItemOf(s: string, rs: seq<Span>, m: Span): Item
    requires AreRuns(s, rs)
  {
    if rs == [] then Item(m, "", true)
    else if Overlaps(m, rs[0]) then Item(m, RunLabel(s, rs[0]), false)
    else ItemOf(s, rs[1..], m)
  }

  ghost function ItemsOf(s: string, rs: seq<Span>, ms: seq<Span>): (items: seq<Item>)
    requires AreRuns(s, rs)
    ensures |items| == |ms| && forall k | 0 <= k < |ms| :: items[k] == ItemOf(s, rs, ms[k])
  {
    seq(|ms|, k requires 0 <= k < |ms| => ItemOf(s, rs, ms[k]))
  }

  const OWNED: Item -> bool := (i: Item) => !i.bare
  const UNOWNED: Item -> bool := (i: Item) => i.bare
  const ON_CONTRACT: Item -> bool := (i: Item) => i.name != ""

  ghost function InRuns(items: seq<Item>): seq<Item> {
    Filter(OWNED, items)
  }

  ghost function Bare(items: seq<Item>): seq<Item> {
    Filter(UNOWNED, items)
  }

  /** The items with a non-empty label, which are the only ones on contract. */
  ghost function Labelled(items: seq<Item>): seq<Item> {
    Filter(ON_CONTRACT, items)
  }

  /** The matches of `p` in the blocks of one run, all with the label of the run. */
  ghost function RunItems(nd: Digits, p: Pattern, s: string, r: Span): seq<Item>
    requires IsRun(s, r)
  {
    Named(Inside(nd, p, s, Span(BlocksStart(s, r.start), r.end)), RunLabel(s, r))
  }

  ghost function Named(ms: seq<Span>, name: string): (items: seq<Item>)
    ensures |items| == |ms| && forall k | 0 <= k < |ms| :: items[k] == Item(ms[k], name, false)
  {
    seq(|ms|, k requires 0 <= k < |ms| => Item(ms[k], name, false))
  }

  ghost function RunsItems(nd: Digits, p: Pattern, s: string, rs: seq<Span>): seq<Item>
    requires AreRuns(s, rs)
  {
    if rs == [] then [] else RunItems(nd, p, s, rs[0]) + RunsItems(nd, p, s, rs[1..])
  }

  // ---------- owners ----------

  lemma TouchesFirst(m: Span, spans: seq<Span>)
    requires spans != []
    ensures Touches(m, spans) <==> Overlaps(m, spans[0]) || Touches(m, spans[1..])
  {
    assert spans == [spans[0]] + spans[1..];
  }

  lemma {:induction false} ItemOfBare(s: string, rs: seq<Span>, m: Span)
    requires AreRuns(s, rs)
    ensures ItemOf(s, rs, m).at == m && (ItemOf(s, rs, m).bare <==> !Touches(m, rs))
    ensures ItemOf(s, rs, m).bare ==> ItemOf(s, rs, m).name == ""
    decreases |rs|
  {
    if rs != [] {
      TouchesFirst(m, rs);
      if !Overlaps(m, rs[0]) {
        ItemOfBare(s, rs[1..], m);
      }
    }
  }

  // ---------- the runs of an answer ----------

  lemma RunMatch(nd: Digits, s: string, r: Span)
    requires Matches(nd, RefRun, s, r.start, r.end)
    ensures IsRun(s, r)
  {
  }

  lemma RunsFound(nd: Digits, s: string, lo: nat)
    requires lo <= |s|
    ensures AreRuns(s, FindFrom(nd, RefRun, s, lo, |s|)) && InOrder(FindFrom(nd, RefRun, s, lo, |s|), lo)
  {
    Found(EndsOf(nd, RefRun, s), lo, |s|);
    forall r | r in FindFrom(nd, RefRun, s, lo, |s|)
      ensures IsRun(s, r)
    {
      RunMatch(nd, s, r);
    }
  }

  lemma {:induction false} FirstFound(e: Ends, lo: nat, hi: nat)
    requires hi <= |e| && Scan(e, lo, hi) != []
    ensures var r := Scan(e, lo, hi); lo <= r[0].start < r[0].end <= |e| && r[1..] == Scan(e, r[0].end, hi)
    decreases |e| - lo
  {
    if e[lo].None? {
      FirstFound(e, lo + 1, hi);
    }
  }

  /** Matches apart from every run are bare. */
  lemma ApartAreBare(s: string, rs: seq<Span>, ms: seq<Span>)
    requires AreRuns(s, rs) && forall m | m in ms :: !Touches(m, rs)
    ensures InRuns(ItemsOf(s, rs, ms)) == []
  {
    forall k | 0 <= k < |ms|
      ensures ItemOf(s, rs, ms[k]).bare && ItemOf(s, rs, ms[k]).name == ""
    {
      ItemOfBare(s, rs, ms[k]);
      assert ms[k] in ms;
    }
    FilterNone(OWNED, ItemsOf(s, rs, ms));
  }

  lemma ItemsOfConcat(s: string, rs: seq<Span>, a: seq<Span>, b: seq<Span>)
    requires AreRuns(s, rs)
    ensures InRuns(ItemsOf(s, rs, a + b)) == InRuns(ItemsOf(s, rs, a)) + InRuns(ItemsOf(s, rs, b))
  {
    assert ItemsOf(s, rs, a + b) == ItemsOf(s, rs, a) + ItemsOf(s, rs, b);
    FilterConcat(OWNED, ItemsOf(s, rs, a), ItemsOf(s, rs, b));
  }

  /** Main result: the items in runs, in text order, are those of the first run, then the second, and so on. */
  lemma {:induction false} ItemsByRun(nd: Digits, p: Pattern, s: string, lo: nat)
    requires p.IsStrict() && lo <= |s|
    ensures var rs := FindFrom(nd, RefRun, s, lo, |s|);
      AreRuns(s, rs) && InRuns(ItemsOf(s, rs, FindFrom(nd, p, s, lo, |s|))) == RunsItems(nd, p, s, rs)
    decreases |s| - lo
  {
    hide Scan, MatchEnd, ItemOf, RunBlocksEnd, LabelSpan, RunItems;
    var rs, ms := FindFrom(nd, RefRun, s, lo, |s|), FindFrom(nd, p, s, lo, |s|);
    RunsFound(nd, s, lo);
    if rs == [] {
      ApartAreBare(s, rs, ms);
    } else {
      var r := rs[0];
      FirstFound(EndsOf(nd, RefRun, s), lo, |s|);
      assert r in rs;
      StrictByRun(nd, p, s, lo, r.start, r.end);
      var g := BlocksStart(s, r.start);
      var before, inside, after :=
        FindFrom(nd, p, s, lo, r.start), FindFrom(nd, p, s, g, r.end), FindFrom(nd, p, s, r.end, |s|);
      ItemsOfConcat(s, rs, before + inside, after);
      ItemsOfConcat(s, rs, before, inside);
      BeforeRun(nd, p, s, rs, lo);
      InsideRun(nd, p, s, rs);
      AfterRun(nd, p, s, rs);
      ItemsByRun(nd, p, s, r.end);
    }
  }

  lemma BeforeRun(nd: Digits, p: Pattern, s: string, rs: seq<Span>, lo: nat)
    requires p.IsStrict() && rs != [] && AreRuns(s, rs) && InOrder(rs, lo)
    ensures rs[0] in rs && InRuns(ItemsOf(s, rs, FindFrom(nd, p, s, lo, rs[0].start))) == []
  {
    var r := rs[0];
    assert r in rs;
    var before := FindFrom(nd, p, s, lo, r.start);
    Found(EndsOf(nd, p, s), lo, r.start);
    BeforeRef(nd, p, s, lo, r.start);
    InOrderBound(rs, r.start);
    forall m | m in before
      ensures !Touches(m, rs)
    {
      assert m.end <= r.start;
    }
    ApartAreBare(s, rs, before);
  }

  lemma InsideRun(nd: Digits, p: Pattern, s: string, rs: seq<Span>)
    requires p.IsStrict() && rs != [] && AreRuns(s, rs)
    ensures rs[0] in rs
    ensures var inside := FindFrom(nd, p, s, BlocksStart(s, rs[0].start), rs[0].end);
      InRuns(ItemsOf(s, rs, inside)) == RunItems(nd, p, s, rs[0])
  {
    var r := rs[0];
    assert r in rs;
    var g := BlocksStart(s, r.start);
    var inside := FindFrom(nd, p, s, g, r.end);
    Found(EndsOf(nd, p, s), g, r.end);
    forall k | 0 <= k < |inside|
      ensures ItemOf(s, rs, inside[k]) == Item(inside[k], RunLabel(s, r), false)
    {
      assert inside[k] in inside;
      assert Overlaps(inside[k], r);
    }
    assert ItemsOf(s, rs, inside) == RunItems(nd, p, s, r);
    FilterAll(OWNED, ItemsOf(s, rs, inside));
  }

  lemma AfterRun(nd: Digits, p: Pattern, s: string, rs: seq<Span>)
    requires p.IsStrict() && rs != [] && AreRuns(s, rs)
    ensures rs[0] in rs
    ensures var after := FindFrom(nd, p, s, rs[0].end, |s|); ItemsOf(s, rs, after) == ItemsOf(s, rs[1..], after)
  {
    assert rs[0] in rs;
    var after := FindFrom(nd, p, s, rs[0].end, |s|);
    Found(EndsOf(nd, p, s), rs[0].end, |s|);
    forall k | 0 <= k < |after|
      ensures ItemOf(s, rs, after[k]) == ItemOf(s, rs[1..], after[k])
    {
      assert after[k] in after;
    }
  }
}

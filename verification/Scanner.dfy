/**
 The five regular expressions of the output parser as left-to-right scanners, and `finditer`.
 `Regex` proves that each scanner finds exactly what Python's backtracking engine finds.
 */
module Scanner {
  import opened Wrappers
  import opened Text

  /** One of the five compiled patterns. */
  datatype Pattern =
    | FourCoord    // <box><x1><y1><x2><y2></box>
    | TwoCoord     // <box><x><y></box>
    | NoneLiteral  // <box>None</box>, or lower case
    | AnyBlock     // <box>...</box>, the shortest
    | RefRun       // <ref>label</ref> and the blocks that follow it
  {
    /** The three forms that are on contract inside `<box>...</box>`. */
    predicate IsStrict() { FourCoord? || TwoCoord? || NoneLiteral? }
  }

  /** A match: `start` inclusive, `end` exclusive. */
  datatype Span = Span(start: nat, end: nat)

  // ---------- the tags, character by character ----------

  predicate OpenBox(s: string, i: nat) {
    i + 5 <= |s| && s[i] == '<' && s[i+1] == 'b' && s[i+2] == 'o' && s[i+3] == 'x' && s[i+4] == '>'
  }

  predicate CloseBox(s: string, i: nat) {
    i + 6 <= |s| && s[i] == '<' && s[i+1] == '/' && s[i+2] == 'b' && s[i+3] == 'o' && s[i+4] == 'x' && s[i+5] == '>'
  }

  predicate OpenRef(s: string, i: nat) {
    i + 5 <= |s| && s[i] == '<' && s[i+1] == 'r' && s[i+2] == 'e' && s[i+3] == 'f' && s[i+4] == '>'
  }

  predicate CloseRef(s: string, i: nat) {
    i + 6 <= |s| && s[i] == '<' && s[i+1] == '/' && s[i+2] == 'r' && s[i+3] == 'e' && s[i+4] == 'f' && s[i+5] == '>'
  }

  predicate NoneWord(s: string, i: nat) {
    i + 4 <= |s| && (s[i] == 'N' || s[i] == 'n') && s[i+1] == 'o' && s[i+2] == 'n' && s[i+3] == 'e'
  }

  // ---------- maximal runs of a character class ----------

  function SkipDigits(nd: Digits, s: string, i: nat): (j: nat)
    requires i <= |s|
    ensures i <= j <= |s|
    ensures forall k | i <= k < j :: s[k] in nd
    ensures j < |s| ==> s[j] !in nd
    decreases |s| - i
  {
    if i < |s| && s[i] in nd then SkipDigits(nd, s, i + 1) else i
  }

  function SkipSpace(s: string, i: nat): (j: nat)
    requires i <= |s|
    ensures i <= j <= |s|
    ensures forall k | i <= k < j :: IsPythonSpace(s[k])
    ensures j < |s| ==> !IsPythonSpace(s[j])
    decreases |s| - i
  {
    if i < |s| && IsPythonSpace(s[i]) then SkipSpace(s, i + 1) else i
  }

  function SkipToTag(s: string, i: nat): (j: nat)
    requires i <= |s|
    ensures i <= j <= |s|
    ensures forall k | i <= k < j :: s[k] != '<'
    ensures j < |s| ==> s[j] == '<'
    decreases |s| - i
  {
    if i < |s| && s[i] != '<' then SkipToTag(s, i + 1) else i
  }

  /** The first `</box>` at or after `i`. */
  function FindClose(s: string, i: nat): (r: Option<nat>)
    ensures r.Some? ==> i <= r.value && CloseBox(s, r.value) && forall k | i <= k < r.value :: !CloseBox(s, k)
    ensures r.None? ==> forall k | i <= k :: !CloseBox(s, k)
    decreases |s| - i
  {
    if i >= |s| then None
    else if CloseBox(s, i) then Some(i)
    else FindClose(s, i + 1)
  }

  // ---------- one match at a given position ----------

  /** The end of `<digits>` at `i`. */
  function CoordEnd(nd: Digits, s: string, i: nat): (r: Option<nat>)
    ensures r.Some? ==> i + 3 <= r.value <= |s|
  {
    if i < |s| && s[i] == '<' then
      var j := SkipDigits(nd, s, i + 1);
      if i + 1 < j < |s| && s[j] == '>' then Some(j + 1) else None
    else None
  }

  /** The end of `n` consecutive `<digits>` groups at `i`. */
  function CoordsEnd(nd: Digits, s: string, i: nat, n: nat): (r: Option<nat>)
    ensures r.Some? && n > 0 ==> i + 3 * n <= r.value <= |s|
    ensures n == 0 ==> r == Some(i)
    decreases n
  {
    if n == 0 then Some(i)
    else
      match CoordEnd(nd, s, i)
      case None => None
      case Some(j) => CoordsEnd(nd, s, j, n - 1)
  }

  /** The captured groups of `CoordsEnd`: strings of digits. */
  function Captured(nd: Digits, s: string, i: nat, n: nat): (ts: seq<string>)
    requires CoordsEnd(nd, s, i, n).Some?
    ensures |ts| == n && forall t | t in ts :: IsNumeral(nd, t)
    decreases n
  {
    if n == 0 then []
    else
      var j := CoordEnd(nd, s, i).value;
      [s[i + 1..j - 1]] + Captured(nd, s, j, n - 1)
  }

  function CoordBlockEnd(nd: Digits, s: string, i: nat, n: nat): (r: Option<nat>)
    ensures r.Some? ==> i + 11 + 3 * n <= r.value <= |s|
  {
    if OpenBox(s, i) then
      match CoordsEnd(nd, s, i + 5, n)
      case None => None
      case Some(j) => if CloseBox(s, j) then Some(j + 6) else None
    else None
  }

  function AnyBlockEnd(s: string, i: nat): (r: Option<nat>)
    ensures r.Some? ==> i + 11 <= r.value <= |s|
  {
    if OpenBox(s, i) then
      match FindClose(s, i + 5)
      case None => None
      case Some(j) => Some(j + 6)
    else None
  }

  /** `\s*<box>.*?</box>`, one turn of the repeated group of a ref-run. */
  function RunTurnEnd(s: string, i: nat): (r: Option<nat>)
    requires i <= |s|
    ensures r.Some? ==> i + 11 <= r.value <= |s|
  {
    AnyBlockEnd(s, SkipSpace(s, i))
  }

  /** `(?:\s*<box>.*?</box>)+`: as many turns as there are, at least one. */
  function RunBlocksEnd(s: string, i: nat): (r: Option<nat>)
    requires i <= |s|
    ensures r.Some? ==> i + 11 <= r.value <= |s|
    decreases |s| - i
  {
    match RunTurnEnd(s, i)
    case None => None
    case Some(e) =>
      match RunBlocksEnd(s, e)
      case None => Some(e)
      case Some(f) => Some(f)
  }

  /** The span of the `label` group of a ref-run whose `<ref>label</ref>` begins at `i`. */
  function LabelSpan(s: string, i: nat): (r: Option<Span>)
    ensures r.Some? ==> i + 5 == r.value.start <= r.value.end && CloseRef(s, r.value.end)
    ensures r.Some? ==> forall k | i + 5 <= k < r.value.end :: s[k] != '<'
  {
    if OpenRef(s, i) && CloseRef(s, SkipToTag(s, i + 5)) then Some(Span(i + 5, SkipToTag(s, i + 5))) else None
  }

  /** The end of the match of `p` that begins at `i`, if there is one: `re.match` from `i`. */
  function MatchEnd(nd: Digits, p: Pattern, s: string, i: nat): (r: Option<nat>)
    ensures r.Some? ==> i + 11 <= r.value <= |s|
  {
    match p
    case FourCoord => CoordBlockEnd(nd, s, i, 4)
    case TwoCoord => CoordBlockEnd(nd, s, i, 2)
    case NoneLiteral =>
      if OpenBox(s, i) && NoneWord(s, i + 5) && CloseBox(s, i + 9) then Some(i + 15) else None
    case AnyBlock => AnyBlockEnd(s, i)
    case RefRun =>
      match LabelSpan(s, i)
      case None => None
      case Some(group) => RunBlocksEnd(s, group.end + 6)
  }

  predicate Matches(nd: Digits, p: Pattern, s: string, i: nat, e: nat) {
    MatchEnd(nd, p, s, i) == Some(e)
  }

  /** `re.fullmatch`: each strict pattern has at most one match at a position, so it is that one. */
  predicate FullMatch(nd: Digits, p: Pattern, s: string) {
    Matches(nd, p, s, 0, |s|)
  }

  // ---------- finditer ----------

  /** The outcome of a match at every position of a string: where it ends, if there is one. */
  type Ends = e: seq<Option<nat>> | forall i | 0 <= i < |e| && e[i].Some? :: i < e[i].value <= |e|

  function EndsOf(nd: Digits, p: Pattern, s: string): (e: Ends)
    ensures |e| == |s|
  {
    seq(|s|, i requires 0 <= i < |s| => MatchEnd(nd, p, s, i))
  }

  /** The matches that begin in `lo..hi`, found left to right, each from the end of the last. */
  function Scan(e: Ends, lo: nat, hi: nat): seq<Span>
    requires hi <= |e|
    decreases |e| - lo
  {
    if lo >= hi then []
    else
      match e[lo]
      case Some(f) => [Span(lo, f)] + Scan(e, f, hi)
      case None => Scan(e, lo + 1, hi)
  }

  function FindFrom(nd: Digits, p: Pattern, s: string, lo: nat, hi: nat): seq<Span>
    requires hi <= |s|
  {
    Scan(EndsOf(nd, p, s), lo, hi)
  }

  /** `finditer` over the whole string. */
  function FindAll(nd: Digits, p: Pattern, s: string): seq<Span> {
    FindFrom(nd, p, s, 0, |s|)
  }

  lemma ScanStep(e: Ends, lo: nat, hi: nat)
    requires hi <= |e|
    ensures Scan(e, lo, hi) == if lo >= hi then []
      else if e[lo].Some? then [Span(lo, e[lo].value)] + Scan(e, e[lo].value, hi)
      else Scan(e, lo + 1, hi)
  {
  }

  method FindIter(nd: Digits, p: Pattern, s: string) returns (r: seq<Span>)
    ensures r == FindAll(nd, p, s)
  {
    hide Scan, MatchEnd;
    r := [];
    ghost var e := EndsOf(nd, p, s);
    var i := 0;
    while i < |s|
      invariant 0 <= i <= |s|
      invariant Scan(e, 0, |s|) == r + Scan(e, i, |s|)
    {
      var m := MatchEnd(nd, p, s, i);
      assert e[i] == m;
      ScanStep(e, i, |s|);
      if m.Some? {
        r := r + [Span(i, m.value)];
        i := m.value;
      } else {
        i := i + 1;
      }
    }
    ScanStep(e, i, |s|);
  }

  // ---------- what finditer yields, for any pattern ----------

  /** Non-empty spans from `lo` on, left to right, none overlapping the next. */
  ghost predicate InOrder(r: seq<Span>, lo: nat) {
    r == [] || (lo <= r[0].start < r[0].end && InOrder(r[1..], r[0].end))
  }

  /** Every span found is a match in range, and the spans are in text order without overlap. */
  lemma {:induction false} Found(e: Ends, lo: nat, hi: nat)
    requires hi <= |e|
    ensures InOrder(Scan(e, lo, hi), lo)
    ensures forall m | m in Scan(e, lo, hi) :: lo <= m.start < hi && e[m.start] == Some(m.end)
    decreases |e| - lo
  {
    if lo < hi {
      if e[lo].Some? {
        Found(e, e[lo].value, hi);
      } else {
        Found(e, lo + 1, hi);
      }
    }
  }

  /** Nothing is found exactly when nothing matches. */
  lemma {:induction false} FoundNothing(e: Ends, lo: nat, hi: nat)
    requires hi <= |e|
    ensures Scan(e, lo, hi) == [] <==> forall x | lo <= x < hi :: e[x].None?
    decreases |e| - lo
  {
    if lo < hi && e[lo].None? {
      FoundNothing(e, lo + 1, hi);
    }
  }

  /** No match that begins in `lo..m` reaches past `m`. */
  ghost predicate Bounded(e: Ends, lo: nat, m: nat)
    requires m <= |e|
  {
    forall x | lo <= x < m && e[x].Some? :: e[x].value <= m
  }

  lemma {:induction false} FindSplit(e: Ends, lo: nat, m: nat, hi: nat)
    requires lo <= m <= hi <= |e| && Bounded(e, lo, m)
    ensures Scan(e, lo, hi) == Scan(e, lo, m) + Scan(e, m, hi)
    decreases m - lo
  {
    if lo < m {
      if e[lo].Some? {
        FindSplit(e, e[lo].value, m, hi);
      } else {
        FindSplit(e, lo + 1, m, hi);
      }
    }
  }

  lemma FindCut(e: Ends, lo: nat, r: nat, g: nat, h: nat, hi: nat)
    requires lo <= r <= g <= h <= hi <= |e|
    requires Bounded(e, lo, r) && (forall x | r <= x < g :: e[x].None?) && Bounded(e, g, h)
    ensures Scan(e, lo, hi) == Scan(e, lo, r) + Scan(e, g, h) + Scan(e, h, hi)
  {
    hide Scan;
    FindSplit(e, lo, r, hi);
    FoundNothing(e, r, g);
    FindSplit(e, r, g, hi);
    FindSplit(e, g, h, hi);
  }

  /** Spans in order from `lo` all begin at or after `lo`. */
  lemma {:induction false} InOrderBound(r: seq<Span>, lo: nat)
    requires InOrder(r, lo)
    ensures forall m | m in r :: lo <= m.start < m.end
  {
    if r != [] {
      InOrderBound(r[1..], r[0].end);
    }
  }

  /** Spans in order that end at the same place are the same span. */
  lemma {:induction false} EndsDiffer(r: seq<Span>, lo: nat, a: Span, b: Span)
    requires InOrder(r, lo) && a in r && b in r && a.end == b.end
    ensures a == b
  {
    if a == r[0] && b != r[0] {
      assert b in r[1..];
      InOrderBound(r[1..], r[0].end);
    } else if b == r[0] && a != r[0] {
      assert a in r[1..];
      InOrderBound(r[1..], r[0].end);
    } else if a != r[0] {
      EndsDiffer(r[1..], r[0].end, a, b);
    }
  }

  lemma AtMostOne(r: seq<Span>, lo: nat, end: nat)
    requires InOrder(r, lo) && forall m | m in r :: m.start < end && m.end == end
    ensures |r| <= 1
  {
    if |r| > 1 {
      var rest := r[1..];
      assert r[0] in r && rest[0] in rest && r[1] == rest[0];
      InOrderBound(rest, r[0].end);
    }
  }
}

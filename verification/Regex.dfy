/**
 The patterns as the source writes them, under the semantics of Python's `re`: a backtracking
 search that tries a greedy repeat longest first and a lazy one shortest first. `ScannerIsRegex`
 says that the one-pass scanners of `Scanner` find the same match at every position.
 */
module Regex {
  import opened Wrappers
  import opened Text
  import opened Scanner

  datatype CharClass = Lit(c: char) | Either(c: char, d: char) | Digit | Space | NotTag | AnyChar
  {
    /** `\d`, `\s`, `[^<]`, and `.` with DOTALL. */
    predicate Has(nd: Digits, x: char) {
      match this
      case Lit(c) => x == c
      case Either(c, d) => x == c || x == d
      case Digit => x in nd
      case Space => IsPythonSpace(x)
      case NotTag => x != '<'
      case AnyChar => true
    }
  }

  datatype Atom = One(cls: CharClass) | Greedy(cls: CharClass) | Lazy(cls: CharClass)

  /** What follows a sequence of atoms: nothing, the end of the string, or `(?:turn)+` and then nothing. */
  datatype Rest = Done | AtEnd | Plus(turn: seq<Atom>)

  /** The end of the first match the backtracking search reaches from `i`. */
  function Search(nd: Digits, re: seq<Atom>, rest: Rest, s: string, i: nat): (r: Option<nat>)
    requires i <= |s|
    ensures r.Some? ==> i <= r.value <= |s|
    decreases if rest.Plus? then 2 else 0, |re|, |s| - i
  {
    if re == [] then
      match rest
      case Done => Some(i)
      case AtEnd => if i == |s| then Some(i) else None
      case Plus(turn) => SearchPlus(nd, turn, s, i)
    else
      var here := i < |s| && re[0].cls.Has(nd, s[i]);
      match re[0]
      case One(_) => if here then Search(nd, re[1..], rest, s, i + 1) else None
      case Greedy(_) =>
        var more := if here then Search(nd, re, rest, s, i + 1) else None;
        if more.Some? then more else Search(nd, re[1..], rest, s, i)
      case Lazy(_) =>
        var less := Search(nd, re[1..], rest, s, i);
        if less.Some? then less else if here then Search(nd, re, rest, s, i + 1) else None
  }

  /** A greedy `(?:turn)+` that ends the pattern: after a turn, try another; failing that, accept. */
  function SearchPlus(nd: Digits, turn: seq<Atom>, s: string, i: nat): (r: Option<nat>)
    requires i <= |s|
    ensures r.Some? ==> i <= r.value <= |s|
    decreases 1, 0, |s| - i
  {
    match Search(nd, turn, Done, s, i)
    case None => None
    case Some(e) =>
      var more := if e > i then SearchPlus(nd, turn, s, e) else None;
      if more.Some? then more else Some(e)
  }

  function Lits(lit: string): (re: seq<Atom>)
    ensures |re| == |lit|
  {
    if lit == [] then [] else [One(Lit(lit[0]))] + Lits(lit[1..])
  }

  const COORD_RE: seq<Atom> := [One(Lit('<')), One(Digit), Greedy(Digit), One(Lit('>'))]

  function CoordsRe(n: nat): seq<Atom> {
    if n == 0 then [] else COORD_RE + CoordsRe(n - 1)
  }

  const TURN_RE: seq<Atom> := [Greedy(Space)] + Lits("<box>") + ([Lazy(AnyChar)] + Lits("</box>"))

  function Atoms(p: Pattern): seq<Atom> {
    match p
    case FourCoord => Lits("<box>") + (CoordsRe(4) + Lits("</box>"))
    case TwoCoord => Lits("<box>") + (CoordsRe(2) + Lits("</box>"))
    case NoneLiteral => Lits("<box>") + ([One(Either('N', 'n'))] + (Lits("one") + Lits("</box>")))
    case AnyBlock => Lits("<box>") + ([Lazy(AnyChar)] + Lits("</box>"))
    case RefRun => Lits("<ref>") + ([Lazy(NotTag)] + Lits("</ref>"))
  }

  function Tail(p: Pattern): Rest {
    if p == RefRun then Plus(TURN_RE) else Done
  }

  // ---------- one kind of step at a time ----------

  lemma {:induction false} LitsStep(nd: Digits, lit: string, re: seq<Atom>, rest: Rest, s: string, i: nat)
    requires i <= |s|
    ensures Search(nd, Lits(lit) + re, rest, s, i)
         == if At(s, i, lit) then Search(nd, re, rest, s, i + |lit|) else None
  {
    if lit == [] {
      assert Lits(lit) + re == re;
    } else {
      var whole := Lits(lit) + re;
      assert whole[1..] == Lits(lit[1..]) + re;
      assert whole[0] == One(Lit(lit[0]));
      if i < |s| && s[i] == lit[0] {
        LitsStep(nd, lit[1..], re, rest, s, i + 1);
        assert At(s, i, lit) ==> At(s, i + 1, lit[1..]) by {
          assert forall k | 0 <= k < |lit| - 1 :: lit[1..][k] == lit[k + 1];
        }
        assert At(s, i + 1, lit[1..]) ==> At(s, i, lit) by {
          assert forall k | 0 < k < |lit| :: lit[k] == lit[1..][k - 1];
        }
      } else if i < |s| {
        assert s[i + 0] != lit[0];
      }
    }
  }

  /** A repeat followed by a character outside its class stops at the end of the maximal run. */
  lemma {:induction false} RepeatStep(
    nd: Digits, a: Atom, c: char, re: seq<Atom>, rest: Rest, s: string, i: nat, j: nat
  )
    requires !a.One? && !a.cls.Has(nd, c)
    requires i <= j <= |s| && (forall k | i <= k < j :: a.cls.Has(nd, s[k]))
    requires j < |s| ==> !a.cls.Has(nd, s[j])
    ensures Search(nd, [a, One(Lit(c))] + re, rest, s, i)
         == if j < |s| && s[j] == c then Search(nd, re, rest, s, j + 1) else None
    decreases j - i
  {
    var whole := [a, One(Lit(c))] + re;
    assert whole[1..] == [One(Lit(c))] + re;
    assert whole[1..][1..] == re;
    if i < j {
      RepeatStep(nd, a, c, re, rest, s, i + 1, j);
    }
  }

  /** `.*?</box>` stops at the first closing tag. */
  lemma {:induction false} LazyCloseStep(nd: Digits, s: string, i: nat)
    requires i <= |s|
    ensures Search(nd, [Lazy(AnyChar)] + Lits("</box>"), Done, s, i)
         == match FindClose(s, i) case None => None case Some(j) => Some(j + 6)
    decreases |s| - i
  {
    var whole := [Lazy(AnyChar)] + Lits("</box>");
    assert whole[1..] == Lits("</box>") + [];
    LitsStep(nd, "</box>", [], Done, s, i);
    TagsAreLiterals(s, i);
    if i < |s| {
      LazyCloseStep(nd, s, i + 1);
    }
  }

  /** One atom that is not repeated. */
  lemma OneStep(nd: Digits, cls: CharClass, re: seq<Atom>, rest: Rest, s: string, i: nat)
    requires i <= |s|
    ensures Search(nd, [One(cls)] + re, rest, s, i)
         == if i < |s| && cls.Has(nd, s[i]) then Search(nd, re, rest, s, i + 1) else None
  {
    assert ([One(cls)] + re)[1..] == re;
  }

  lemma CoordStep(nd: Digits, re: seq<Atom>, rest: Rest, s: string, i: nat)
    requires i <= |s|
    ensures Search(nd, COORD_RE + re, rest, s, i)
         == match CoordEnd(nd, s, i) case None => None case Some(j) => Search(nd, re, rest, s, j)
  {
    hide Search;
    var digits := [Greedy(Digit), One(Lit('>'))] + re;
    assert COORD_RE + re == [One(Lit('<'))] + ([One(Digit)] + digits);
    OneStep(nd, Lit('<'), [One(Digit)] + digits, rest, s, i);
    if i < |s| && s[i] == '<' {
      OneStep(nd, Digit, digits, rest, s, i + 1);
      var j := SkipDigits(nd, s, i + 1);
      if i + 1 < j {
        RepeatStep(nd, Greedy(Digit), '>', re, rest, s, i + 2, j);
      }
    }
  }

  lemma {:induction false} CoordsStep(nd: Digits, n: nat, re: seq<Atom>, rest: Rest, s: string, i: nat)
    requires i <= |s|
    ensures Search(nd, CoordsRe(n) + re, rest, s, i)
         == match CoordsEnd(nd, s, i, n) case None => None case Some(j) => Search(nd, re, rest, s, j)
    decreases n
  {
    hide Search, CoordEnd;
    if n == 0 {
      assert CoordsRe(n) + re == re;
    } else {
      assert CoordsRe(n) + re == COORD_RE + (CoordsRe(n - 1) + re);
      CoordStep(nd, CoordsRe(n - 1) + re, rest, s, i);
      var j := CoordEnd(nd, s, i);
      if j.Some? {
        CoordsStep(nd, n - 1, re, rest, s, j.value);
      }
    }
  }

  lemma TagsAreLiterals(s: string, i: nat)
    ensures At(s, i, "<box>") == OpenBox(s, i)
    ensures At(s, i, "</box>") == CloseBox(s, i)
    ensures At(s, i, "<ref>") == OpenRef(s, i)
    ensures At(s, i, "</ref>") == CloseRef(s, i)
  {
    var a, b, c, d := "<box>", "</box>", "<ref>", "</ref>";
    if i + 5 <= |s| {
      assert a[0] == '<' && a[1] == 'b' && a[2] == 'o' && a[3] == 'x' && a[4] == '>';
      assert c[0] == '<' && c[1] == 'r' && c[2] == 'e' && c[3] == 'f' && c[4] == '>';
    }
    if i + 6 <= |s| {
      assert b[0] == '<' && b[1] == '/' && b[2] == 'b' && b[3] == 'o' && b[4] == 'x' && b[5] == '>';
      assert d[0] == '<' && d[1] == '/' && d[2] == 'r' && d[3] == 'e' && d[4] == 'f' && d[5] == '>';
    }
    if At(s, i, a) { assert s[i+0] == a[0] && s[i+1] == a[1] && s[i+2] == a[2] && s[i+3] == a[3] && s[i+4] == a[4]; }
    if At(s, i, b) {
      assert s[i+0] == b[0] && s[i+1] == b[1] && s[i+2] == b[2] && s[i+3] == b[3] && s[i+4] == b[4] && s[i+5] == b[5];
    }
    if At(s, i, c) { assert s[i+0] == c[0] && s[i+1] == c[1] && s[i+2] == c[2] && s[i+3] == c[3] && s[i+4] == c[4]; }
    if At(s, i, d) {
      assert s[i+0] == d[0] && s[i+1] == d[1] && s[i+2] == d[2] && s[i+3] == d[3] && s[i+4] == d[4] && s[i+5] == d[5];
    }
  }

  // ---------- pattern by pattern ----------

  lemma AnyBlockStep(nd: Digits, s: string, i: nat)
    requires i <= |s|
    ensures Search(nd, Atoms(AnyBlock), Done, s, i) == AnyBlockEnd(s, i)
  {
    LitsStep(nd, "<box>", [Lazy(AnyChar)] + Lits("</box>"), Done, s, i);
    TagsAreLiterals(s, i);
    if OpenBox(s, i) {
      LazyCloseStep(nd, s, i + 5);
    }
  }

  lemma CoordBlockStep(nd: Digits, n: nat, rest: Rest, s: string, i: nat)
    requires i <= |s|
    ensures Search(nd, Lits("<box>") + (CoordsRe(n) + Lits("</box>")), rest, s, i)
         == match CoordBlockEnd(nd, s, i, n) case None => None case Some(e) => Search(nd, [], rest, s, e)
  {
    hide Search, Lits, CoordsEnd;
    LitsStep(nd, "<box>", CoordsRe(n) + Lits("</box>"), rest, s, i);
    TagsAreLiterals(s, i);
    if OpenBox(s, i) {
      CoordsStep(nd, n, Lits("</box>"), rest, s, i + 5);
      var j := CoordsEnd(nd, s, i + 5, n);
      if j.Some? {
        LitsStep(nd, "</box>", [], rest, s, j.value);
        assert Lits("</box>") + [] == Lits("</box>");
        TagsAreLiterals(s, j.value);
      }
    }
  }

  lemma NoneStep(nd: Digits, rest: Rest, s: string, i: nat)
    requires i <= |s|
    ensures Search(nd, Atoms(NoneLiteral), rest, s, i)
         == match MatchEnd(nd, NoneLiteral, s, i) case None => None case Some(e) => Search(nd, [], rest, s, e)
  {
    hide Search, Lits;
    var after := Lits("one") + Lits("</box>");
    var word := [One(Either('N', 'n'))] + after;
    LitsStep(nd, "<box>", word, rest, s, i);
    TagsAreLiterals(s, i);
    if OpenBox(s, i) {
      OneStep(nd, Either('N', 'n'), after, rest, s, i + 5);
      if i + 5 < |s| {
        LitsStep(nd, "one", Lits("</box>"), rest, s, i + 6);
        var one := "one";
        assert one[0] == 'o' && one[1] == 'n' && one[2] == 'e';
        if At(s, i + 6, one) {
          assert s[i + 6 + 0] == one[0] && s[i + 6 + 1] == one[1] && s[i + 6 + 2] == one[2];
          LitsStep(nd, "</box>", [], rest, s, i + 9);
          assert Lits("</box>") + [] == Lits("</box>");
          TagsAreLiterals(s, i + 9);
        }
        assert NoneWord(s, i + 5) ==> At(s, i + 6, one);
      }
    }
  }

  lemma TurnStep(nd: Digits, s: string, i: nat)
    requires i <= |s|
    ensures Search(nd, TURN_RE, Done, s, i) == RunTurnEnd(s, i)
  {
    var close := [Lazy(AnyChar)] + Lits("</box>");
    var box := "<box>";
    assert Lits(box) == [One(Lit('<'))] + Lits(box[1..]);
    var after := Lits(box[1..]) + close;
    assert TURN_RE == [Greedy(Space), One(Lit('<'))] + after;
    var j := SkipSpace(s, i);
    RepeatStep(nd, Greedy(Space), '<', after, Done, s, i, j);
    AnyBlockStep(nd, s, j);
    assert Atoms(AnyBlock) == [One(Lit('<'))] + after;
    assert Atoms(AnyBlock)[1..] == after;
  }

  lemma {:induction false} PlusStep(nd: Digits, s: string, i: nat)
    requires i <= |s|
    ensures SearchPlus(nd, TURN_RE, s, i) == RunBlocksEnd(s, i)
    decreases |s| - i
  {
    TurnStep(nd, s, i);
    var e := RunTurnEnd(s, i);
    if e.Some? {
      PlusStep(nd, s, e.value);
    }
  }

  lemma LabelStep(nd: Digits, close: string, turn: seq<Atom>, s: string, i: nat)
    requires i <= |s| && close == "</ref>"
    ensures var j := SkipToTag(s, i);
      Search(nd, [Lazy(NotTag)] + Lits(close), Plus(turn), s, i)
      == if CloseRef(s, j) then SearchPlus(nd, turn, s, j + 6) else None
  {
    var j := SkipToTag(s, i);
    assert Lits(close) == [One(Lit('<'))] + Lits(close[1..]);
    hide Search, Lits, SearchPlus;
    var after := Lits(close[1..]);
    assert [Lazy(NotTag)] + Lits(close) == [Lazy(NotTag), One(Lit('<'))] + after;
    RepeatStep(nd, Lazy(NotTag), '<', after, Plus(turn), s, i, j);
    LitsStep(nd, close, [], Plus(turn), s, j);
    assert Lits(close) + [] == [One(Lit('<'))] + after;
    OneStep(nd, Lit('<'), after, Plus(turn), s, j);
    TagsAreLiterals(s, j);
    EmptyPlus(nd, turn, s, j + 6);
  }

  lemma EmptyPlus(nd: Digits, turn: seq<Atom>, s: string, i: nat)
    ensures i <= |s| ==> Search(nd, [], Plus(turn), s, i) == SearchPlus(nd, turn, s, i)
  {
  }

  lemma RefHeadStep(nd: Digits, open: string, close: string, turn: seq<Atom>, s: string, i: nat)
    requires i <= |s| && open == "<ref>" && close == "</ref>"
    ensures Search(nd, Lits(open) + ([Lazy(NotTag)] + Lits(close)), Plus(turn), s, i)
         == match LabelSpan(s, i) case None => None case Some(group) => SearchPlus(nd, turn, s, group.end + 6)
  {
    LitsStep(nd, open, [Lazy(NotTag)] + Lits(close), Plus(turn), s, i);
    TagsAreLiterals(s, i);
    if OpenRef(s, i) {
      LabelStep(nd, close, turn, s, i + 5);
    }
  }

  lemma RefRunStep(nd: Digits, s: string, i: nat)
    requires i <= |s|
    ensures Search(nd, Atoms(RefRun), Tail(RefRun), s, i) == MatchEnd(nd, RefRun, s, i)
  {
    hide Search, Lits, SearchPlus, RunBlocksEnd, LabelSpan;
    RefHeadStep(nd, "<ref>", "</ref>", TURN_RE, s, i);
    var group := LabelSpan(s, i);
    if group.Some? {
      PlusStep(nd, s, group.value.end + 6);
    }
  }

  /** Main result: the scanners and the backtracking engine find the same match everywhere. */
  lemma ScannerIsRegex(nd: Digits, p: Pattern, s: string, i: nat)
    requires i <= |s|
    ensures Search(nd, Atoms(p), Tail(p), s, i) == MatchEnd(nd, p, s, i)
  {
    match p
    case FourCoord => CoordBlockStep(nd, 4, Done, s, i);
    case TwoCoord => CoordBlockStep(nd, 2, Done, s, i);
    case NoneLiteral => NoneStep(nd, Done, s, i);
    case AnyBlock => AnyBlockStep(nd, s, i);
    case RefRun => RefRunStep(nd, s, i);
  }

  /** `re.fullmatch`, which may backtrack to reach the end of the string, needs no more than the one match. */
  lemma FullMatchIsRegex(nd: Digits, p: Pattern, s: string)
    requires p.IsStrict()
    ensures Search(nd, Atoms(p), AtEnd, s, 0).Some? <==> FullMatch(nd, p, s)
  {
    match p
    case FourCoord => CoordBlockStep(nd, 4, AtEnd, s, 0);
    case TwoCoord => CoordBlockStep(nd, 2, AtEnd, s, 0);
    case NoneLiteral => NoneStep(nd, AtEnd, s, 0);
  }
}

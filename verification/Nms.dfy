/**
 Non-maximum suppression: a stable sort by area, largest first, then a greedy pass that drops a box
 that overlaps a kept one too much. Overlap ratios and the threshold are exact fractions.
 */
module Nms {
  import opened Wrappers
  import opened Lists
  import opened Tiling

  datatype Box = Box(at: Corners, name: Option<string>)

  /** The threshold `num / den`, and whether only boxes of one label suppress each other. */
  datatype Rule = Rule(num: int, den: int, labelAware: bool)

  // ---------- area and overlap ----------

  function Extent(lo: int, hi: int): nat {
    if hi > lo then hi - lo else 0
  }

  function Larger(a: int, b: int): int {
    if a >= b then a else b
  }

  function Smaller(a: int, b: int): int {
    if a <= b then a else b
  }

  function Area(a: Corners): nat {
    Extent(a.x1, a.x2) * Extent(a.y1, a.y2)
  }

  function Intersection(a: Corners, b: Corners): nat {
    Extent(Larger(a.x1, b.x1), Smaller(a.x2, b.x2)) * Extent(Larger(a.y1, b.y1), Smaller(a.y2, b.y2))
  }

  /** `iou` as a fraction; 0/1 when nothing overlaps. */
  function Iou(a: Corners, b: Corners): (int, int) {
    var inter := Intersection(a, b);
    if inter <= 0 then (0, 1)
    else
      var union := Area(a) + Area(b) - inter;
      if union <= 0 then (0, 1) else (inter, union)
  }

  /** `iou(a, b) >= threshold`. */
  predicate Meets(a: Corners, b: Corners, rule: Rule) {
    Iou(a, b).0 * rule.den >= rule.num * Iou(a, b).1
  }

  predicate Suppresses(rule: Rule, k: Box, b: Box) {
    (rule.labelAware ==> b.name == k.name) && Meets(b.at, k.at, rule)
  }

  // ---------- the stable sort ----------

  function Insert(b: Box, bs: seq<Box>): seq<Box> {
    if bs == [] || Area(bs[0].at) <= Area(b.at) then [b] + bs else [bs[0]] + Insert(b, bs[1..])
  }

  /** `sorted(boxes, key=area, reverse=True)`: boxes of equal area keep their order. */
  function ByArea(bs: seq<Box>): seq<Box> {
    if bs == [] then [] else Insert(bs[0], ByArea(bs[1..]))
  }

  predicate Descending(bs: seq<Box>) {
    forall i, j | 0 <= i < j < |bs| :: Area(bs[i].at) >= Area(bs[j].at)
  }

  // ---------- the greedy pass ----------

  predicate IsDuplicate(rule: Rule, b: Box, kept: seq<Box>) {
    exists k | k in kept :: Suppresses(rule, k, b)
  }

  function Greedy(rule: Rule, todo: seq<Box>, kept: seq<Box>): seq<Box>
    decreases |todo|
  {
    if todo == [] then kept
    else Greedy(rule, todo[1..], if IsDuplicate(rule, todo[0], kept) then kept else kept + [todo[0]])
  }

  function Survivors(rule: Rule, boxes: seq<Box>): seq<Box> {
    Greedy(rule, ByArea(boxes), [])
  }

  method Suppress(boxes: seq<Box>, rule: Rule) returns (keep: seq<Box>)
    ensures keep == Survivors(rule, boxes)
  {
    hide Suppresses, ByArea;
    keep := [];
    if boxes == [] {
      assert ByArea(boxes) == [] by { SortNothing(); }
      return;
    }
    var sortedBoxes := ByArea(boxes);
    for i := 0 to |sortedBoxes|
      invariant Greedy(rule, sortedBoxes, []) == Greedy(rule, sortedBoxes[i..], keep)
    {
      var b, dup := sortedBoxes[i], false;
      assert sortedBoxes[i..][0] == b && sortedBoxes[i..][1..] == sortedBoxes[i + 1..];
      for j := 0 to |keep|
        invariant !dup
        invariant forall k | 0 <= k < j :: !Suppresses(rule, keep[k], b)
      {
        if rule.labelAware && b.name != keep[j].name {
          NotSuppressed(rule, keep[j], b);
          continue;
        }
        OnlyOverlap(rule, keep[j], b);
        if Meets(b.at, keep[j].at, rule) {
          dup := true;
          assert keep[j] in keep;
          break;
        }
      }
      if !dup {
        keep := keep + [b];
      }
    }
    assert sortedBoxes[|sortedBoxes|..] == [];
  }

  lemma SortNothing()
    ensures ByArea([]) == []
  {
  }

  lemma NotSuppressed(rule: Rule, k: Box, b: Box)
    requires rule.labelAware && b.name != k.name
    ensures !Suppresses(rule, k, b)
  {
  }

  lemma OnlyOverlap(rule: Rule, k: Box, b: Box)
    requires !(rule.labelAware && b.name != k.name)
    ensures Suppresses(rule, k, b) <==> Meets(b.at, k.at, rule)
  {
  }

  // ---------- what the sort does ----------

  lemma {:induction false} InsertHolds(b: Box, bs: seq<Box>)
    ensures multiset(Insert(b, bs)) == multiset(bs) + multiset{b}
  {
    hide Area;
    if bs != [] {
      InsertHolds(b, bs[1..]);
      assert bs == [bs[0]] + bs[1..];
    }
  }

  lemma {:induction false} InsertSorts(b: Box, bs: seq<Box>)
    requires Descending(bs)
    ensures Descending(Insert(b, bs))
    decreases |bs|
  {
    hide Area;
    if bs != [] && Area(bs[0].at) > Area(b.at) {
      InsertSorts(b, bs[1..]);
      InsertHolds(b, bs[1..]);
      LargestFirst(bs[0], Insert(b, bs[1..]), multiset(bs[1..]) + multiset{b});
    }
  }

  lemma LargestFirst(first: Box, rest: seq<Box>, all: multiset<Box>)
    requires Descending(rest) && multiset(rest) == all && forall x | x in all :: Area(first.at) >= Area(x.at)
    ensures Descending([first] + rest)
  {
    hide Area;
    forall j | 0 <= j < |rest|
      ensures Area(first.at) >= Area(rest[j].at)
    {
      assert rest[j] in multiset(rest);
    }
  }

  lemma {:induction false} SortSorts(bs: seq<Box>)
    ensures Descending(ByArea(bs)) && multiset(ByArea(bs)) == multiset(bs)
  {
    hide Area, Descending, Insert;
    if bs == [] {
      assert Descending([]) by { NothingDescends(); }
    } else {
      SortSorts(bs[1..]);
      InsertSorts(bs[0], ByArea(bs[1..]));
      InsertHolds(bs[0], ByArea(bs[1..]));
      assert bs == [bs[0]] + bs[1..];
    }
  }

  lemma NothingDescends()
    ensures Descending([])
  {
  }

  lemma InsertStep(b: Box, first: Box, rest: seq<Box>)
    requires Area(first.at) > Area(b.at)
    ensures Insert(b, [first] + rest) == [first] + Insert(b, rest)
  {
    hide Area;
    assert ([first] + rest)[1..] == rest;
  }

  lemma SortStep(b: Box, rest: seq<Box>)
    ensures ByArea([b] + rest) == Insert(b, ByArea(rest))
  {
    hide Insert;
    assert ([b] + rest)[1..] == rest;
  }

  lemma {:induction false} InsertFilter(keep: Box -> bool, b: Box, bs: seq<Box>)
    requires Descending(bs)
    ensures Filter(keep, Insert(b, bs)) == if keep(b) then Insert(b, Filter(keep, bs)) else Filter(keep, bs)
    decreases |bs|
  {
    hide Area;
    var kept := Filter(keep, bs);
    if bs == [] || Area(bs[0].at) <= Area(b.at) {
      assert ([b] + bs)[1..] == bs;
      if kept != [] {
        FilterMembers(keep, bs);
        assert kept[0] in kept;
      }
    } else {
      InsertFilter(keep, b, bs[1..]);
      assert ([bs[0]] + Insert(b, bs[1..]))[1..] == Insert(b, bs[1..]);
      var rest, longer := Filter(keep, bs[1..]), Filter(keep, Insert(b, bs[1..]));
      InsertStep(b, bs[0], rest);
      assert [] + rest == rest && [] + longer == longer;
    }
  }

  /** The sort is stable: it sorts a selection of the boxes as it sorts all of them. */
  lemma {:induction false} SortFilter(keep: Box -> bool, bs: seq<Box>)
    ensures Filter(keep, ByArea(bs)) == ByArea(Filter(keep, bs))
  {
    hide Area, Descending, Insert;
    if bs != [] {
      SortFilter(keep, bs[1..]);
      SortSorts(bs[1..]);
      InsertFilter(keep, bs[0], ByArea(bs[1..]));
      SortStep(bs[0], Filter(keep, bs[1..]));
      assert [] + Filter(keep, bs[1..]) == Filter(keep, bs[1..]);
    }
  }

  /** Boxes already in order stay as they are. */
  lemma {:induction false} SortedStays(bs: seq<Box>)
    requires Descending(bs)
    ensures ByArea(bs) == bs
  {
    hide Area;
    if bs != [] {
      SortedStays(bs[1..]);
    }
  }

  function OfArea(area: nat): Box -> bool {
    (b: Box) => Area(b.at) == area
  }

  /** The sort orders by area, loses and invents nothing, and keeps boxes of equal area in their order. */
  lemma SortIsStable(bs: seq<Box>, area: nat)
    ensures Descending(ByArea(bs)) && multiset(ByArea(bs)) == multiset(bs)
    ensures Filter(OfArea(area), ByArea(bs)) == Filter(OfArea(area), bs)
  {
    hide Area, ByArea, Filter;
    SortSorts(bs);
    SortFilter(OfArea(area), bs);
    FilterMembers(OfArea(area), bs);
    var equal := Filter(OfArea(area), bs);
    forall i | 0 <= i < |equal|
      ensures Area(equal[i].at) == area
    {
      assert equal[i] in equal;
    }
    SortedStays(equal);
  }

  // ---------- what the greedy pass does ----------

  /** No box is suppressed by an earlier one. */
  predicate Independent(rule: Rule, bs: seq<Box>) {
    forall i, j | 0 <= i < j < |bs| :: !Suppresses(rule, bs[i], bs[j])
  }

  /** `b` is kept, or a kept box of at least its area suppresses it. */
  predicate IsCovered(rule: Rule, b: Box, kept: seq<Box>) {
    b in kept || exists k | k in kept :: Suppresses(rule, k, b) && Area(k.at) >= Area(b.at)
  }

  lemma {:induction false} GreedyKeeps(rule: Rule, todo: seq<Box>, kept: seq<Box>)
    requires Independent(rule, kept) && Descending(kept + todo)
    ensures var r := Greedy(rule, todo, kept);
      && kept <= r && Independent(rule, r) && Descending(r)
      && IsSubsequence(r[|kept|..], todo)
      && forall b | b in kept + todo :: IsCovered(rule, b, r)
    decreases |todo|
  {
    hide Area, Suppresses;
    if todo == [] {
      assert kept + todo == kept;
    } else {
      var b := todo[0];
      if IsDuplicate(rule, b, kept) {
        SkipOne(kept, todo);
        GreedyKeeps(rule, todo[1..], kept);
        var r := Greedy(rule, todo[1..], kept);
        CoveredBy(rule, b, kept, r, todo);
      } else {
        assert (kept + [b]) + todo[1..] == kept + todo;
        GreedyKeeps(rule, todo[1..], kept + [b]);
        var r := Greedy(rule, todo[1..], kept + [b]);
        assert r[|kept|] == b && r[|kept|..][1..] == r[|kept| + 1..];
      }
    }
  }

  lemma SkipOne(kept: seq<Box>, todo: seq<Box>)
    requires todo != [] && Descending(kept + todo)
    ensures Descending(kept + todo[1..])
  {
    hide Area;
    var all, fewer := kept + todo, kept + todo[1..];
    forall i, j | 0 <= i < j < |fewer|
      ensures Area(fewer[i].at) >= Area(fewer[j].at)
    {
      assert fewer[i] == all[if i < |kept| then i else i + 1] && fewer[j] == all[if j < |kept| then j else j + 1];
    }
  }

  lemma CoveredBy(rule: Rule, b: Box, kept: seq<Box>, r: seq<Box>, todo: seq<Box>)
    requires todo != [] && todo[0] == b && Descending(kept + todo) && kept <= r && IsDuplicate(rule, b, kept)
    ensures IsCovered(rule, b, r)
  {
    hide Area, Suppresses;
    var i :| 0 <= i < |kept| && Suppresses(rule, kept[i], b);
    var all := kept + todo;
    assert Area(all[i].at) >= Area(all[|kept|].at);
    assert r[i] == kept[i] && r[i] in r;
  }

  /**
   Main result: the survivors are a subsequence of the boxes sorted by area, no survivor is
   suppressed by an earlier one, and every other box is suppressed by a survivor at least as large.
   */
  lemma SurvivorsAreGreedy(rule: Rule, boxes: seq<Box>)
    ensures var r := Survivors(rule, boxes);
      && IsSubsequence(r, ByArea(boxes)) && Descending(r)
      && Independent(rule, r)
      && forall b | b in boxes :: IsCovered(rule, b, r)
  {
    hide Area, Suppresses, ByArea, IsCovered, Greedy;
    SortSorts(boxes);
    GreedyKeeps(rule, ByArea(boxes), []);
    assert [] + ByArea(boxes) == ByArea(boxes);
    var r := Survivors(rule, boxes);
    assert r[0..] == r;
    forall b | b in boxes
      ensures IsCovered(rule, b, r)
    {
      assert b in multiset(boxes);
      assert b in ByArea(boxes);
    }
  }

  lemma {:induction false} GreedyKeepsAll(rule: Rule, todo: seq<Box>, kept: seq<Box>)
    requires Independent(rule, kept + todo)
    ensures Greedy(rule, todo, kept) == kept + todo
    decreases |todo|
  {
    hide Suppresses;
    if todo != [] {
      var all := kept + todo;
      forall k | k in kept
        ensures !Suppresses(rule, k, todo[0])
      {
        var i :| 0 <= i < |kept| && kept[i] == k;
        assert all[i] == k && all[|kept|] == todo[0];
      }
      assert (kept + [todo[0]]) + todo[1..] == all;
      GreedyKeepsAll(rule, todo[1..], kept + [todo[0]]);
    }
  }

  /** Main result: suppression is idempotent. */
  lemma SuppressTwice(rule: Rule, boxes: seq<Box>)
    ensures Survivors(rule, Survivors(rule, boxes)) == Survivors(rule, boxes)
  {
    SurvivorsAreGreedy(rule, boxes);
    var r := Survivors(rule, boxes);
    hide Survivors, ByArea, Greedy, Suppresses, Area;
    SortedStays(r);
    assert [] + r == r;
    GreedyKeepsAll(rule, r, []);
    SurvivorsOf(rule, r);
  }

  lemma SurvivorsOf(rule: Rule, boxes: seq<Box>)
    ensures Survivors(rule, boxes) == Greedy(rule, ByArea(boxes), [])
  {
  }

  // ---------- label by label ----------

  function OfLabel(name: Option<string>): Box -> bool {
    (b: Box) => b.name == name
  }

  lemma {:induction false} GreedyByLabel(rule: Rule, name: Option<string>, todo: seq<Box>, kept: seq<Box>)
    requires rule.labelAware
    ensures Filter(OfLabel(name), Greedy(rule, todo, kept))
         == Greedy(rule, Filter(OfLabel(name), todo), Filter(OfLabel(name), kept))
    decreases |todo|
  {
    hide Meets, Filter, IsDuplicate, Suppresses;
    FilterNothing(OfLabel(name));
    if todo != [] {
      var b := todo[0];
      FilterFirst(OfLabel(name), todo);
      FilterConcat(OfLabel(name), kept, [b]);
      FilterOne(OfLabel(name), b);
      DuplicateByLabel(rule, name, b, kept);
      var next := if IsDuplicate(rule, b, kept) then kept else kept + [b];
      GreedyByLabel(rule, name, todo[1..], next);
      if b.name == name {
        GreedyStep(rule, b, Filter(OfLabel(name), todo[1..]), Filter(OfLabel(name), kept));
      } else {
        assert Filter(OfLabel(name), kept) + [] == Filter(OfLabel(name), kept);
        assert [] + Filter(OfLabel(name), todo[1..]) == Filter(OfLabel(name), todo[1..]);
      }
    }
  }

  lemma GreedyStep(rule: Rule, b: Box, rest: seq<Box>, kept: seq<Box>)
    ensures var next := if IsDuplicate(rule, b, kept) then kept else kept + [b];
      Greedy(rule, [b] + rest, kept) == Greedy(rule, rest, next)
  {
    hide IsDuplicate;
    assert ([b] + rest)[1..] == rest;
  }

  /** Only boxes of the same label decide whether a box is kept. */
  lemma DuplicateByLabel(rule: Rule, name: Option<string>, b: Box, kept: seq<Box>)
    requires rule.labelAware
    ensures b.name == name ==> (IsDuplicate(rule, b, kept) <==> IsDuplicate(rule, b, Filter(OfLabel(name), kept)))
  {
    hide Meets, Filter;
    FilterMembers(OfLabel(name), kept);
  }

  /** Main result: label-aware suppression treats each label as if its boxes were alone. */
  lemma LabelsAreIndependent(rule: Rule, name: Option<string>, boxes: seq<Box>)
    requires rule.labelAware
    ensures Filter(OfLabel(name), Survivors(rule, boxes)) == Survivors(rule, Filter(OfLabel(name), boxes))
  {
    hide Filter, Greedy, ByArea;
    FilterNothing(OfLabel(name));
    SortFilter(OfLabel(name), boxes);
    GreedyByLabel(rule, name, ByArea(boxes), []);
  }

  // ---------- overlap in tile and image coordinates ----------

  lemma ProductOrder(a: nat, b: nat, c: nat, d: nat)
    requires a <= c && b <= d
    ensures a * b <= c * d
  {
    assert a * b <= c * b <= c * d;
  }

  /** The ratio lies in 0..1, is symmetric, and is the same in tile and in image coordinates. */
  lemma IouIsARatio(a: Corners, b: Corners, t: Tile)
    ensures 0 <= Iou(a, b).0 <= Iou(a, b).1 && Iou(a, b).1 > 0
    ensures Iou(a, b) == Iou(b, a)
    ensures Iou(RemapToGlobal(a, t), RemapToGlobal(b, t)) == Iou(a, b)
  {
    var w, h := Extent(Larger(a.x1, b.x1), Smaller(a.x2, b.x2)), Extent(Larger(a.y1, b.y1), Smaller(a.y2, b.y2));
    ProductOrder(w, h, Extent(a.x1, a.x2), Extent(a.y1, a.y2));
    ProductOrder(w, h, Extent(b.x1, b.x2), Extent(b.y1, b.y2));
  }

  // ---------- the ratio, cell by cell ----------

  /** The unit cells inside a box. */
  ghost function Cells(a: Corners): set<(int, int)> {
    set x: int, y: int | a.x1 <= x < a.x2 && a.y1 <= y < a.y2 :: (x, y)
  }

  lemma {:induction false} ColumnCells(x: int, y1: int, y2: int)
    ensures |Cells(Corners(x, y1, x + 1, y2))| == Extent(y1, y2)
    decreases if y2 > y1 then y2 - y1 else 0
  {
    var column := Cells(Corners(x, y1, x + 1, y2));
    if y2 > y1 {
      ColumnCells(x, y1, y2 - 1);
      assert column == Cells(Corners(x, y1, x + 1, y2 - 1)) + {(x, y2 - 1)};
    } else {
      assert column == {};
    }
  }

  lemma {:induction false} AreaIsCells(a: Corners)
    ensures |Cells(a)| == Area(a)
    decreases if a.x2 > a.x1 then a.x2 - a.x1 else 0
  {
    if a.x2 > a.x1 {
      var rest, last := Corners(a.x1, a.y1, a.x2 - 1, a.y2), Corners(a.x2 - 1, a.y1, a.x2, a.y2);
      AreaIsCells(rest);
      ColumnCells(a.x2 - 1, a.y1, a.y2);
      assert Cells(a) == Cells(rest) + Cells(last);
      assert Cells(rest) * Cells(last) == {};
      OneColumnMore(a.x2 - 1 - a.x1, Extent(a.y1, a.y2));
    } else {
      assert Cells(a) == {};
    }
  }

  lemma OneColumnMore(w: int, h: int)
    ensures (w + 1) * h == w * h + h
  {
  }

  lemma SharedCells(a: Corners, b: Corners)
    ensures |Cells(a) * Cells(b)| == Intersection(a, b)
  {
    var c := Corners(Larger(a.x1, b.x1), Larger(a.y1, b.y1), Smaller(a.x2, b.x2), Smaller(a.y2, b.y2));
    AreaIsCells(c);
    assert Cells(a) * Cells(b) == Cells(c);
  }

  /**
   Main result: the ratio is the cells in both boxes over the cells in either, or 0 if they share none.
   It is 1 exactly when the boxes are the same and not empty.
   */
  lemma IouCountsCells(a: Corners, b: Corners)
    ensures var both, either := Cells(a) * Cells(b), Cells(a) + Cells(b);
      Iou(a, b) == if both == {} then (0, 1) else (|both|, |either|)
    ensures Iou(a, b).0 == Iou(a, b).1 <==> a == b && Cells(a) != {}
  {
    hide Area, Intersection;
    AreaIsCells(a);
    AreaIsCells(b);
    SharedCells(a, b);
    var both, either := Cells(a) * Cells(b), Cells(a) + Cells(b);
    assert |either| == |Cells(a)| + |Cells(b)| - |both|;
    if a == b {
      assert both == Cells(a) && either == Cells(a);
    } else if both != {} && |both| == |either| {
      SameSize(both, either);
      assert Cells(a) == Cells(b);
      SameCells(a, b);
      assert false;
    }
  }

  lemma SameSize<T>(s: set<T>, t: set<T>)
    requires s <= t && |s| == |t|
    ensures s == t
  {
    assert |t - s| == 0;
  }

  lemma SameCells(a: Corners, b: Corners)
    requires Cells(a) == Cells(b) != {}
    ensures a == b
  {
    var c :| c in Cells(a);
    assert (a.x1, a.y1) in Cells(a) && (a.x2 - 1, a.y2 - 1) in Cells(a);
    assert (b.x1, b.y1) in Cells(b) && (b.x2 - 1, b.y2 - 1) in Cells(b);
    assert (a.x1, a.y1) in Cells(b) && (a.x2 - 1, a.y2 - 1) in Cells(b);
    assert (b.x1, b.y1) in Cells(a) && (b.x2 - 1, b.y2 - 1) in Cells(a);
  }

  /** Main result: who suppresses whom, and what is sorted first, by counting cells. */
  lemma SuppressesByCells(rule: Rule, k: Box, b: Box)
    ensures var both, either := Cells(b.at) * Cells(k.at), Cells(b.at) + Cells(k.at);
      Suppresses(rule, k, b) <==>
        && (rule.labelAware ==> b.name == k.name)
        && if both == {} then rule.num <= 0 else |both| * rule.den >= rule.num * |either|
    ensures Area(k.at) >= Area(b.at) <==> |Cells(k.at)| >= |Cells(b.at)|
  {
    hide Iou, Area, Cells;
    IouCountsCells(b.at, k.at);
    AreaIsCells(k.at);
    AreaIsCells(b.at);
  }
}

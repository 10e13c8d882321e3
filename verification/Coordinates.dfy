/**
 From coordinate tokens to boxes and points. Pixel coordinates are whole hundredths of a pixel:
 the source's `round(c / 1000.0 * side, 2)` is rounded here exactly, half to even.
 */
module Coordinates {
  datatype Rect = Rect(x1: nat, y1: nat, x2: nat, y2: nat)

  datatype Position = Position(x: nat, y: nat)

  /** A labelled box: normalised to 0..1000, and in hundredths of a source pixel. */
  datatype Detection = Detection(name: string, norm: Rect, px: Rect)

  datatype Point = Point(name: string, norm: Position, px: Position)

  const GRID: nat := 1000

  function ClampCoord(c: int): nat {
    if c < 0 then 0 else if c > GRID then GRID else c
  }

  /** `r` is an integer nearest to n/d, the even one of two. */
  predicate IsRounded(n: int, d: int, r: int) {
    && d > 0 && -d <= 2 * (n - r * d) <= d
    && (2 * (n - r * d) == d || 2 * (n - r * d) == -d ==> r % 2 == 0)
  }

  /** Python's `round`, of a fraction. */
  function RoundHalfEven(n: int, d: int): (r: int)
    requires d > 0
    ensures IsRounded(n, d, r)
  {
    var q, rest := n / d, n % d;
    assert n == q * d + rest;
    assert (q + 1) * d == q * d + d;
    if 2 * rest < d || (2 * rest == d && q % 2 == 0) then q else q + 1
  }

  lemma NonzeroMultiple(k: int, d: int)
    requires d > 0
    ensures k == 0 || k * d >= d || k * d <= -d
  {
    if k >= 1 {
      assert k * d >= 1 * d;
    } else if k <= -1 {
      assert -k * d >= 1 * d;
    }
  }

  lemma Nearest(n: int, d: int, r: int)
    requires d > 0 && -d < 2 * (n - r * d) < d
    ensures RoundHalfEven(n, d) == r
  {
    var k := RoundHalfEven(n, d) - r;
    assert (k + r) * d == k * d + r * d;
    NonzeroMultiple(k, d);
  }

  lemma TimesKeepsOrder(j: int, k: int, d: int)
    requires d > 0
    ensures j <= k ==> j * d <= k * d
  {
    if j <= k {
      assert (k - j) * d >= 0;
    }
  }

  lemma AtMostOne(k: int, d: int)
    requires d > 0 && -d <= k * d <= d
    ensures -1 <= k <= 1
  {
    TimesKeepsOrder(2, k, d);
    TimesKeepsOrder(k, -2, d);
  }

  lemma MultiplesStep(r: int, d: int)
    ensures (r + 1) * d == r * d + d && (r - 1) * d == r * d - d
  {
  }

  /** There is one such integer. */
  lemma RoundedOnce(n: int, d: int, r: int)
    requires IsRounded(n, d, r)
    ensures r == RoundHalfEven(n, d)
  {
    var s := RoundHalfEven(n, d);
    hide RoundHalfEven;
    assert (s - r) * d == s * d - r * d;
    AtMostOne(s - r, d);
    MultiplesStep(r, d);
  }

  /**
   The pixel value is the normalised one scaled to the side: within half a hundredth of
   `c * side / 1000`, and the even one of two that are equally near.
   */
  predicate IsScaled(c: nat, px: nat, side: nat) {
    && -5 <= c * side - 10 * px <= 5
    && (c * side - 10 * px == 5 || c * side - 10 * px == -5 ==> px % 2 == 0)
  }

  /** `round(c / 1000.0 * side, 2)` in hundredths. */
  function ToPixels(c: nat, side: nat): (px: nat)
    ensures IsScaled(c, px, side)
  {
    assert c * side >= 0;
    RoundHalfEven(c * side, 10)
  }

  lemma ToPixelsMonotone(a: nat, b: nat, side: nat)
    requires a <= b
    ensures ToPixels(a, side) <= ToPixels(b, side)
  {
    assert a * side <= b * side;
    RoundMonotone(a * side, b * side);
  }

  lemma RoundMonotone(m: int, n: int)
    requires m <= n
    ensures RoundHalfEven(m, 10) <= RoundHalfEven(n, 10)
  {
  }

  lemma ToPixelsInside(c: nat, side: nat)
    requires c <= GRID
    ensures ToPixels(c, side) <= 100 * side
  {
    ToPixelsMonotone(c, GRID, side);
  }

  function MakeBox(name: string, x1: nat, y1: nat, x2: nat, y2: nat, width: nat, height: nat): Detection {
    var a, b := ClampCoord(x1), ClampCoord(x2);
    var c, d := ClampCoord(y1), ClampCoord(y2);
    var (xlo, xhi) := if b < a then (b, a) else (a, b);
    var (ylo, yhi) := if d < c then (d, c) else (c, d);
    Detection(name, Rect(xlo, ylo, xhi, yhi),
      Rect(ToPixels(xlo, width), ToPixels(ylo, height), ToPixels(xhi, width), ToPixels(yhi, height)))
  }

  function MakePoint(name: string, x: nat, y: nat, width: nat, height: nat): Point {
    var xc, yc := ClampCoord(x), ClampCoord(y);
    Point(name, Position(xc, yc), Position(ToPixels(xc, width), ToPixels(yc, height)))
  }

  /** Normalised corners are sorted on the grid; pixel corners are these scaled, and sorted inside the image. */
  ghost predicate IsCanonical(b: Detection, width: nat, height: nat) {
    && b.norm.x1 <= b.norm.x2 <= GRID && b.norm.y1 <= b.norm.y2 <= GRID
    && b.px.x1 <= b.px.x2 <= 100 * width && b.px.y1 <= b.px.y2 <= 100 * height
    && IsScaled(b.norm.x1, b.px.x1, width) && IsScaled(b.norm.x2, b.px.x2, width)
    && IsScaled(b.norm.y1, b.px.y1, height) && IsScaled(b.norm.y2, b.px.y2, height)
  }

  /** `lo` and `hi` are the two tokens in order, each brought down to the grid of 0 to 1000. */
  predicate AreSides(lo: nat, hi: nat, a: nat, b: nat) {
    if a <= b then lo == OnGrid(a) && hi == OnGrid(b) else lo == OnGrid(b) && hi == OnGrid(a)
  }

  function OnGrid(c: nat): nat {
    if c <= 1000 then c else 1000
  }

  /** The box of a label and four tokens, in an image of that size. */
  ghost predicate IsBoxOf(
    b: Detection, name: string, x1: nat, y1: nat, x2: nat, y2: nat, width: nat, height: nat
  ) {
    && b.name == name
    && AreSides(b.norm.x1, b.norm.x2, x1, x2) && AreSides(b.norm.y1, b.norm.y2, y1, y2)
    && IsScaled(b.norm.x1, b.px.x1, width) && IsScaled(b.norm.x2, b.px.x2, width)
    && IsScaled(b.norm.y1, b.px.y1, height) && IsScaled(b.norm.y2, b.px.y2, height)
  }

  ghost predicate IsPointOf(p: Point, name: string, x: nat, y: nat, width: nat, height: nat) {
    && p.name == name && p.norm == Position(OnGrid(x), OnGrid(y))
    && IsScaled(p.norm.x, p.px.x, width) && IsScaled(p.norm.y, p.px.y, height)
  }

  ghost predicate IsInImage(p: Point, width: nat, height: nat) {
    && p.norm.x <= GRID && p.norm.y <= GRID
    && p.px.x <= 100 * width && p.px.y <= 100 * height
    && IsScaled(p.norm.x, p.px.x, width) && IsScaled(p.norm.y, p.px.y, height)
  }

  /** Only one pixel value is so scaled. */
  lemma ScaledOnce(c: nat, px: nat, side: nat)
    requires IsScaled(c, px, side)
    ensures px == ToPixels(c, side)
  {
  }

  lemma BoxIsCanonical(name: string, x1: nat, y1: nat, x2: nat, y2: nat, width: nat, height: nat)
    ensures IsCanonical(MakeBox(name, x1, y1, x2, y2, width, height), width, height)
    ensures IsBoxOf(MakeBox(name, x1, y1, x2, y2, width, height), name, x1, y1, x2, y2, width, height)
    ensures forall b :: IsBoxOf(b, name, x1, y1, x2, y2, width, height)
                    ==> b == MakeBox(name, x1, y1, x2, y2, width, height)
  {
    hide ToPixels, IsScaled;
    var b := MakeBox(name, x1, y1, x2, y2, width, height);
    ToPixelsMonotone(b.norm.x1, b.norm.x2, width);
    ToPixelsMonotone(b.norm.y1, b.norm.y2, height);
    ToPixelsInside(b.norm.x2, width);
    ToPixelsInside(b.norm.y2, height);
    forall d | IsBoxOf(d, name, x1, y1, x2, y2, width, height)
      ensures d == b
    {
      ScaledOnce(d.norm.x1, d.px.x1, width);
      ScaledOnce(d.norm.y1, d.px.y1, height);
      ScaledOnce(d.norm.x2, d.px.x2, width);
      ScaledOnce(d.norm.y2, d.px.y2, height);
    }
  }

  lemma PointIsPlaced(name: string, x: nat, y: nat, width: nat, height: nat)
    ensures IsInImage(MakePoint(name, x, y, width, height), width, height)
    ensures IsPointOf(MakePoint(name, x, y, width, height), name, x, y, width, height)
    ensures forall p :: IsPointOf(p, name, x, y, width, height) ==> p == MakePoint(name, x, y, width, height)
  {
    hide ToPixels, IsScaled;
    forall p | IsPointOf(p, name, x, y, width, height)
      ensures p == MakePoint(name, x, y, width, height)
    {
      ScaledOnce(p.norm.x, p.px.x, width);
      ScaledOnce(p.norm.y, p.px.y, height);
    }
    ToPixelsInside(ClampCoord(x), width);
    ToPixelsInside(ClampCoord(y), height);
  }

  /** Main result: on any side of at least ten pixels the rounded pixel value still determines the token. */
  lemma PixelsDetermineCoordinate(c: nat, side: nat)
    requires side >= 10
    ensures RoundHalfEven(10 * ToPixels(c, side), side) == c
  {
    if side == 10 {
      Nearest(c * side, 10, c);
    }
    Nearest(10 * ToPixels(c, side), side, c);
  }

  /** What the pixel value says the token was. */
  function TokenOf(px: nat, side: nat): int
    requires side > 0
  {
    RoundHalfEven(10 * px, side)
  }

  /** Main result: the pixel corners of a box tell the four tokens of the grid it was made from, up to the sorting. */
  lemma BoxTokensRecovered(name: string, x1: nat, y1: nat, x2: nat, y2: nat, width: nat, height: nat)
    requires x1 <= GRID && y1 <= GRID && x2 <= GRID && y2 <= GRID && width >= 10 && height >= 10
    ensures var px := MakeBox(name, x1, y1, x2, y2, width, height).px;
      && multiset{TokenOf(px.x1, width), TokenOf(px.x2, width)} == multiset{x1 as int, x2 as int}
      && multiset{TokenOf(px.y1, height), TokenOf(px.y2, height)} == multiset{y1 as int, y2 as int}
  {
    hide RoundHalfEven, ToPixels;
    PixelsDetermineCoordinate(x1, width);
    PixelsDetermineCoordinate(x2, width);
    PixelsDetermineCoordinate(y1, height);
    PixelsDetermineCoordinate(y2, height);
  }

  /** Main result: so do those of a point, in order. */
  lemma PointTokensRecovered(name: string, x: nat, y: nat, width: nat, height: nat)
    requires x <= GRID && y <= GRID && width >= 10 && height >= 10
    ensures var p := MakePoint(name, x, y, width, height);
      p.norm == Position(x, y) && TokenOf(p.px.x, width) == x && TokenOf(p.px.y, height) == y && p.name == name
  {
    hide RoundHalfEven, ToPixels;
    PixelsDetermineCoordinate(x, width);
    PixelsDetermineCoordinate(y, height);
  }

  /** Ten is the least such side: below it some two tokens of the grid share a pixel value. */
  lemma NarrowSidesLoseCoordinates(side: nat)
    ensures side < 10 <==> exists a: nat, b: nat :: a < b <= GRID && ToPixels(a, side) == ToPixels(b, side)
  {
    if side < 10 {
      var a := if side <= 5 then 0 else if side <= 7 then 1 else if side == 8 then 2 else 4;
      assert a + 1 <= GRID && ToPixels(a, side) == ToPixels(a + 1, side) by {
        if side == 6 { assert ToPixels(1, 6) == 1 == ToPixels(2, 6); }
        if side == 7 { assert ToPixels(1, 7) == 1 == ToPixels(2, 7); }
        if side == 8 { assert ToPixels(2, 8) == 2 == ToPixels(3, 8); }
        if side == 9 { assert ToPixels(4, 9) == 4 == ToPixels(5, 9); }
      }
    } else {
      forall a: nat, b: nat | a < b <= GRID
        ensures ToPixels(a, side) != ToPixels(b, side)
      {
        PixelsDetermineCoordinate(a, side);
        PixelsDetermineCoordinate(b, side);
      }
    }
  }
}

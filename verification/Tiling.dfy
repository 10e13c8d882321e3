/**
 The overlapping grid of tiles. Sizes are whole pixels and the overlap ratio is a fraction, so the
 boundaries are rounded exactly, half to even.
 */
module Tiling {
  import opened Wrappers
  import opened Coordinates

  /** A crop of the image: `x0`, `y0` inclusive, `x1`, `y1` exclusive. */
  datatype Tile = Tile(row: nat, col: nat, x0: int, y0: int, x1: int, y1: int)

  datatype GridError = NoRowsOrColumns | BadOverlap

  /** The ratio is in [0, 0.5). */
  predicate IsOverlap(num: int, den: int) {
    den > 0 && 0 <= num && 2 * num < den
  }

  /** `round(i * side / parts)`. */
  function Boundary(side: nat, parts: nat, i: nat): int
    requires parts > 0
  {
    RoundHalfEven(i * side, parts)
  }

  /** `round(side / parts * overlap)`. */
  function Pad(side: nat, parts: nat, num: int, den: int): int
    requires parts > 0 && den > 0
  {
    Positive(parts, den);
    RoundHalfEven(side * num, parts * den)
  }

  lemma Positive(a: nat, b: int)
    requires a > 0 && b > 0
    ensures a * b > 0
  {
  }

  function Low(side: nat, parts: nat, pad: int, i: nat): int
    requires parts > 0
  {
    var x := Boundary(side, parts, i) - pad;
    if x < 0 then 0 else x
  }

  function High(side: nat, parts: nat, pad: int, i: nat): int
    requires parts > 0
  {
    var x := Boundary(side, parts, i + 1) + pad;
    if x > side then side else x
  }

  function TileAt(width: nat, height: nat, rows: nat, cols: nat, num: int, den: int, r: nat, c: nat): Tile
    requires rows > 0 && cols > 0 && den > 0
  {
    var px, py := Pad(width, cols, num, den), Pad(height, rows, num, den);
    Tile(r, c, Low(width, cols, px, c), Low(height, rows, py, r), High(width, cols, px, c), High(height, rows, py, r))
  }

  /** The tiles row by row. */
  function Tiles(width: nat, height: nat, rows: nat, cols: nat, num: int, den: int): (ts: seq<Tile>)
    requires rows > 0 && cols > 0 && den > 0
    ensures |ts| == rows * cols
  {
    seq(rows * cols, k requires 0 <= k < rows * cols => Nth(width, height, rows, cols, num, den, k))
  }

  function Nth(width: nat, height: nat, rows: nat, cols: nat, num: int, den: int, k: nat): Tile
    requires rows > 0 && cols > 0 && den > 0
  {
    TileAt(width, height, rows, cols, num, den, k / cols, k % cols)
  }

  lemma RowAndColumn(cols: nat, r: nat, c: nat)
    requires c < cols
    ensures (r * cols + c) / cols == r && (r * cols + c) % cols == c
  {
    var k := r * cols + c;
    assert (k / cols) * cols + k % cols == k;
    SameQuotient(cols, k / cols, k % cols, r, c);
  }

  lemma SameQuotient(d: nat, q: int, m: nat, r: int, c: nat)
    requires m < d && c < d && q * d + m == r * d + c
    ensures q == r && m == c
  {
    assert (q - r) * d == c - m;
    NonzeroMultiple(q - r, d);
  }

  method Grid(width: nat, height: nat, rows: int, cols: int, num: int, den: int)
    returns (r: Result<seq<Tile>, GridError>)
    requires den > 0
    ensures r.Ok? <==> rows >= 1 && cols >= 1 && 0 <= num && 2 * num < den
    ensures r == Err(NoRowsOrColumns) <==> rows < 1 || cols < 1
    ensures r.Ok? ==> r.value == Tiles(width, height, rows, cols, num, den)
  {
    hide Boundary, Pad;
    if rows < 1 || cols < 1 { return Err(NoRowsOrColumns); }
    if num < 0 || 2 * num >= den { return Err(BadOverlap); }
    var padX, padY := Pad(width, cols, num, den), Pad(height, rows, num, den);
    var out := [];
    for i := 0 to rows
      invariant |out| == i * cols
      invariant forall k | 0 <= k < |out| :: out[k] == Nth(width, height, rows, cols, num, den, k)
    {
      for j := 0 to cols
        invariant |out| == i * cols + j
        invariant forall k | 0 <= k < |out| :: out[k] == Nth(width, height, rows, cols, num, den, k)
      {
        RowAndColumn(cols, i, j);
        var x0, y0 := Low(width, cols, padX, j), Low(height, rows, padY, i);
        var x1, y1 := High(width, cols, padX, j), High(height, rows, padY, i);
        out := out + [Tile(i, j, x0, y0, x1, y1)];
      }
    }
    return Ok(out);
  }

  // ---------- one axis ----------

  lemma BoundaryEnds(side: nat, parts: nat)
    requires parts > 0
    ensures Boundary(side, parts, 0) == 0 && Boundary(side, parts, parts) == side
  {
    Nearest(0, parts, 0);
    assert parts * side - side * parts == 0;
    Nearest(parts * side, parts, side);
  }

  /** Rounding half to even keeps the order. */
  lemma RoundKeepsOrder(m: int, n: int, d: int)
    requires d > 0 && m <= n
    ensures RoundHalfEven(m, d) <= RoundHalfEven(n, d)
  {
    hide RoundHalfEven;
    var a, b := RoundHalfEven(m, d), RoundHalfEven(n, d);
    if a > b {
      Distribute(a, b, d);
      NonzeroMultiple(a - b, d);
      NonzeroMultiple(a - b - 1, d);
    }
  }

  lemma Distribute(a: int, b: int, d: int)
    ensures (a - b) * d == a * d - b * d && (a - b - 1) * d == a * d - b * d - d
  {
  }

  /** And numbers more than one apart keep apart. */
  lemma RoundKeepsApart(m: int, n: int, d: int)
    requires d > 0 && n - m > d
    ensures RoundHalfEven(m, d) < RoundHalfEven(n, d)
  {
    hide RoundHalfEven;
    var a, b := RoundHalfEven(m, d), RoundHalfEven(n, d);
    if a >= b {
      Distribute(a, b, d);
      NonzeroMultiple(a - b, d);
    }
  }

  lemma BoundaryOrder(side: nat, parts: nat, i: nat, j: nat)
    requires parts > 0 && i <= j
    ensures Boundary(side, parts, i) <= Boundary(side, parts, j)
  {
    assert i * side <= j * side;
    RoundKeepsOrder(i * side, j * side, parts);
  }

  lemma BoundaryStep(side: nat, parts: nat, i: nat)
    requires parts > 0 && side >= parts
    ensures Boundary(side, parts, i) < Boundary(side, parts, i + 1)
  {
    assert (i + 1) * side == i * side + side;
    if side > parts {
      RoundKeepsApart(i * side, (i + 1) * side, parts);
    } else {
      Nearest(i * side, parts, i);
      Nearest((i + 1) * side, parts, i + 1);
    }
  }

  /** With fewer pixels than parts, some part gets none. */
  lemma {:induction false} SomePartEmpty(side: nat, parts: nat, n: nat) returns (i: nat)
    requires parts > 0 && n <= parts && Boundary(side, parts, n) < n
    ensures i < n && Boundary(side, parts, i) == Boundary(side, parts, i + 1)
    decreases n
  {
    hide Boundary;
    BoundaryEnds(side, parts);
    i := n - 1;
    BoundaryOrder(side, parts, n - 1, n);
    if Boundary(side, parts, n - 1) < Boundary(side, parts, n) {
      i := SomePartEmpty(side, parts, n - 1);
    }
  }

  lemma PadBounds(side: nat, parts: nat, num: int, den: int)
    requires parts > 0 && IsOverlap(num, den)
    ensures Pad(side, parts, num, den) >= 0
    ensures side < parts ==> Pad(side, parts, num, den) == 0
  {
    hide RoundHalfEven;
    Positive(parts, den);
    var n, d := side * num, parts * den;
    BelowHalf(side, parts, num, den);
    RoundKeepsOrder(0, n, d);
    Nearest(0, d, 0);
    if side < parts {
      Nearest(n, d, 0);
    }
  }

  lemma BelowHalf(side: nat, parts: nat, num: int, den: int)
    requires parts > 0 && IsOverlap(num, den)
    ensures 0 <= side * num
    ensures side < parts ==> 2 * (side * num) < parts * den
  {
    Positive(parts, den - 2 * num);
    assert parts * (den - 2 * num) == parts * den - 2 * (parts * num);
    if side < parts {
      assert (parts - side) * num >= 0;
      assert (parts - side) * num == parts * num - side * num;
    }
  }

  lemma AxisInside(side: nat, parts: nat, pad: nat, i: nat)
    requires i < parts
    ensures 0 <= Low(side, parts, pad, i) <= High(side, parts, pad, i) <= side
    ensures side >= parts ==> Low(side, parts, pad, i) < High(side, parts, pad, i)
  {
    hide Boundary;
    BoundaryEnds(side, parts);
    BoundaryOrder(side, parts, 0, i);
    BoundaryOrder(side, parts, i, i + 1);
    BoundaryOrder(side, parts, i + 1, parts);
    if side >= parts {
      BoundaryStep(side, parts, i);
    }
  }

  /** Every interval of at most twice the pad and one more lies in one part. */
  lemma {:induction false} AxisContains(side: nat, parts: nat, pad: nat, l: nat, n: nat, k: nat) returns (i: nat)
    requires k < parts && l + n <= side && n <= 2 * pad + 1
    requires k + 1 < parts ==> Boundary(side, parts, k + 1) - pad > l
    ensures i < parts && Low(side, parts, pad, i) <= l && l + n <= High(side, parts, pad, i)
    decreases k
  {
    hide Boundary;
    BoundaryEnds(side, parts);
    if Boundary(side, parts, k) - pad <= l {
      i := k;
    } else {
      i := AxisContains(side, parts, pad, l, n, k - 1);
    }
  }

  // ---------- the grid ----------

  lemma IndexSplits(rows: nat, cols: nat, k: nat)
    requires cols > 0 && k < rows * cols
    ensures 0 <= k / cols < rows && 0 <= k % cols < cols
  {
    var q := k / cols;
    assert q * cols + k % cols == k;
    Distribute(rows, q, cols);
    NonzeroMultiple(rows - q, cols);
  }

  lemma IndexJoins(rows: nat, cols: nat, r: nat, c: nat)
    requires r < rows && c < cols
    ensures r * cols + c < rows * cols
  {
    Distribute(rows, r, cols);
    NonzeroMultiple(rows - r, cols);
  }

  lemma TileIsAxes(width: nat, height: nat, rows: nat, cols: nat, num: int, den: int, t: Tile)
    requires rows > 0 && cols > 0 && den > 0 && t in Tiles(width, height, rows, cols, num, den)
    ensures t.row < rows && t.col < cols && t == TileAt(width, height, rows, cols, num, den, t.row, t.col)
  {
    hide Low, High, Pad;
    var ts := Tiles(width, height, rows, cols, num, den);
    var k :| 0 <= k < |ts| && ts[k] == t;
    IndexSplits(rows, cols, k);
  }

  lemma TileIsThere(width: nat, height: nat, rows: nat, cols: nat, num: int, den: int, r: nat, c: nat)
    requires r < rows && c < cols && den > 0
    ensures TileAt(width, height, rows, cols, num, den, r, c) in Tiles(width, height, rows, cols, num, den)
  {
    hide TileAt;
    IndexJoins(rows, cols, r, c);
    RowAndColumn(cols, r, c);
    var k := r * cols + c;
    assert Tiles(width, height, rows, cols, num, den)[k] == Nth(width, height, rows, cols, num, den, k);
  }

  /** Main result: tiles lie in the image, and none is empty exactly when there is a pixel for each row and column. */
  lemma TilesInImage(width: nat, height: nat, rows: nat, cols: nat, num: int, den: int)
    requires rows > 0 && cols > 0 && IsOverlap(num, den)
    ensures forall t | t in Tiles(width, height, rows, cols, num, den) ::
      0 <= t.x0 <= t.x1 <= width && 0 <= t.y0 <= t.y1 <= height
    ensures (forall t | t in Tiles(width, height, rows, cols, num, den) :: t.x0 < t.x1 && t.y0 < t.y1)
       <==> width >= cols && height >= rows
  {
    hide Low, High, Pad, Tiles;
    var ts := Tiles(width, height, rows, cols, num, den);
    PadBounds(width, cols, num, den);
    PadBounds(height, rows, num, den);
    forall t | t in ts
      ensures 0 <= t.x0 <= t.x1 <= width && 0 <= t.y0 <= t.y1 <= height
      ensures width >= cols && height >= rows ==> t.x0 < t.x1 && t.y0 < t.y1
    {
      TileIsAxes(width, height, rows, cols, num, den, t);
      AxisInside(width, cols, Pad(width, cols, num, den), t.col);
      AxisInside(height, rows, Pad(height, rows, num, den), t.row);
    }
    if width < cols {
      var c := EmptyPart(width, cols);
      TileIsThere(width, height, rows, cols, num, den, 0, c);
    } else if height < rows {
      var r := EmptyPart(height, rows);
      TileIsThere(width, height, rows, cols, num, den, r, 0);
    }
  }

  lemma EmptyPart(side: nat, parts: nat) returns (i: nat)
    requires side < parts
    ensures i < parts && Low(side, parts, 0, i) == High(side, parts, 0, i)
  {
    hide Boundary;
    BoundaryEnds(side, parts);
    i := SomePartEmpty(side, parts, parts);
    BoundaryOrder(side, parts, 0, i);
    BoundaryOrder(side, parts, i + 1, parts);
  }

  predicate Contains(t: Tile, x: nat, y: nat, w: nat, h: nat) {
    t.x0 <= x && x + w <= t.x1 && t.y0 <= y && y + h <= t.y1
  }

  /** The pad is the overlap ratio of a part of the side, to the nearest pixel. */
  predicate IsPad(side: nat, parts: nat, num: int, den: int, pad: int) {
    IsRounded(side * num, parts * den, pad)
  }

  /** The `i`-th boundary is `i` parts of the side, to the nearest pixel. */
  predicate IsBoundary(side: nat, parts: nat, i: nat, b: int) {
    IsRounded(i * side, parts, b)
  }

  lemma PadOnce(side: nat, parts: nat, num: int, den: int, pad: int)
    requires parts > 0 && den > 0
    ensures IsPad(side, parts, num, den, pad) <==> pad == Pad(side, parts, num, den)
  {
    hide RoundHalfEven, IsRounded;
    Positive(parts, den);
    if IsPad(side, parts, num, den, pad) {
      RoundedOnce(side * num, parts * den, pad);
    }
  }

  lemma BoundaryOnce(side: nat, parts: nat, i: nat, b: int)
    requires parts > 0
    ensures IsBoundary(side, parts, i, b) <==> b == Boundary(side, parts, i)
  {
    hide RoundHalfEven, IsRounded;
    if IsBoundary(side, parts, i, b) {
      RoundedOnce(i * side, parts, b);
    }
  }

  /** From one boundary to the next, and the pad on both sides as far as there is room. */
  predicate IsPart(side: nat, parts: nat, num: int, den: int, i: nat, lo: int, hi: int, pad: int, b: int, c: int) {
    && IsPad(side, parts, num, den, pad) && IsBoundary(side, parts, i, b) && IsBoundary(side, parts, i + 1, c)
    && lo == (if b - pad < 0 then 0 else b - pad)
    && hi == (if c + pad > side then side else c + pad)
  }

  /** Main result: where each tile begins and ends, from the ratio alone; and the tiles are in rows. */
  lemma TileByRatio(width: nat, height: nat, rows: nat, cols: nat, num: int, den: int, r: nat, c: nat)
    requires r < rows && c < cols && den > 0
    ensures r * cols + c < rows * cols
    ensures var t := Tiles(width, height, rows, cols, num, den)[r * cols + c];
      && t.row == r && t.col == c
      && (exists pad, b, e :: IsPart(width, cols, num, den, c, t.x0, t.x1, pad, b, e))
      && (exists pad, b, e :: IsPart(height, rows, num, den, r, t.y0, t.y1, pad, b, e))
  {
    IndexJoins(rows, cols, r, c);
    RowAndColumn(cols, r, c);
    var t := Tiles(width, height, rows, cols, num, den)[r * cols + c];
    PartOfAxis(width, cols, num, den, c);
    PartOfAxis(height, rows, num, den, r);
  }

  lemma PartOfAxis(side: nat, parts: nat, num: int, den: int, i: nat)
    requires i < parts && den > 0
    ensures var pad := Pad(side, parts, num, den);
      IsPart(side, parts, num, den, i, Low(side, parts, pad, i), High(side, parts, pad, i), pad,
        Boundary(side, parts, i), Boundary(side, parts, i + 1))
  {
    hide Pad, Boundary, IsPad, IsBoundary;
    PadOnce(side, parts, num, den, Pad(side, parts, num, den));
    BoundaryOnce(side, parts, i, Boundary(side, parts, i));
    BoundaryOnce(side, parts, i + 1, Boundary(side, parts, i + 1));
  }

  /** Main result: neighbours with room at their common boundary share twice the pad. */
  lemma NeighboursShare(
    width: nat, height: nat, rows: nat, cols: nat, num: int, den: int, t: Tile, u: Tile, pad: int
  )
    requires rows > 0 && cols > 0 && den > 0
    requires t in Tiles(width, height, rows, cols, num, den) && u in Tiles(width, height, rows, cols, num, den)
    ensures IsPad(width, cols, num, den, pad) && u.col == t.col + 1 && 0 < u.x0 && t.x1 < width ==>
      t.x1 - u.x0 == 2 * pad
    ensures IsPad(height, rows, num, den, pad) && u.row == t.row + 1 && 0 < u.y0 && t.y1 < height ==>
      t.y1 - u.y0 == 2 * pad
  {
    hide Tiles, Pad, Boundary, IsPad;
    TileIsAxes(width, height, rows, cols, num, den, t);
    TileIsAxes(width, height, rows, cols, num, den, u);
    PadOnce(width, cols, num, den, pad);
    PadOnce(height, rows, num, den, pad);
  }

  /**
   Main result: every rectangle in the image of at most `2 * pad + 1` pixels a side lies wholly in
   one tile. With `w == h == 1` this says that the tiles cover the image.
   */
  lemma EveryRectangleInATile(
    width: nat, height: nat, rows: nat, cols: nat, num: int, den: int, padX: int, padY: int,
    x: nat, y: nat, w: nat, h: nat
  )
    requires rows > 0 && cols > 0 && IsOverlap(num, den)
    requires IsPad(width, cols, num, den, padX) && IsPad(height, rows, num, den, padY)
    requires x + w <= width && y + h <= height && w <= 2 * padX + 1 && h <= 2 * padY + 1
    ensures exists t | t in Tiles(width, height, rows, cols, num, den) :: Contains(t, x, y, w, h)
  {
    hide Low, High, Pad, Tiles, IsPad;
    PadOnce(width, cols, num, den, padX);
    PadOnce(height, rows, num, den, padY);
    PadBounds(width, cols, num, den);
    PadBounds(height, rows, num, den);
    var c := AxisContains(width, cols, padX, x, w, cols - 1);
    var r := AxisContains(height, rows, padY, y, h, rows - 1);
    TileIsThere(width, height, rows, cols, num, den, r, c);
  }

  /** In terms of the ratio: sides up to twice the overlap share of a part are within that bound. */
  lemma SharesFit(side: nat, parts: nat, num: int, den: int, pad: int, w: nat)
    requires IsPad(side, parts, num, den, pad) && w * (parts * den) <= 2 * (side * num)
    ensures w <= 2 * pad + 1
  {
    var d := parts * den;
    TimesKeepsOrder(2 * pad + 2, w, d);
    assert (2 * pad + 2) * d == 2 * (pad * d) + 2 * d;
  }

  /** An interval of one pixel more, around a boundary with room on both sides, lies in no part. */
  lemma WiderInNoPart(side: nat, parts: nat, pad: nat, c: nat, i: nat)
    requires 0 < c < parts && i < parts
    requires pad + 1 <= Boundary(side, parts, c) && Boundary(side, parts, c) + pad + 1 <= side
    ensures var b := Boundary(side, parts, c);
      !(Low(side, parts, pad, i) <= b - pad - 1 && b + pad + 1 <= High(side, parts, pad, i))
  {
    hide Boundary;
    if i < c {
      BoundaryOrder(side, parts, i + 1, c);
    } else {
      BoundaryOrder(side, parts, c, i);
    }
  }

  /** The `i`-th boundary is inside the image, with room for one pixel more than the pad on both sides. */
  predicate HasRoom(side: nat, parts: nat, i: nat, pad: int, b: int) {
    0 < i < parts && pad + 1 <= b && b + pad + 1 <= side
  }

  /** The bound is sharp: one pixel more, around a boundary between columns or rows, fits in no tile. */
  lemma WiderFitsNowhere(
    width: nat, height: nat, rows: nat, cols: nat, num: int, den: int, i: nat, t: Tile, pad: int, b: int
  )
    requires rows > 0 && cols > 0 && IsOverlap(num, den)
    requires t in Tiles(width, height, rows, cols, num, den)
    ensures IsPad(width, cols, num, den, pad) && IsBoundary(width, cols, i, b) && HasRoom(width, cols, i, pad, b) ==>
      !(t.x0 <= b - pad - 1 && b + pad + 1 <= t.x1)
    ensures IsPad(height, rows, num, den, pad) && IsBoundary(height, rows, i, b) && HasRoom(height, rows, i, pad, b) ==>
      !(t.y0 <= b - pad - 1 && b + pad + 1 <= t.y1)
  {
    hide Boundary, Pad, Tiles, Low, High, IsPad, IsBoundary;
    TileIsAxes(width, height, rows, cols, num, den, t);
    if IsPad(width, cols, num, den, pad) && IsBoundary(width, cols, i, b) && HasRoom(width, cols, i, pad, b) {
      PadBounds(width, cols, num, den);
      PadOnce(width, cols, num, den, pad);
      BoundaryOnce(width, cols, i, b);
      WiderInNoPart(width, cols, pad, i, t.col);
    }
    if IsPad(height, rows, num, den, pad) && IsBoundary(height, rows, i, b) && HasRoom(height, rows, i, pad, b) {
      PadBounds(height, rows, num, den);
      PadOnce(height, rows, num, den, pad);
      BoundaryOnce(height, rows, i, b);
      WiderInNoPart(height, rows, pad, i, t.row);
    }
  }

  // ---------- tile coordinates ----------

  datatype Corners = Corners(x1: int, y1: int, x2: int, y2: int)

  /** From tile-local to image coordinates. */
  function RemapToGlobal(b: Corners, t: Tile): Corners {
    Corners(t.x0 + b.x1, t.y0 + b.y1, t.x0 + b.x2, t.y0 + b.y2)
  }

  predicate IsLocal(b: Corners, t: Tile) {
    0 <= b.x1 <= b.x2 <= t.x1 - t.x0 && 0 <= b.y1 <= b.y2 <= t.y1 - t.y0
  }

  /** Some box inside some tile is mapped to `g`. */
  ghost predicate IsSeen(width: nat, height: nat, rows: nat, cols: nat, num: int, den: int, g: Corners)
    requires rows > 0 && cols > 0 && den > 0
  {
    exists t, b :: t in Tiles(width, height, rows, cols, num, den) && IsLocal(b, t) && RemapToGlobal(b, t) == g
  }

  predicate IsRectangle(width: nat, height: nat, g: Corners) {
    0 <= g.x1 <= g.x2 <= width && 0 <= g.y1 <= g.y2 <= height
  }

  /**
   Main result: every rectangle of the image of at most `2 * pad + 1` pixels a side is what some box
   inside some tile is mapped to, and a box inside a tile is only ever mapped to a rectangle of the image.
   */
  lemma EveryRectangleIsSeen(
    width: nat, height: nat, rows: nat, cols: nat, num: int, den: int, padX: int, padY: int, g: Corners
  )
    requires rows > 0 && cols > 0 && IsOverlap(num, den)
    requires IsPad(width, cols, num, den, padX) && IsPad(height, rows, num, den, padY)
    ensures IsRectangle(width, height, g) && g.x2 - g.x1 <= 2 * padX + 1 && g.y2 - g.y1 <= 2 * padY + 1 ==>
      IsSeen(width, height, rows, cols, num, den, g)
    ensures IsSeen(width, height, rows, cols, num, den, g) ==> IsRectangle(width, height, g)
  {
    hide Tiles, IsPad;
    TilesInImage(width, height, rows, cols, num, den);
    var w, h := g.x2 - g.x1, g.y2 - g.y1;
    if IsRectangle(width, height, g) && w <= 2 * padX + 1 && h <= 2 * padY + 1 {
      EveryRectangleInATile(width, height, rows, cols, num, den, padX, padY, g.x1, g.y1, w, h);
      var t :| t in Tiles(width, height, rows, cols, num, den) && Contains(t, g.x1, g.y1, w, h);
      var b := Corners(g.x1 - t.x0, g.y1 - t.y0, g.x2 - t.x0, g.y2 - t.y0);
      assert IsLocal(b, t) && RemapToGlobal(b, t) == g;
    }
  }
}

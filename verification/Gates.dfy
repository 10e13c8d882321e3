/**
 The image limits, written three times in the source: at the edge, in the worker, and in the resize
 plan. They agree, and they bound the tokens an image can cost.
 */
module Gates {
  import opened Wrappers
  import opened Coordinates

  const PATCH_PX: nat := 14
  const LLM_TOKEN_PX: nat := 28
  const IN_TOKEN_LIMIT: nat := 25_600
  const POS_EMB_PATCH_CAP: nat := 512
  const MIN_IMAGE_DIM: nat := 32

  function DivCeil(n: nat, d: nat): nat
    requires d > 0
  {
    (n + d - 1) / d
  }

  // ---------- the edge ----------

  datatype SizeError = TooSmall | TooBig | TooManyPatches | BeyondEmbedding

  /** The size checks of `process_binary`; `cap` is the configured largest side. */
  function EdgeGate(w: nat, h: nat, cap: nat): Option<SizeError> {
    if w < MIN_IMAGE_DIM || h < MIN_IMAGE_DIM then Some(TooSmall)
    else if w > cap || h > cap then Some(TooBig)
    else if (w / PATCH_PX) * (h / PATCH_PX) > IN_TOKEN_LIMIT then Some(TooManyPatches)
    else
      var targetW, targetH := DivCeil(w, LLM_TOKEN_PX) * LLM_TOKEN_PX, DivCeil(h, LLM_TOKEN_PX) * LLM_TOKEN_PX;
      if targetW / PATCH_PX >= POS_EMB_PATCH_CAP || targetH / PATCH_PX >= POS_EMB_PATCH_CAP then Some(BeyondEmbedding)
      else None
  }

  // ---------- the worker ----------

  /** The gates of `run`, in the worker's own arithmetic. */
  function WorkerGate(w: nat, h: nat): Option<SizeError> {
    if (w / PATCH_PX) * (h / PATCH_PX) > IN_TOKEN_LIMIT then Some(TooManyPatches)
    else
      var targetW := ((w + LLM_TOKEN_PX - 1) / LLM_TOKEN_PX) * LLM_TOKEN_PX;
      var targetH := ((h + LLM_TOKEN_PX - 1) / LLM_TOKEN_PX) * LLM_TOKEN_PX;
      var wp, hp := targetW / PATCH_PX, targetH / PATCH_PX;
      if wp >= POS_EMB_PATCH_CAP || hp >= POS_EMB_PATCH_CAP then Some(BeyondEmbedding) else None
  }

  // ---------- the resize plan ----------

  datatype ImageResize = ImageResize(
    srcW: int, srcH: int, dstW: int, dstH: int, patchesW: int, patchesH: int, llmTokens: int)

  datatype PlanError = NotPositive | ExceedsPatches

  /** `plan_resize`. `shrink` stands for the square-root downscale, which is floating point. */
  function PlanResize(shrink: (int, int) -> (int, int), width: int, height: int): Result<ImageResize, PlanError> {
    if width <= 0 || height <= 0 then Err(NotPositive)
    else
      var tooMany := (width / PATCH_PX) * (height / PATCH_PX) > IN_TOKEN_LIMIT;
      var (w, h) := if tooMany then shrink(width, height) else (width, height);
      var dstW := ((w + LLM_TOKEN_PX - 1) / LLM_TOKEN_PX) * LLM_TOKEN_PX;
      var dstH := ((h + LLM_TOKEN_PX - 1) / LLM_TOKEN_PX) * LLM_TOKEN_PX;
      var pw, ph := dstW / PATCH_PX, dstH / PATCH_PX;
      if pw >= POS_EMB_PATCH_CAP || ph >= POS_EMB_PATCH_CAP then Err(ExceedsPatches)
      else Ok(ImageResize(width, height, dstW, dstH, pw, ph, (pw * ph) / 4))
  }

  // ---------- agreement ----------

  /** The edge accepts a size exactly when it is in range and the worker's gates let it through. */
  lemma EdgeIsWorkerInRange(w: nat, h: nat, cap: nat)
    ensures EdgeGate(w, h, cap).None?
       <==> MIN_IMAGE_DIM <= w <= cap && MIN_IMAGE_DIM <= h <= cap && WorkerGate(w, h).None?
  {
  }

  /** In plain numbers: sides of 32 to the cap and to 7140 pixels, and at most 25600 patches of 14 by 14. */
  lemma EdgeGateIff(w: nat, h: nat, cap: nat)
    ensures EdgeGate(w, h, cap).None? <==>
      32 <= w <= cap && 32 <= h <= cap && w <= 7140 && h <= 7140 && (w / 14) * (h / 14) <= 25_600
    ensures EdgeGate(w, h, cap) == Some(TooSmall) <==> w < 32 || h < 32
  {
    NextMultiple(w);
    NextMultiple(h);
  }

  /** The next multiple of 28, and its patches. */
  lemma NextMultiple(w: nat)
    ensures var c := DivCeil(w, LLM_TOKEN_PX);
      c == (w + LLM_TOKEN_PX - 1) / LLM_TOKEN_PX && w <= c * LLM_TOKEN_PX < w + LLM_TOKEN_PX
      && (c * LLM_TOKEN_PX) % LLM_TOKEN_PX == 0 && (c * LLM_TOKEN_PX) / PATCH_PX == 2 * c
  {
  }

  lemma QuarterOfGrid(a: nat, b: nat)
    ensures ((2 * a) * (2 * b)) / 4 == a * b
  {
    assert (2 * a) * (2 * b) == 4 * (a * b);
  }

  /**
   Main result: what the edge accepts passes the worker's gates, and is planned without downscaling:
   each side goes up to the next multiple of 28, and the cost is one token for each square of 28.
   */
  lemma AcceptedIsPlanned(shrink: (int, int) -> (int, int), w: nat, h: nat, cap: nat)
    requires EdgeGate(w, h, cap).None?
    ensures WorkerGate(w, h).None?
    ensures PlanResize(shrink, w, h).Ok?
    ensures var p := PlanResize(shrink, w, h).value;
      && p.srcW == w && p.srcH == h
      && p.llmTokens == DivCeil(w, LLM_TOKEN_PX) * DivCeil(h, LLM_TOKEN_PX)
      && w <= p.dstW < w + 28 && h <= p.dstH < h + 28 && p.dstW % 28 == 0 && p.dstH % 28 == 0
      && p.dstW == 14 * p.patchesW && p.dstH == 14 * p.patchesH
      && 784 * p.llmTokens == p.dstW * p.dstH
  {
    EdgeIsWorkerInRange(w, h, cap);
    PlanOfGated(shrink, w, h);
    NextMultiple(w);
    NextMultiple(h);
    hide PlanResize, WorkerGate, EdgeGate, DivCeil;
    QuarterOfGrid(DivCeil(w, LLM_TOKEN_PX), DivCeil(h, LLM_TOKEN_PX));
    CellsOfGrid(DivCeil(w, LLM_TOKEN_PX), DivCeil(h, LLM_TOKEN_PX));
  }

  lemma CellsOfGrid(a: nat, b: nat)
    ensures (a * 28) * (b * 28) == 784 * (a * b)
  {
    assert (a * 28) * (b * 28) == a * (28 * (b * 28));
  }

  /** What the worker's gates let through is planned as it is. */
  lemma PlanOfGated(shrink: (int, int) -> (int, int), w: nat, h: nat)
    requires WorkerGate(w, h).None? && w > 0 && h > 0
    ensures var dstW, dstH := DivCeil(w, LLM_TOKEN_PX) * LLM_TOKEN_PX, DivCeil(h, LLM_TOKEN_PX) * LLM_TOKEN_PX;
      var pw, ph := dstW / PATCH_PX, dstH / PATCH_PX;
      PlanResize(shrink, w, h) == Ok(ImageResize(w, h, dstW, dstH, pw, ph, (pw * ph) / 4))
  {
  }

  /** On any size: what is planned, the downscale aside, and which sizes are not. */
  lemma PlanIff(shrink: (int, int) -> (int, int), w: int, h: int)
    ensures PlanResize(shrink, w, h) == Err(NotPositive) <==> w <= 0 || h <= 0
    ensures w > 0 && h > 0 ==>
      var (u, v) := if (w / 14) * (h / 14) > 25_600 then shrink(w, h) else (w, h);
      PlanResize(shrink, w, h).Ok? <==> u <= 7140 && v <= 7140
  {
  }

  // ---------- the cost ----------

  lemma ProductAtMost(a: nat, b: nat, x: nat, y: nat)
    requires a <= x && b <= y
    ensures a * b <= x * y
  {
    assert a * b <= x * b <= x * y;
  }

  /** At most 6400 tokens with the configured cap of 2240. */
  lemma TokensAtDefaultCap(w: nat, h: nat, cap: nat)
    requires EdgeGate(w, h, cap).None? && cap <= 2240
    ensures DivCeil(w, LLM_TOKEN_PX) * DivCeil(h, LLM_TOKEN_PX) <= 6400
  {
    ProductAtMost(DivCeil(w, LLM_TOKEN_PX), DivCeil(h, LLM_TOKEN_PX), 80, 80);
  }

  /**
   Main result: the 6400 tokens an image is said to cost at most are exactly the bound of the caps up
   to 2240; one pixel more lets through an image that costs 6480.
   */
  lemma AdvertisedTokensIff(cap: nat)
    ensures (forall w: nat, h: nat | EdgeGate(w, h, cap).None? ::
               DivCeil(w, LLM_TOKEN_PX) * DivCeil(h, LLM_TOKEN_PX) <= 6400)
       <==> cap <= 2240
  {
    if cap <= 2240 {
      forall w: nat, h: nat | EdgeGate(w, h, cap).None?
        ensures DivCeil(w, LLM_TOKEN_PX) * DivCeil(h, LLM_TOKEN_PX) <= 6400
      {
        TokensAtDefaultCap(w, h, cap);
      }
    } else {
      JustOver(cap);
    }
  }

  lemma JustOver(cap: nat)
    requires cap >= 2241
    ensures EdgeGate(2241, 2240, cap).None? && DivCeil(2241, LLM_TOKEN_PX) * DivCeil(2240, LLM_TOKEN_PX) == 6480
  {
    assert DivCeil(2241, LLM_TOKEN_PX) == 81 && DivCeil(2240, LLM_TOKEN_PX) == 80;
  }

  /** The largest product of two sides, given the patch limit and the limit of each side. */
  lemma LargestGrid(p: nat, q: nat)
    requires p * q <= 6400 && p <= 254 && q <= 254
    ensures (p + 1) * (q + 1) <= 6669
  {
    if p <= 25 {
      ProductAtMost(p + 1, q + 1, 26, 255);
    } else if q <= 25 {
      ProductAtMost(p + 1, q + 1, 255, 26);
    } else {
      SumOfSides(p, q, p * q);
    }
  }

  lemma SumOfSides(p: nat, q: nat, n: nat)
    requires n == p * q <= 6400 && p >= 26 && q >= 26
    ensures (p + 1) * (q + 1) <= 6669
  {
    assert (p + 1) * (q + 1) == n + p + q + 1;
    if p == 26 {
      assert n == 26 * q;
    } else if q == 26 {
      assert n == 26 * p;
    } else {
      OverTwentySeven(p - 27, q - 27);
    }
  }

  lemma OverTwentySeven(a: nat, b: nat)
    ensures (a + 27) * (b + 27) >= 27 * a + 27 * b + 729
  {
    assert (a + 27) * (b + 27) == a * b + 27 * a + 27 * b + 729;
  }

  lemma PatchesCoverTokens(w: nat, h: nat)
    requires (w / PATCH_PX) * (h / PATCH_PX) <= IN_TOKEN_LIMIT
    ensures (w / LLM_TOKEN_PX) * (h / LLM_TOKEN_PX) <= 6400
  {
    var p, q := w / LLM_TOKEN_PX, h / LLM_TOKEN_PX;
    ProductAtMost(2 * p, 2 * q, w / PATCH_PX, h / PATCH_PX);
    assert (2 * p) * (2 * q) == 4 * (p * q);
  }

  /** Main result: at most 6669 tokens under any cap, and a 6889 by 729 image costs that many. */
  lemma TokensAtAnyCap(w: nat, h: nat, cap: nat)
    requires EdgeGate(w, h, cap).None?
    ensures DivCeil(w, LLM_TOKEN_PX) * DivCeil(h, LLM_TOKEN_PX) <= 6669
    ensures EdgeGate(6889, 729, 6889).None? && DivCeil(6889, LLM_TOKEN_PX) * DivCeil(729, LLM_TOKEN_PX) == 6669
  {
    TokensOfGated(w, h);
    LargestImage();
    hide DivCeil;
  }

  lemma LargestImage()
    ensures EdgeGate(6889, 729, 6889).None? && DivCeil(6889, LLM_TOKEN_PX) * DivCeil(729, LLM_TOKEN_PX) == 6669
  {
    assert DivCeil(6889, LLM_TOKEN_PX) == 247 && DivCeil(729, LLM_TOKEN_PX) == 27;
  }

  lemma TokensOfGated(w: nat, h: nat)
    requires (w / PATCH_PX) * (h / PATCH_PX) <= IN_TOKEN_LIMIT
    requires (DivCeil(w, LLM_TOKEN_PX) * LLM_TOKEN_PX) / PATCH_PX < POS_EMB_PATCH_CAP
    requires (DivCeil(h, LLM_TOKEN_PX) * LLM_TOKEN_PX) / PATCH_PX < POS_EMB_PATCH_CAP
    ensures DivCeil(w, LLM_TOKEN_PX) * DivCeil(h, LLM_TOKEN_PX) <= 6669
  {
    PatchesCoverTokens(w, h);
    SideAtMost(w);
    SideAtMost(h);
    hide DivCeil;
    GridAtMost(DivCeil(w, LLM_TOKEN_PX), DivCeil(h, LLM_TOKEN_PX), w / LLM_TOKEN_PX, h / LLM_TOKEN_PX);
  }

  lemma GridAtMost(c: nat, d: nat, p: nat, q: nat)
    requires c <= p + 1 && d <= q + 1 && c <= 255 && d <= 255 && p * q <= 6400
    ensures c * d <= 6669
  {
    var p', q' := if c == 0 then 0 else c - 1, if d == 0 then 0 else d - 1;
    ProductAtMost(p', q', p, q);
    LargestGrid(p', q');
    ProductAtMost(c, d, p' + 1, q' + 1);
  }

  /** The embedding limit leaves at most 255 tokens a side. */
  lemma SideAtMost(w: nat)
    ensures DivCeil(w, LLM_TOKEN_PX) <= w / LLM_TOKEN_PX + 1
    ensures (DivCeil(w, LLM_TOKEN_PX) * LLM_TOKEN_PX) / PATCH_PX < POS_EMB_PATCH_CAP ==> DivCeil(w, LLM_TOKEN_PX) <= 255
  {
  }

  // ---------- what an accepted size is good for ----------

  lemma Commute(a: nat, b: nat)
    ensures a * b == b * a
  {
  }

  /** No gate tells a size from the same size turned on its side. */
  lemma TurnedIsTheSame(w: nat, h: nat, cap: nat)
    ensures EdgeGate(w, h, cap).None? <==> EdgeGate(h, w, cap).None?
    ensures WorkerGate(w, h).None? <==> WorkerGate(h, w).None?
  {
    Commute(w / PATCH_PX, h / PATCH_PX);
  }

  /** On every image the edge accepts, whose sides are at least 32, the pixel corners tell the tokens. */
  lemma AcceptedSizesKeepTokens(
    name: string, x1: nat, y1: nat, x2: nat, y2: nat, width: nat, height: nat, cap: nat
  )
    requires x1 <= GRID && y1 <= GRID && x2 <= GRID && y2 <= GRID && EdgeGate(width, height, cap).None?
    ensures width >= 32 && height >= 32
    ensures var box := MakeBox(name, x1, y1, x2, y2, width, height).px;
      var point := MakePoint(name, x1, y1, width, height).px;
      && multiset{TokenOf(box.x1, width), TokenOf(box.x2, width)} == multiset{x1 as int, x2 as int}
      && multiset{TokenOf(box.y1, height), TokenOf(box.y2, height)} == multiset{y1 as int, y2 as int}
      && TokenOf(point.x, width) == x1 && TokenOf(point.y, height) == y1
  {
    assert width >= 32 && height >= 32;
    hide EdgeGate, MakeBox, MakePoint, TokenOf;
    BoxTokensRecovered(name, x1, y1, x2, y2, width, height);
    PointTokensRecovered(name, x1, y1, width, height);
  }
}

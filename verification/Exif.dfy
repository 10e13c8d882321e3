/**
 The edge's EXIF scanner: a cursor over JPEG marker segments (section B.1.1.4 of ITU-T T.81), then
 the first image file directory of a TIFF block in either byte order (section 2 of TIFF 6.0).
 */
module Exif {
  import opened Wrappers
  import opened Bytes

  const ORIENTATION: nat := 0x0112
  const TIFF_MAGIC: nat := 0x002A
  const EXIF_HEADER: seq<byte> := [0x45, 0x78, 0x69, 0x66, 0x00, 0x00]

  predicate IsJpeg(b: seq<byte>) {
    |b| >= 3 && b[0] == 0xFF && b[1] == 0xD8 && b[2] == 0xFF
  }

  lemma JpegIff(b: seq<byte>)
    ensures IsJpeg(b) <==> [0xFF, 0xD8, 0xFF] <= b
  {
    if |b| >= 3 {
      assert b[..3] == [b[0], b[1], b[2]];
    }
  }

  // ---------- TIFF ----------

  function U16At(little: bool, t: seq<byte>, off: nat): (r: Option<nat>)
    ensures r.Some? ==> off + 2 <= |t| && r.value < 0x1_0000
  {
    if off + 2 <= |t| then Some(Read16(little, t[off], t[off + 1])) else None
  }

  function U32At(little: bool, t: seq<byte>, off: nat): (r: Option<nat>)
    ensures r.Some? ==> off + 4 <= |t| && r.value < 0x1_0000_0000
  {
    if off + 4 <= |t| then Some(Read32(little, t[off], t[off + 1], t[off + 2], t[off + 3])) else None
  }

  function ByteOrder(t: seq<byte>): (r: Option<bool>)
  {
    if |t| < 8 then None
    else if t[0] == 0x49 && t[1] == 0x49 then Some(true)
    else if t[0] == 0x4D && t[1] == 0x4D then Some(false)
    else None
  }

  /** A directory of `n` entries at `ifd`, reachable from a well-formed header. */
  predicate HasDirectory(t: seq<byte>, little: bool, ifd: nat, n: nat) {
    && ByteOrder(t) == Some(little)
    && U16At(little, t, 2) == Some(TIFF_MAGIC)
    && U32At(little, t, 4) == Some(ifd)
    && U16At(little, t, ifd) == Some(n)
  }

  function EntryAt(ifd: nat, k: nat): nat {
    ifd + 2 + 12 * k
  }

  /** The `k`-th entry is the first with the orientation tag, and all before it can be read. */
  predicate IsFirstOrientation(t: seq<byte>, little: bool, ifd: nat, n: nat, k: nat) {
    && k < n
    && U16At(little, t, EntryAt(ifd, k)) == Some(ORIENTATION)
    && forall j | 0 <= j < k ::
      U16At(little, t, EntryAt(ifd, j)).Some? && U16At(little, t, EntryAt(ifd, j)) != Some(ORIENTATION)
  }

  /** What the scanner should find: the value of the first orientation entry of the directory. */
  ghost predicate Oriented(t: seq<byte>, v: nat) {
    exists little: bool, ifd: nat, n: nat, k: nat :: OrientedAt(t, little, ifd, n, k, v)
  }

  predicate OrientedAt(t: seq<byte>, little: bool, ifd: nat, n: nat, k: nat, v: nat) {
    && HasDirectory(t, little, ifd, n) && IsFirstOrientation(t, little, ifd, n, k)
    && U16At(little, t, EntryAt(ifd, k) + 8) == Some(v)
  }

  method TiffOrientation(t: seq<byte>) returns (r: Option<nat>)
    ensures r.Some? ==> Oriented(t, r.value)
    ensures r.None? ==> forall v: nat :: !Oriented(t, v)
  {
    hide U16At, U32At;
    var order := ByteOrder(t);
    if order.None? { return None; }
    var little := order.value;
    var magic := U16At(little, t, 2);
    if magic != Some(TIFF_MAGIC) { return None; }
    var ifd := U32At(little, t, 4);
    if ifd.None? { return None; }
    var entries := U16At(little, t, ifd.value);
    if entries.None? { return None; }
    assert HasDirectory(t, little, ifd.value, entries.value);
    var e := ifd.value + 2;
    for k := 0 to entries.value
      invariant e == EntryAt(ifd.value, k)
      invariant forall j | 0 <= j < k :: U16At(little, t, EntryAt(ifd.value, j)).Some?
                                      && U16At(little, t, EntryAt(ifd.value, j)) != Some(ORIENTATION)
    {
      var tag := U16At(little, t, e);
      if tag.None? { return None; }
      if tag.value == ORIENTATION {
        r := U16At(little, t, e + 8);
        FirstDecides(t, little, ifd.value, entries.value, k);
        return;
      }
      e := e + 12;
    }
    return None;
  }

  lemma FirstDecides(t: seq<byte>, little: bool, ifd: nat, n: nat, k: nat)
    requires HasDirectory(t, little, ifd, n) && IsFirstOrientation(t, little, ifd, n, k)
    ensures forall v: nat :: Oriented(t, v) <==> U16At(little, t, EntryAt(ifd, k) + 8) == Some(v)
  {
    hide U16At, U32At;
    forall v: nat | U16At(little, t, EntryAt(ifd, k) + 8) == Some(v)
      ensures Oriented(t, v)
    {
      assert OrientedAt(t, little, ifd, n, k, v);
    }
  }

  /** There is at most one such value. */
  lemma OrientedOnce(t: seq<byte>, v: nat, w: nat)
    requires Oriented(t, v) && Oriented(t, w)
    ensures v == w
  {
    hide U16At, U32At;
    var little: bool, ifd: nat, n: nat, k: nat :| OrientedAt(t, little, ifd, n, k, v);
    var little': bool, ifd': nat, n': nat, k': nat :| OrientedAt(t, little', ifd', n', k', w);
    assert little == little' && ifd == ifd' && n == n';
    assert !(k < k') && !(k' < k);
  }

  // ---------- JPEG segments ----------

  /** A marker segment that can be passed over or read, from `i` to `end`. */
  predicate IsSegment(b: seq<byte>, i: nat, end: nat) {
    && i + 4 <= |b| && b[i] == 0xFF && b[i + 1] != 0xDA && b[i + 1] != 0xD9
    && var len := Read16(false, b[i + 2], b[i + 3]);
       len >= 2 && end == i + 2 + len <= |b|
  }

  predicate IsExifSegment(b: seq<byte>, i: nat, end: nat)
    requires IsSegment(b, i, end)
  {
    b[i + 1] == 0xE1 && end >= i + 10 && b[i + 4..i + 10] == EXIF_HEADER
  }

  /** The TIFF block of the first Exif segment at or after `i`. */
  function ExifBlock(b: seq<byte>, i: nat): Option<seq<byte>>
    decreases |b| - i
  {
    if i + 4 > |b| then None
    else
      var end := i + 2 + Read16(false, b[i + 2], b[i + 3]);
      if !IsSegment(b, i, end) then None
      else if IsExifSegment(b, i, end) then Some(b[i + 10..end])
      else ExifBlock(b, end)
  }

  /** The orientation the bytes state: that of the first Exif segment, if it states one. */
  ghost predicate States(b: seq<byte>, v: nat) {
    && |b| >= 2 && b[0] == 0xFF && b[1] == 0xD8
    && ExifBlock(b, 2).Some? && Oriented(ExifBlock(b, 2).value, v)
  }

  lemma PartsOf(b: seq<byte>, i: nat, end: nat)
    requires i + 4 <= end <= |b|
    ensures end >= i + 10 ==> b[i + 4..end][..6] == b[i + 4..i + 10] && b[i + 4..end][6..] == b[i + 10..end]
  {
  }

  method ExifOrientation(b: seq<byte>) returns (r: Option<nat>)
    ensures r.Some? ==> States(b, r.value)
    ensures r.None? ==> forall v: nat :: !States(b, v)
  {
    hide Oriented;
    if |b| < 2 || b[0] != 0xFF || b[1] != 0xD8 { return None; }
    var i := 2;
    while true
      invariant 2 <= i && ExifBlock(b, i) == ExifBlock(b, 2)
      decreases |b| - i
    {
      if i + 4 > |b| || b[i] != 0xFF { return None; }
      var marker := b[i + 1];
      if marker == 0xDA || marker == 0xD9 { return None; }
      var segLen := Read16(false, b[i + 2], b[i + 3]);
      if segLen < 2 { return None; }
      var payloadStart := i + 4;
      var segmentEnd := i + 2 + segLen;
      if segmentEnd > |b| { return None; }
      if marker == 0xE1 {
        var payload := b[payloadStart..segmentEnd];
        PartsOf(b, i, segmentEnd);
        if |payload| >= 6 && payload[..6] == EXIF_HEADER {
          r := TiffOrientation(payload[6..]);
          return;
        }
      }
      i := segmentEnd;
    }
  }

  /** `read_dimensions_blocking` after the decoder has read the stored size. */
  method ReadDimensions(b: seq<byte>, storedWidth: nat, storedHeight: nat) returns (width: nat, height: nat)
    ensures (exists v: nat | 5 <= v <= 8 :: States(b, v)) ==> (width, height) == (storedHeight, storedWidth)
    ensures !(exists v: nat | 5 <= v <= 8 :: States(b, v)) ==> (width, height) == (storedWidth, storedHeight)
  {
    hide States;
    width, height := storedWidth, storedHeight;
    var orientation := ExifOrientation(b);
    if orientation.Some? {
      if orientation.value == 5 || orientation.value == 6 || orientation.value == 7 || orientation.value == 8 {
        width, height := height, width;
      } else {
        StatedOnce(b, orientation.value);
      }
    }
  }

  lemma StatedOnce(b: seq<byte>, v: nat)
    requires States(b, v)
    ensures forall w: nat :: States(b, w) ==> v == w
  {
    hide Oriented, ExifBlock;
    forall w: nat | States(b, w)
      ensures v == w
    {
      OrientedOnce(ExifBlock(b, 2).value, v, w);
    }
  }

  // ---------- byte for byte ----------

  /** Two bytes of a TIFF block hold a number, the less significant first if the block is little-endian. */
  predicate Holds16(t: seq<byte>, little: bool, at: nat, n: nat) {
    && at + 2 <= |t|
    && n == if little then BigEndian16(t[at + 1], t[at]) else BigEndian16(t[at], t[at + 1])
  }

  predicate Holds32(t: seq<byte>, little: bool, at: nat, n: nat) {
    && at + 4 <= |t|
    && n == if little then BigEndian32(t[at + 3], t[at + 2], t[at + 1], t[at])
            else BigEndian32(t[at], t[at + 1], t[at + 2], t[at + 3])
  }

  predicate HasOtherTag(t: seq<byte>, little: bool, ifd: nat, j: nat) {
    ifd + 12 * j + 4 <= |t| && !Holds16(t, little, ifd + 12 * j + 2, 0x112)
  }

  /**
   The bytes of a TIFF block: `II` or `MM`, 42, the place of the directory, its number of entries, and
   twelve bytes an entry; the `k`-th is the first with the tag 0x112, and `v` is its value.
   */
  ghost predicate IsTiffWith(t: seq<byte>, little: bool, ifd: nat, n: nat, k: nat, v: nat) {
    && |t| >= 8 && (if little then t[..2] == [0x49, 0x49] else t[..2] == [0x4D, 0x4D])
    && Holds16(t, little, 2, 42) && Holds32(t, little, 4, ifd) && Holds16(t, little, ifd, n)
    && k < n
    && (forall j | 0 <= j < k :: HasOtherTag(t, little, ifd, j))
    && Holds16(t, little, ifd + 12 * k + 2, 0x112) && Holds16(t, little, ifd + 12 * k + 10, v)
  }

  lemma U16Holds(t: seq<byte>, little: bool, at: nat, n: nat)
    ensures U16At(little, t, at) == Some(n) <==> Holds16(t, little, at, n)
  {
  }

  lemma U32Holds(t: seq<byte>, little: bool, at: nat, n: nat)
    ensures U32At(little, t, at) == Some(n) <==> Holds32(t, little, at, n)
  {
  }

  lemma OrderBytes(t: seq<byte>, little: bool)
    requires |t| >= 8
    ensures ByteOrder(t) == Some(little) <==> if little then t[..2] == [0x49, 0x49] else t[..2] == [0x4D, 0x4D]
  {
    assert t[..2] == [t[0], t[1]];
  }

  lemma OtherTags(t: seq<byte>, little: bool, ifd: nat, k: nat)
    ensures (forall j | 0 <= j < k ::
               U16At(little, t, EntryAt(ifd, j)).Some? && U16At(little, t, EntryAt(ifd, j)) != Some(ORIENTATION))
       <==> forall j | 0 <= j < k :: HasOtherTag(t, little, ifd, j)
  {
    forall j: nat | j < k
      ensures U16At(little, t, EntryAt(ifd, j)).Some? && U16At(little, t, EntryAt(ifd, j)) != Some(ORIENTATION)
         <==> HasOtherTag(t, little, ifd, j)
    {
      U16Holds(t, little, EntryAt(ifd, j), 0x112);
    }
  }

  lemma OrientedBytes(t: seq<byte>, little: bool, ifd: nat, n: nat, k: nat, v: nat)
    ensures OrientedAt(t, little, ifd, n, k, v) <==> IsTiffWith(t, little, ifd, n, k, v)
  {
    hide U16At, U32At, Holds16, Holds32, ByteOrder;
    if |t| >= 8 {
      OrderBytes(t, little);
    } else {
      ShortHasNoOrder(t);
    }
    U16Holds(t, little, 2, 42);
    U32Holds(t, little, 4, ifd);
    U16Holds(t, little, ifd, n);
    OtherTags(t, little, ifd, k);
    U16Holds(t, little, EntryAt(ifd, k), 0x112);
    U16Holds(t, little, EntryAt(ifd, k) + 8, v);
  }

  lemma ShortHasNoOrder(t: seq<byte>)
    requires |t| < 8
    ensures ByteOrder(t).None?
  {
  }

  /**
   The bytes of a JPEG file from one marker to the next: 0xFF, a marker that is neither of the scan nor
   of the end, and a length of two bytes, the more significant first, that counts itself.
   */
  predicate IsStep(b: seq<byte>, i: nat, next: nat) {
    && i + 4 <= |b| && b[i] == 0xFF && b[i + 1] != 0xDA && b[i + 1] != 0xD9
    && next == i + 2 + BigEndian16(b[i + 2], b[i + 3]) && i + 4 <= next <= |b|
  }

  /** `E1` and the six bytes `Exif`, 0, 0. */
  predicate IsExifStep(b: seq<byte>, i: nat, next: nat) {
    IsStep(b, i, next) && b[i + 1] == 0xE1 && i + 10 <= next && b[i + 4..i + 10] == [69, 120, 105, 102, 0, 0]
  }

  /** The markers on the way from `i` to the first Exif segment, which lies between the last two. */
  ghost predicate IsWalk(b: seq<byte>, i: nat, marks: seq<nat>) {
    && |marks| >= 2 && marks[0] == i
    && (forall k | 0 <= k < |marks| - 1 :: IsStep(b, marks[k], marks[k + 1]))
    && (forall k | 0 <= k < |marks| - 2 :: !IsExifStep(b, marks[k], marks[k + 1]))
    && IsExifStep(b, marks[|marks| - 2], marks[|marks| - 1])
  }

  lemma StepIsSegment(b: seq<byte>, i: nat, next: nat)
    ensures IsStep(b, i, next) <==> IsSegment(b, i, next)
    ensures IsStep(b, i, next) ==> (IsExifStep(b, i, next) <==> IsExifSegment(b, i, next))
  {
    assert EXIF_HEADER == [69, 120, 105, 102, 0, 0];
  }

  lemma StepsOnce(b: seq<byte>, i: nat, next: nat, other: nat)
    requires IsStep(b, i, next) && IsStep(b, i, other)
    ensures next == other
  {
  }

  lemma {:induction false} WalkFindsBlock(b: seq<byte>, i: nat, marks: seq<nat>)
    requires IsWalk(b, i, marks)
    ensures var n := |marks|; marks[n - 2] + 10 <= marks[n - 1] <= |b|
    ensures var n := |marks|; ExifBlock(b, i) == Some(b[marks[n - 2] + 10..marks[n - 1]])
    decreases |marks|
  {
    hide IsStep, IsSegment, IsExifSegment, IsExifStep;
    StepShape(b, i, marks[1]);
    if |marks| == 2 {
      ExifStepShape(b, i, marks[1]);
    } else {
      ExifStepShape(b, marks[|marks| - 2], marks[|marks| - 1]);
      WalkFindsBlock(b, marks[1], marks[1..]);
    }
  }

  lemma StepShape(b: seq<byte>, i: nat, next: nat)
    requires IsStep(b, i, next)
    ensures i + 4 <= next <= |b| && IsSegment(b, i, next) && next == i + 2 + Read16(false, b[i + 2], b[i + 3])
    ensures IsExifStep(b, i, next) <==> IsExifSegment(b, i, next)
  {
    StepIsSegment(b, i, next);
  }

  lemma ExifStepShape(b: seq<byte>, i: nat, next: nat)
    requires IsExifStep(b, i, next)
    ensures i + 10 <= next <= |b| && IsStep(b, i, next)
  {
  }

  lemma {:induction false} BlockHasWalk(b: seq<byte>, i: nat) returns (marks: seq<nat>)
    requires ExifBlock(b, i).Some?
    ensures IsWalk(b, i, marks)
    decreases |b| - i
  {
    hide IsSegment, IsExifSegment, IsExifStep;
    var end := i + 2 + Read16(false, b[i + 2], b[i + 3]);
    StepIsSegment(b, i, end);
    if IsExifSegment(b, i, end) {
      marks := [i, end];
    } else {
      var rest := BlockHasWalk(b, end);
      marks := [i] + rest;
      hide IsStep;
      assert forall k | 1 <= k < |marks| :: marks[k] == rest[k - 1];
    }
  }

  /** The way to the first Exif segment, and where in its TIFF block the value stands. */
  ghost predicate IsStatedAt(b: seq<byte>, v: nat, marks: seq<nat>, little: bool, ifd: nat, n: nat, k: nat) {
    && IsWalk(b, 2, marks)
    && var lo, hi := marks[|marks| - 2] + 10, marks[|marks| - 1];
    && lo <= hi <= |b| && IsTiffWith(b[lo..hi], little, ifd, n, k, v)
  }

  /**
   Main result: which orientation a file states is a matter of its bytes alone: `FF D8`, the markers on
   the way to the first Exif segment, and in its TIFF block the first entry with the tag.
   */
  lemma StatesByBytes(b: seq<byte>, v: nat)
    ensures States(b, v) <==>
      && |b| >= 2 && b[..2] == [0xFF, 0xD8]
      && exists marks: seq<nat>, little: bool, ifd: nat, n: nat, k: nat :: IsStatedAt(b, v, marks, little, ifd, n, k)
  {
    hide OrientedAt, IsTiffWith, IsWalk, ExifBlock;
    if |b| >= 2 {
      assert b[..2] == [b[0], b[1]];
    }
    if States(b, v) {
      var t := ExifBlock(b, 2).value;
      var marks := BlockHasWalk(b, 2);
      WalkFindsBlock(b, 2, marks);
      var little: bool, ifd: nat, n: nat, k: nat :| OrientedAt(t, little, ifd, n, k, v);
      OrientedBytes(t, little, ifd, n, k, v);
      assert IsStatedAt(b, v, marks, little, ifd, n, k);
    }
    forall marks: seq<nat>, little: bool, ifd: nat, n: nat, k: nat | IsStatedAt(b, v, marks, little, ifd, n, k)
      ensures ExifBlock(b, 2).Some? && Oriented(ExifBlock(b, 2).value, v)
    {
      WalkFindsBlock(b, 2, marks);
      OrientedBytes(ExifBlock(b, 2).value, little, ifd, n, k, v);
    }
  }

  // ---------- appending bytes ----------

  lemma SegmentKept(b: seq<byte>, more: seq<byte>, i: nat, end: nat)
    requires IsSegment(b, i, end)
    ensures IsSegment(b + more, i, end)
    ensures (b + more)[i + 2] == b[i + 2] && (b + more)[i + 3] == b[i + 3]
    ensures end >= i + 10 ==>
      (b + more)[i + 4..i + 10] == b[i + 4..i + 10] && (b + more)[i + 10..end] == b[i + 10..end]
  {
  }

  lemma ExifBlockKept(b: seq<byte>, more: seq<byte>, i: nat)
    requires ExifBlock(b, i).Some?
    ensures ExifBlock(b + more, i) == ExifBlock(b, i)
    decreases |b| - i
  {
    hide Read16;
    var end := i + 2 + Read16(false, b[i + 2], b[i + 3]);
    SegmentKept(b, more, i, end);
    if !IsExifSegment(b, i, end) {
      ExifBlockKept(b, more, end);
    }
  }

  /** Main result: an orientation once stated is not changed by bytes that follow. */
  lemma StatedStays(b: seq<byte>, more: seq<byte>, v: nat)
    requires States(b, v)
    ensures States(b + more, v)
  {
    hide Oriented, ExifBlock;
    ExifBlockKept(b, more, 2);
  }
}

/**
 JPEG files as a camera writes them: segments, an Exif segment with a TIFF directory in either byte
 order, then anything. The scanner reads back the orientation that was written.
 */
module ExifFiles {
  import opened Wrappers
  import opened Bytes
  import opened Exif

  /** A marker segment; `payload` is what its length field covers beyond itself. */
  datatype Segment = Segment(marker: byte, payload: seq<byte>)

  /** A directory entry. A SHORT value stands in the first two bytes of the value field. */
  datatype Entry = Entry(tag: nat, kind: nat, count: nat, value: nat, spare: nat)

  /** A TIFF block: byte order, what lies between the header and the directory, the entries, and the rest. */
  datatype Tiff = Tiff(little: bool, gap: seq<byte>, entries: seq<Entry>, rest: seq<byte>)

  predicate IsEntry(e: Entry) {
    e.tag < 0x1_0000 && e.kind < 0x1_0000 && e.count < 0x1_0000_0000 && e.value < 0x1_0000 && e.spare < 0x1_0000
  }

  ghost predicate IsTiff(t: Tiff) {
    && |t.entries| < 0x1_0000 && 8 + |t.gap| < 0x1_0000_0000
    && forall e | e in t.entries :: IsEntry(e)
  }

  /** A segment the scanner passes over. */
  predicate IsOther(s: Segment) {
    && s.marker != 0xDA && s.marker != 0xD9 && |s.payload| + 2 < 0x1_0000
    && !(s.marker == 0xE1 && |s.payload| >= 6 && s.payload[..6] == EXIF_HEADER)
  }

  // ---------- writing ----------

  function WriteSegment(s: Segment): seq<byte>
    requires |s.payload| + 2 < 0x1_0000
  {
    [0xFF, s.marker] + Write16(false, |s.payload| + 2) + s.payload
  }

  function WriteSegments(ss: seq<Segment>): seq<byte>
    requires forall s | s in ss :: IsOther(s)
  {
    if ss == [] then []
    else
      assert IsOther(ss[0]);
      WriteSegment(ss[0]) + WriteSegments(ss[1..])
  }

  function WriteEntry(little: bool, e: Entry): (s: seq<byte>)
    requires IsEntry(e)
    ensures |s| == 12
  {
    Write16(little, e.tag) + Write16(little, e.kind) + Write32(little, e.count) + Write16(little, e.value)
      + Write16(little, e.spare)
  }

  function WriteEntries(little: bool, es: seq<Entry>): (s: seq<byte>)
    requires forall e | e in es :: IsEntry(e)
    ensures |s| == 12 * |es|
  {
    if es == [] then [] else WriteEntry(little, es[0]) + WriteEntries(little, es[1..])
  }

  function WriteTiffHeader(t: Tiff): (s: seq<byte>)
    requires IsTiff(t)
    ensures |s| == 8
  {
    (if t.little then [0x49, 0x49] else [0x4D, 0x4D]) + Write16(t.little, TIFF_MAGIC) + Write32(t.little, 8 + |t.gap|)
  }

  function WriteTiff(t: Tiff): seq<byte>
    requires IsTiff(t)
  {
    WriteTiffHeader(t) + t.gap + Write16(t.little, |t.entries|) + WriteEntries(t.little, t.entries) + t.rest
  }

  /** The orientation the directory was given: that of its first entry with the tag. */
  function FirstOrientation(es: seq<Entry>): Option<nat> {
    if es == [] then None
    else if es[0].tag == ORIENTATION then Some(es[0].value)
    else FirstOrientation(es[1..])
  }

  // ---------- reading back: TIFF ----------

  lemma U16Back(little: bool, a: seq<byte>, n: nat, c: seq<byte>)
    requires n < 0x1_0000
    ensures U16At(little, a + Write16(little, n) + c, |a|) == Some(n)
  {
    var w, s := Write16(little, n), a + Write16(little, n) + c;
    assert s[|a|] == w[0] && s[|a| + 1] == w[1];
  }

  lemma U32Back(little: bool, a: seq<byte>, n: nat, c: seq<byte>)
    requires n < 0x1_0000_0000
    ensures U32At(little, a + Write32(little, n) + c, |a|) == Some(n)
  {
    var w, s := Write32(little, n), a + Write32(little, n) + c;
    assert s[|a|] == w[0] && s[|a| + 1] == w[1] && s[|a| + 2] == w[2] && s[|a| + 3] == w[3];
  }

  lemma HeaderBack(t: Tiff)
    requires IsTiff(t)
    ensures HasDirectory(WriteTiff(t), t.little, 8 + |t.gap|, |t.entries|)
  {
    hide U16At, U32At, Write16, Write32, WriteEntries, WriteTiffHeader;
    var n := Write16(t.little, |t.entries|);
    var tail := WriteEntries(t.little, t.entries) + t.rest;
    assert WriteTiff(t) == WriteTiffHeader(t) + (t.gap + n + tail);
    MarkBack(t, t.gap + n + tail);
    assert WriteTiff(t) == (WriteTiffHeader(t) + t.gap) + n + tail;
    U16Back(t.little, WriteTiffHeader(t) + t.gap, |t.entries|, tail);
  }

  lemma MarkBack(t: Tiff, tail: seq<byte>)
    requires IsTiff(t)
    ensures var s := WriteTiffHeader(t) + tail;
      && ByteOrder(s) == Some(t.little) && U16At(t.little, s, 2) == Some(TIFF_MAGIC)
      && U32At(t.little, s, 4) == Some(8 + |t.gap|)
  {
    hide U16At, U32At, Write16, Write32;
    var mark: seq<byte> := if t.little then [0x49, 0x49] else [0x4D, 0x4D];
    var magic, ifd := Write16(t.little, TIFF_MAGIC), Write32(t.little, 8 + |t.gap|);
    var s := WriteTiffHeader(t) + tail;
    assert s == mark + magic + (ifd + tail);
    U16Back(t.little, mark, TIFF_MAGIC, ifd + tail);
    assert s == (mark + magic) + ifd + tail;
    U32Back(t.little, mark + magic, 8 + |t.gap|, tail);
    assert s[0] == mark[0] && s[1] == mark[1];
  }

  lemma EntryBack(little: bool, a: seq<byte>, e: Entry, c: seq<byte>)
    requires IsEntry(e)
    ensures U16At(little, a + WriteEntry(little, e) + c, |a|) == Some(e.tag)
    ensures U16At(little, a + WriteEntry(little, e) + c, |a| + 8) == Some(e.value)
  {
    hide U16At, Write16, Write32;
    var s := a + WriteEntry(little, e) + c;
    var head := Write16(little, e.tag) + Write16(little, e.kind) + Write32(little, e.count);
    var tail := Write16(little, e.kind) + Write32(little, e.count) + Write16(little, e.value)
      + Write16(little, e.spare) + c;
    assert s == a + Write16(little, e.tag) + tail;
    U16Back(little, a, e.tag, tail);
    assert s == (a + head) + Write16(little, e.value) + (Write16(little, e.spare) + c);
    U16Back(little, a + head, e.value, Write16(little, e.spare) + c);
  }

  lemma {:induction false} EntriesBack(little: bool, a: seq<byte>, es: seq<Entry>, c: seq<byte>, k: nat)
    requires k < |es| && forall e | e in es :: IsEntry(e)
    ensures var s := a + WriteEntries(little, es) + c;
      && U16At(little, s, |a| + 12 * k) == Some(es[k].tag)
      && U16At(little, s, |a| + 12 * k + 8) == Some(es[k].value)
    decreases k
  {
    hide U16At, WriteEntry;
    var s := a + WriteEntries(little, es) + c;
    assert es[0] in es;
    var first, rest := WriteEntry(little, es[0]), WriteEntries(little, es[1..]);
    if k == 0 {
      assert s == a + first + (rest + c);
      EntryBack(little, a, es[0], rest + c);
    } else {
      assert s == (a + first) + rest + c;
      EntriesBack(little, a + first, es[1..], c, k - 1);
    }
  }

  /** The place of the first entry with the tag. */
  lemma {:induction false} FirstAt(es: seq<Entry>) returns (k: nat)
    requires FirstOrientation(es).Some?
    ensures k < |es| && es[k].tag == ORIENTATION && FirstOrientation(es) == Some(es[k].value)
    ensures forall j | 0 <= j < k :: es[j].tag != ORIENTATION
  {
    if es[0].tag == ORIENTATION {
      k := 0;
    } else {
      var i := FirstAt(es[1..]);
      k := i + 1;
    }
  }

  lemma {:induction false} NoneHasTag(es: seq<Entry>)
    requires FirstOrientation(es).None?
    ensures forall j | 0 <= j < |es| :: es[j].tag != ORIENTATION
  {
    if es != [] {
      NoneHasTag(es[1..]);
    }
  }

  lemma TiffBack(t: Tiff, v: nat)
    requires IsTiff(t)
    ensures Oriented(WriteTiff(t), v) <==> FirstOrientation(t.entries) == Some(v)
  {
    hide U16At, U32At, WriteEntries;
    var s, ifd, n := WriteTiff(t), 8 + |t.gap|, |t.entries|;
    HeaderBack(t);
    var a := WriteTiffHeader(t) + t.gap + Write16(t.little, n);
    assert s == a + WriteEntries(t.little, t.entries) + t.rest;
    forall k | 0 <= k < n
      ensures U16At(t.little, s, EntryAt(ifd, k)) == Some(t.entries[k].tag)
      ensures U16At(t.little, s, EntryAt(ifd, k) + 8) == Some(t.entries[k].value)
    {
      EntriesBack(t.little, a, t.entries, t.rest, k);
    }
    if FirstOrientation(t.entries).Some? {
      var k := FirstAt(t.entries);
      FirstDecides(s, t.little, ifd, n, k);
    } else {
      NoneHasTag(t.entries);
      NoOrientation(s, t.little, ifd, n, v);
    }
  }

  lemma NoOrientation(s: seq<byte>, little: bool, ifd: nat, n: nat, v: nat)
    requires HasDirectory(s, little, ifd, n)
    requires forall k | 0 <= k < n :: U16At(little, s, EntryAt(ifd, k)) != Some(ORIENTATION)
    ensures !Oriented(s, v)
  {
    hide U16At, U32At;
  }

  // ---------- reading back: the file ----------

  function ExifSegment(t: Tiff): Segment
    requires IsTiff(t)
  {
    Segment(0xE1, EXIF_HEADER + WriteTiff(t))
  }

  /** The TIFF block fits in one segment. */
  ghost predicate Fits(t: Tiff) {
    IsTiff(t) && |ExifSegment(t).payload| + 2 < 0x1_0000
  }

  function WriteJpeg(ss: seq<Segment>, t: Tiff, rest: seq<byte>): seq<byte>
    requires (forall s | s in ss :: IsOther(s)) && Fits(t)
  {
    [0xFF, 0xD8] + WriteSegments(ss) + WriteSegment(ExifSegment(t)) + rest
  }

  lemma SegmentBack(a: seq<byte>, s: Segment, c: seq<byte>)
    requires |s.payload| + 2 < 0x1_0000
    ensures var b, end := a + WriteSegment(s) + c, |a| + 4 + |s.payload|;
      && |a| + 4 <= |b| && b[|a|] == 0xFF && b[|a| + 1] == s.marker
      && end == |a| + 2 + Read16(false, b[|a| + 2], b[|a| + 3]) && end == |a| + |WriteSegment(s)| <= |b|
      && b[|a| + 4..end] == s.payload
      && (|s.payload| >= 6 ==> b[|a| + 4..|a| + 10] == s.payload[..6] && b[|a| + 10..end] == s.payload[6..])
  {
    hide Read16;
    var w, b := Write16(false, |s.payload| + 2), a + WriteSegment(s) + c;
    assert b[|a| + 2] == w[0] && b[|a| + 3] == w[1];
  }

  lemma OtherPassed(a: seq<byte>, s: Segment, c: seq<byte>)
    requires IsOther(s)
    ensures var b := a + WriteSegment(s) + c; ExifBlock(b, |a|) == ExifBlock(b, |a| + |WriteSegment(s)|)
  {
    hide ExifBlock, WriteSegment, Read16;
    SegmentBack(a, s, c);
    PassOver(a + WriteSegment(s) + c, |a|, |a| + |WriteSegment(s)|);
  }

  lemma PassOver(b: seq<byte>, i: nat, end: nat)
    requires IsSegment(b, i, end) && !IsExifSegment(b, i, end)
    ensures ExifBlock(b, i) == ExifBlock(b, end)
  {
  }

  lemma ExifTaken(a: seq<byte>, s: Segment, tiff: seq<byte>, c: seq<byte>)
    requires s == Segment(0xE1, EXIF_HEADER + tiff) && |s.payload| + 2 < 0x1_0000
    ensures ExifBlock(a + WriteSegment(s) + c, |a|) == Some(tiff)
  {
    hide WriteSegment, Read16;
    SegmentBack(a, s, c);
    assert s.payload[..6] == EXIF_HEADER && s.payload[6..] == tiff;
  }

  lemma {:induction false} BlockBack(a: seq<byte>, ss: seq<Segment>, t: Tiff, rest: seq<byte>)
    requires (forall s | s in ss :: IsOther(s)) && Fits(t)
    ensures ExifBlock(a + WriteSegments(ss) + WriteSegment(ExifSegment(t)) + rest, |a|) == Some(WriteTiff(t))
    decreases |ss|
  {
    hide ExifBlock, WriteSegment, WriteTiff;
    var b := a + WriteSegments(ss) + WriteSegment(ExifSegment(t)) + rest;
    if ss == [] {
      assert b == a + WriteSegment(ExifSegment(t)) + rest;
      ExifTaken(a, ExifSegment(t), WriteTiff(t), rest);
    } else {
      assert ss[0] in ss;
      var first, more := WriteSegment(ss[0]), WriteSegments(ss[1..]) + WriteSegment(ExifSegment(t)) + rest;
      assert b == a + first + more;
      OtherPassed(a, ss[0], more);
      assert b == (a + first) + WriteSegments(ss[1..]) + WriteSegment(ExifSegment(t)) + rest;
      BlockBack(a + first, ss[1..], t, rest);
    }
  }

  /**
   Main result: the scanner reads back the orientation the file was given, behind any segments that
   are not Exif, in either byte order, wherever the directory is and whatever follows.
   */
  lemma FileReadsBack(ss: seq<Segment>, t: Tiff, rest: seq<byte>, v: nat)
    requires (forall s | s in ss :: IsOther(s)) && Fits(t)
    ensures States(WriteJpeg(ss, t, rest), v) <==> FirstOrientation(t.entries) == Some(v)
  {
    hide Oriented, ExifBlock, WriteTiff, WriteSegment, WriteSegments;
    BlockBack([0xFF, 0xD8], ss, t, rest);
    TiffBack(t, v);
  }
}

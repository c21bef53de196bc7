/** stb_truetype's search of a 'cmap' subtable of format 4: a binary search that starts at one of
    two overlapping powers of two, against a scan of the segments one after the other. */
module Cmap {
  import opened Basics

  // ttUSHORT and ttSHORT: big-endian numbers of two bytes.
  function UShort(data: seq<byte>, p: nat): nat
    requires p + 1 < |data|
  {
    var (high: int, low: int) := (data[p], data[p + 1]);
    high * 256 + low
  }

  function Short(data: seq<byte>, p: nat): int
    requires p + 1 < |data|
  {
    var v := UShort(data, p);
    if v < 0x8000 then v else v - 0x1_0000
  }

  function SegCount(data: seq<byte>, m: nat): nat
    requires m + 16 <= |data|
  {
    UShort(data, m + 6) / 2
  }

  // The four arrays of the subtable at m lie within the data.
  predicate Inside(data: seq<byte>, m: nat) {
    m + 16 <= |data| && m + 16 + 8 * SegCount(data, m) <= |data|
  }

  function EndCode(data: seq<byte>, m: nat, i: nat): nat
    requires Inside(data, m) && i < SegCount(data, m)
  {
    UShort(data, m + 14 + 2 * i)
  }

  function StartCode(data: seq<byte>, m: nat, i: nat): nat
    requires Inside(data, m) && i < SegCount(data, m)
  {
    UShort(data, m + 14 + SegCount(data, m) * 2 + 2 + 2 * i)
  }

  function IdDelta(data: seq<byte>, m: nat, i: nat): int
    requires Inside(data, m) && i < SegCount(data, m)
  {
    Short(data, m + 14 + SegCount(data, m) * 4 + 2 + 2 * i)
  }

  function IdRangePosition(data: seq<byte>, m: nat, i: nat): nat
    requires Inside(data, m) && i < SegCount(data, m)
  {
    m + 14 + SegCount(data, m) * 6 + 2 + 2 * i
  }

  // Header fields that fit together: the largest power of two in segCount, and the rest.
  predicate HeaderFits(data: seq<byte>, m: nat)
    requires Inside(data, m)
  {
    var n, power := SegCount(data, m), Pow2(UShort(data, m + 10));
    && power <= n < 2 * power
    && UShort(data, m + 8) / 2 == power
    && UShort(data, m + 12) / 2 == n - power
  }

  /** A subtable as section "cmap", Format 4 of the OpenType specification asks for. */
  predicate IsFormat4(data: seq<byte>, m: nat) {
    && Inside(data, m) && HeaderFits(data, m)
    && (forall i, j :: 0 <= i < j < SegCount(data, m) ==> EndCode(data, m, i) < EndCode(data, m, j))
    && EndCode(data, m, SegCount(data, m) - 1) == 0xFFFF
  }

  // The first segment from i on that ends at or behind the code point.
  function Scan(data: seq<byte>, m: nat, cp: int, i: nat): (s: nat)
    requires IsFormat4(data, m) && cp <= 0xFFFF && i < SegCount(data, m)
    ensures i <= s < SegCount(data, m) && cp <= EndCode(data, m, s)
    ensures forall k :: i <= k < s ==> EndCode(data, m, k) < cp
    decreases SegCount(data, m) - i
  {
    if cp <= EndCode(data, m, i) || i + 1 >= SegCount(data, m) then i else Scan(data, m, cp, i + 1)
  }

  // The glyph numbers of the segment that are behind the four arrays lie within the data.
  predicate GlyphInside(data: seq<byte>, m: nat, cp: int, s: nat)
    requires Inside(data, m) && s < SegCount(data, m)
  {
    var offset := UShort(data, IdRangePosition(data, m, s));
    StartCode(data, m, s) <= cp && offset != 0 ==>
      offset + (cp - StartCode(data, m, s)) * 2 + IdRangePosition(data, m, s) + 1 < |data|
  }

  function GlyphIn(data: seq<byte>, m: nat, cp: int, s: nat): nat
    requires Inside(data, m) && s < SegCount(data, m) && GlyphInside(data, m, cp, s)
  {
    var position := IdRangePosition(data, m, s);
    var offset := UShort(data, position);
    if cp < StartCode(data, m, s) then 0
    else if offset == 0 then (cp + IdDelta(data, m, s)) % 0x1_0000
    else UShort(data, offset + (cp - StartCode(data, m, s)) * 2 + position)
  }

  // ----- subtables written from segments ----------------------------------------------------------

  // Code points with consecutive glyphs from `glyph` on, or with a glyph each.
  datatype Segment =
    | ByDelta(start: nat, end: nat, glyph: nat)
    | ByArray(start: nat, end: nat, glyphs: seq<nat>)

  predicate IsSegment(s: Segment) {
    s.start <= s.end <= 0xFFFF &&
    match s
    case ByDelta(start, end, glyph) => glyph + (end - start) <= 0xFFFF
    case ByArray(start, end, glyphs) =>
      |glyphs| == end - start + 1 && forall k :: 0 <= k < |glyphs| ==> glyphs[k] <= 0xFFFF
  }

  predicate Covers(s: Segment, cp: int) {
    s.start <= cp <= s.end
  }

  // The glyph that the segment assigns to a code point.
  function GlyphOf(s: Segment, cp: int): nat
    requires IsSegment(s) && Covers(s, cp)
  {
    match s
    case ByDelta(start, _, glyph) => glyph + (cp - start)
    case ByArray(start, _, glyphs) => glyphs[cp - start]
  }

  // Ascending and disjoint, up to 0xFFFF.
  predicate AreSegments(segs: seq<Segment>) {
    && segs != [] && segs[|segs| - 1].end == 0xFFFF
    && (forall i :: 0 <= i < |segs| ==> IsSegment(segs[i]))
    && (forall i, j :: 0 <= i < j < |segs| ==> segs[i].end < segs[j].start)
  }

  function ArrayOf(s: Segment): seq<nat> {
    if s.ByArray? then s.glyphs else []
  }

  // The glyphs of all segments that have a glyph for each code point.
  function GlyphArray(segs: seq<Segment>): seq<nat> {
    if segs == [] then [] else GlyphArray(segs[..|segs| - 1]) + ArrayOf(segs[|segs| - 1])
  }

  function Log2(n: nat): (k: nat)
    requires n > 0
    ensures Pow2(k) <= n < 2 * Pow2(k)
  {
    if n == 1 then 0 else 1 + Log2(n / 2)
  }

  function DeltaOf(s: Segment): nat {
    if s.ByDelta? then (s.glyph - s.start) % 0x1_0000 else 0
  }

  // From where the offset is stored to the segment's first glyph.
  function OffsetOf(segs: seq<Segment>, i: nat): nat
    requires i < |segs|
  {
    if segs[i].ByDelta? then 0 else 2 * (|segs| - i + |GlyphArray(segs[..i])|)
  }

  function WordCount(segs: seq<Segment>): nat {
    8 + 4 * |segs| + |GlyphArray(segs)|
  }

  // Format, length and language; the number of segments and what helps to search them, doubled.
  function Header(segs: seq<Segment>): (w: seq<nat>)
    requires segs != []
    ensures |w| == 7
  {
    var n, k := |segs|, Log2(|segs|);
    [4, 2 * WordCount(segs), 0, 2 * n, 2 * Pow2(k), k, 2 * (n - Pow2(k))]
  }

  /** The subtable as section "cmap", Format 4 of the OpenType specification lays it out. */
  function Words(segs: seq<Segment>): (w: seq<nat>)
    requires segs != []
    ensures |w| == WordCount(segs)
  {
    var n := |segs|;
    Header(segs)
    + seq(n, i requires 0 <= i < n => segs[i].end) + [0]
    + seq(n, i requires 0 <= i < n => segs[i].start)
    + seq(n, i requires 0 <= i < n => DeltaOf(segs[i]))
    + seq(n, i requires 0 <= i < n => OffsetOf(segs, i))
    + GlyphArray(segs)
  }

  // Two bytes for each word, the high one first.
  predicate IsWritten(data: seq<byte>, m: nat, words: seq<nat>) {
    && m + 2 * |words| <= |data|
    && forall i :: 0 <= i < |words| ==> data[m + 2 * i] == words[i] / 256 && data[m + 2 * i + 1] == words[i] % 256
  }

  // The segments' subtable is at m.
  predicate IsTableOf(data: seq<byte>, m: nat, segs: seq<Segment>) {
    AreSegments(segs) && 2 * WordCount(segs) <= 0xFFFF && IsWritten(data, m, Words(segs))
  }

  lemma WordAt(data: seq<byte>, m: nat, words: seq<nat>, i: nat)
    requires IsWritten(data, m, words) && i < |words|
    ensures UShort(data, m + 2 * i) == words[i]
  {
    assert data[m + 2 * i] == words[i] / 256 && data[m + 2 * i + 1] == words[i] % 256;
  }

  // Where the words of the i-th segment are.
  lemma SegmentWords(segs: seq<Segment>, i: nat)
    requires i < |segs|
    ensures var w, n := Words(segs), |segs|;
            && w[7 + i] == segs[i].end && w[8 + n + i] == segs[i].start
            && w[8 + 2 * n + i] == DeltaOf(segs[i]) && w[8 + 3 * n + i] == OffsetOf(segs, i)
  {
  }

  lemma HeaderWords(segs: seq<Segment>, i: nat)
    requires segs != [] && i < 7
    ensures Words(segs)[i] == Header(segs)[i]
  {
    hide Header, GlyphArray, OffsetOf, DeltaOf;
  }

  lemma {:induction false} ArrayWords(segs: seq<Segment>, i: nat, k: nat)
    requires i < |segs| && k < |ArrayOf(segs[i])|
    ensures |GlyphArray(segs[..i])| + k < |GlyphArray(segs)|
    ensures GlyphArray(segs)[|GlyphArray(segs[..i])| + k] == ArrayOf(segs[i])[k]
  {
    var n := |segs| - 1;
    if i < n {
      ArrayWords(segs[..n], i, k);
      assert segs[..n][..i] == segs[..i];
    }
  }

  lemma GlyphWord(segs: seq<Segment>, i: nat, k: nat)
    requires i < |segs| && k < |ArrayOf(segs[i])|
    ensures var p := 8 + 4 * |segs| + |GlyphArray(segs[..i])| + k;
            p < WordCount(segs) && Words(segs)[p] == ArrayOf(segs[i])[k]
  {
    hide GlyphArray;
    ArrayWords(segs, i, k);
  }

  lemma HeaderWord(data: seq<byte>, m: nat, segs: seq<Segment>, i: nat)
    requires IsTableOf(data, m, segs) && i < 7
    ensures m + 14 <= |data| && UShort(data, m + 2 * i) == Header(segs)[i]
  {
    hide Words, IsWritten, UShort, Header, GlyphArray;
    HeaderWords(segs, i);
    WordAt(data, m, Words(segs), i);
    WrittenInside(data, m, Words(segs));
  }

  // What is read of the header and of the i-th segment.
  lemma HeaderRead(data: seq<byte>, m: nat, segs: seq<Segment>)
    requires IsTableOf(data, m, segs)
    ensures Inside(data, m) && SegCount(data, m) == |segs| && HeaderFits(data, m)
  {
    hide Words, IsWritten, UShort, Log2, GlyphArray;
    HeaderWord(data, m, segs, 3);
    HeaderWord(data, m, segs, 4);
    HeaderWord(data, m, segs, 5);
    HeaderWord(data, m, segs, 6);
    WrittenInside(data, m, Words(segs));
  }

  lemma WrittenInside(data: seq<byte>, m: nat, words: seq<nat>)
    requires IsWritten(data, m, words)
    ensures m + 2 * |words| <= |data|
  {
  }

  lemma SegmentRead(data: seq<byte>, m: nat, segs: seq<Segment>, i: nat)
    requires IsTableOf(data, m, segs) && Inside(data, m) && SegCount(data, m) == |segs| && i < |segs|
    ensures EndCode(data, m, i) == segs[i].end && StartCode(data, m, i) == segs[i].start
    ensures IdDelta(data, m, i) % 0x1_0000 == DeltaOf(segs[i])
    ensures UShort(data, IdRangePosition(data, m, i)) == OffsetOf(segs, i)
  {
    hide Words, IsWritten, UShort, OffsetOf, GlyphArray;
    var n := |segs|;
    SegmentWords(segs, i);
    WordAt(data, m, Words(segs), 7 + i);
    WordAt(data, m, Words(segs), 8 + n + i);
    WordAt(data, m, Words(segs), 8 + 2 * n + i);
    WordAt(data, m, Words(segs), 8 + 3 * n + i);
  }

  lemma TableIsFormat4(data: seq<byte>, m: nat, segs: seq<Segment>)
    requires IsTableOf(data, m, segs)
    ensures IsFormat4(data, m)
  {
    hide IsTableOf, HeaderFits, EndCode, SegCount;
    HeaderRead(data, m, segs);
    forall i | 0 <= i < |segs| ensures EndCode(data, m, i) == segs[i].end { SegmentRead(data, m, segs, i); }
    EndsAscend(data, m, segs);
  }

  lemma EndsAscend(data: seq<byte>, m: nat, segs: seq<Segment>)
    requires IsTableOf(data, m, segs)
    ensures |segs| > 0 && segs[|segs| - 1].end == 0xFFFF
    ensures forall i, j :: 0 <= i < j < |segs| ==> segs[i].end < segs[j].end
  {
  }

  // The end codes settle which segment it is.
  lemma ScanIsLeast(data: seq<byte>, m: nat, cp: int, s: nat)
    requires IsFormat4(data, m) && cp <= 0xFFFF && s < SegCount(data, m)
    requires cp <= EndCode(data, m, s) && (s > 0 ==> EndCode(data, m, s - 1) < cp)
    ensures Scan(data, m, cp, 0) == s
  {
    assert forall k :: 0 <= k < s ==> EndCode(data, m, k) < cp;
  }

  lemma SegmentSought(data: seq<byte>, m: nat, segs: seq<Segment>, cp: int, i: nat)
    requires IsTableOf(data, m, segs) && IsFormat4(data, m) && SegCount(data, m) == |segs|
    requires i < |segs| && cp <= segs[i].end && (i > 0 ==> segs[i - 1].end < cp) && cp <= 0xFFFF
    ensures Scan(data, m, cp, 0) == i
  {
    hide IsTableOf, EndCode, SegCount, Scan;
    SegmentRead(data, m, segs, i);
    if i > 0 { SegmentRead(data, m, segs, i - 1); }
    ScanIsLeast(data, m, cp, i);
  }

  lemma SumMod(cp: nat, start: nat, glyph: nat, delta: int)
    requires start <= cp && glyph + (cp - start) <= 0xFFFF && delta % 0x1_0000 == (glyph - start) % 0x1_0000
    ensures (cp + delta) % 0x1_0000 == glyph + (cp - start)
  {
  }

  // A glyph read from the i-th segment.
  lemma GlyphRead(data: seq<byte>, m: nat, segs: seq<Segment>, cp: int, i: nat)
    requires IsTableOf(data, m, segs) && IsFormat4(data, m) && SegCount(data, m) == |segs|
    requires Inside(data, m) && i < |segs| && cp <= segs[i].end
    ensures GlyphInside(data, m, cp, i)
    ensures GlyphIn(data, m, cp, i) == if Covers(segs[i], cp) then GlyphOf(segs[i], cp) else 0
  {
    hide AreSegments, Words, IsWritten, UShort, GlyphArray, IsFormat4;
    SegmentRead(data, m, segs, i);
    assert IsSegment(segs[i]) by { SegmentOk(segs, i); }
    if Covers(segs[i], cp) {
      match segs[i]
      case ByDelta(start, _, glyph) => SumMod(cp, start, glyph, IdDelta(data, m, i));
      case ByArray(start, _, glyphs) =>
        GlyphWord(segs, i, cp - start);
        WordAt(data, m, Words(segs), 8 + 4 * |segs| + |GlyphArray(segs[..i])| + (cp - start));
        WrittenInside(data, m, Words(segs));
    }
  }

  lemma SegmentOk(segs: seq<Segment>, i: nat)
    requires AreSegments(segs) && i < |segs|
    ensures IsSegment(segs[i])
  {
  }

  // The first segment that ends at or behind the code point.
  function FirstAt(segs: seq<Segment>, cp: int, i: nat): (r: nat)
    requires i < |segs| && cp <= segs[|segs| - 1].end
    requires i > 0 ==> segs[i - 1].end < cp
    ensures r < |segs| && cp <= segs[r].end && (r > 0 ==> segs[r - 1].end < cp)
    decreases |segs| - i
  {
    if cp <= segs[i].end then i else FirstAt(segs, cp, i + 1)
  }

  lemma OnlyFirstCovers(segs: seq<Segment>, cp: int, r: nat, i: nat)
    requires AreSegments(segs) && r < |segs| && cp <= segs[r].end && (r > 0 ==> segs[r - 1].end < cp)
    requires i < |segs| && Covers(segs[i], cp)
    ensures i == r
  {
    assert forall k :: 0 <= k < |segs| ==> segs[k].start <= segs[k].end by {
      forall k | 0 <= k < |segs| ensures segs[k].start <= segs[k].end { assert IsSegment(segs[k]); }
    }
  }

  /** What a subtable is for: in one written from segments, a code point of a segment has the glyph
      that the segment assigns to it, and any other has none. */
  lemma AssignedGlyph(data: seq<byte>, m: nat, segs: seq<Segment>, cp: int)
    requires IsTableOf(data, m, segs) && cp <= 0xFFFF
    ensures IsFormat4(data, m) && GlyphInside(data, m, cp, Scan(data, m, cp, 0))
    ensures IsAssigned(segs, cp, GlyphIn(data, m, cp, Scan(data, m, cp, 0)))
  {
    hide IsTableOf, SegCount, GlyphInside, GlyphIn, Scan, IsFormat4, Inside;
    TableIsFormat4(data, m, segs);
    HeaderRead(data, m, segs);
    EndsAscend(data, m, segs);
    TableHasSegments(data, m, segs);
    var r := FirstAt(segs, cp, 0);
    SegmentSought(data, m, segs, cp, r);
    GlyphRead(data, m, segs, cp, r);
    forall i: nat | i < |segs| && Covers(segs[i], cp) ensures i == r { OnlyFirstCovers(segs, cp, r, i); }
  }

  lemma TableHasSegments(data: seq<byte>, m: nat, segs: seq<Segment>)
    requires IsTableOf(data, m, segs)
    ensures AreSegments(segs)
  {
  }

  predicate IsAssigned(segs: seq<Segment>, cp: int, glyph: nat)
    requires AreSegments(segs)
  {
    && (forall i :: 0 <= i < |segs| && Covers(segs[i], cp) ==> glyph == GlyphOf(segs[i], cp))
    && ((forall i :: 0 <= i < |segs| ==> !Covers(segs[i], cp)) ==> glyph == 0)
  }

  // The segment sought is one of the count from base on.
  predicate Bracket(data: seq<byte>, m: nat, cp: int, base: nat, count: nat)
    requires Inside(data, m)
  {
    && count >= 1 && base + count <= SegCount(data, m)
    && (base > 0 ==> EndCode(data, m, base - 1) < cp)
    && cp <= EndCode(data, m, base + count - 1)
  }

  // The first probe picks one of the two powers of two that cover the segments.
  lemma BracketAtStart(data: seq<byte>, m: nat, cp: int, base: nat)
    requires IsFormat4(data, m) && cp <= 0xFFFF
    requires var shift := UShort(data, m + 12) / 2;
             base == if cp >= EndCode(data, m, shift) then shift else 0
    ensures Bracket(data, m, cp, base, UShort(data, m + 8) / 2)
  {
    hide UShort, EndCode;
    var shift, power := UShort(data, m + 12) / 2, UShort(data, m + 8) / 2;
    var n := SegCount(data, m);
    assert shift + power == n && shift <= power - 1;
    if base == 0 && shift < power - 1 { assert EndCode(data, m, shift) < EndCode(data, m, power - 1); }
  }

  // Half a bracket is left, on either side of the probe.
  lemma BracketHalves(data: seq<byte>, m: nat, cp: int, base: nat, half: nat)
    requires Inside(data, m) && half > 0 && Bracket(data, m, cp, base, 2 * half)
    ensures base + half - 1 < SegCount(data, m)
    ensures Bracket(data, m, cp, if cp > EndCode(data, m, base + half - 1) then base + half else base, half)
  {
  }

  lemma BracketOfOne(data: seq<byte>, m: nat, cp: int, base: nat)
    requires IsFormat4(data, m) && cp <= 0xFFFF && Bracket(data, m, cp, base, 1)
    ensures Scan(data, m, cp, 0) == base
  {
    ScanIsLeast(data, m, cp, base);
  }

  // The binary search: the segment that a scan finds.
  method FindSegment(data: seq<byte>, m: nat, cp: int) returns (item: nat)
    requires IsFormat4(data, m) && cp <= 0xFFFF
    ensures item == Scan(data, m, cp, 0)
  {
    hide UShort, Scan, Bracket;
    var searchRange := UShort(data, m + 8) / 2;
    var entrySelector := UShort(data, m + 10);
    var rangeShift := UShort(data, m + 12) / 2;
    var endCount := m + 14;
    var search: int := endCount;
    if cp >= UShort(data, search + rangeShift * 2) {
      search := search + rangeShift * 2;
    }
    ghost var base: nat := (search - endCount) / 2;
    BracketAtStart(data, m, cp, base);
    search := search - 2;
    while entrySelector > 0
      invariant search == endCount + 2 * base - 2 && searchRange == Pow2(entrySelector)
      invariant Bracket(data, m, cp, base, searchRange)
    {
      searchRange := searchRange / 2;
      BracketHalves(data, m, cp, base, searchRange);
      var end := UShort(data, search + searchRange * 2);
      if cp > end {
        search := search + searchRange * 2;
        base := base + searchRange;
      }
      entrySelector := entrySelector - 1;
    }
    search := search + 2;
    item := (search - endCount) / 2;
    BracketOfOne(data, m, cp, base);
  }

  lemma NoneBehind(segs: seq<Segment>, cp: int)
    requires AreSegments(segs) && cp > 0xFFFF
    ensures IsAssigned(segs, cp, 0)
  {
    assert forall i :: 0 <= i < |segs| ==> IsSegment(segs[i]);
  }

  /** FindGlyphIndex for format 4 finds the glyph that a scan of the segments finds: that of the
      first segment that ends at or behind the code point, if it starts at or before it.  In a
      subtable written from segments it is the glyph that these assign to the code point. */
  method FindGlyphIndex(data: seq<byte>, m: nat, cp: int) returns (glyph: nat)
    requires IsFormat4(data, m)
    requires cp <= 0xFFFF ==> GlyphInside(data, m, cp, Scan(data, m, cp, 0))
    ensures cp > 0xFFFF ==> glyph == 0
    ensures cp <= 0xFFFF ==> glyph == GlyphIn(data, m, cp, Scan(data, m, cp, 0))
    ensures forall segs :: IsTableOf(data, m, segs) ==> IsAssigned(segs, cp, glyph)
  {
    hide UShort, Scan, IsTableOf, IsAssigned;
    forall segs | IsTableOf(data, m, segs)
      ensures AreSegments(segs)
      ensures cp <= 0xFFFF ==> IsAssigned(segs, cp, GlyphIn(data, m, cp, Scan(data, m, cp, 0)))
      ensures cp > 0xFFFF ==> IsAssigned(segs, cp, 0)
    {
      TableHasSegments(data, m, segs);
      if cp <= 0xFFFF { AssignedGlyph(data, m, segs, cp); } else { NoneBehind(segs, cp); }
    }
    if cp > 0xFFFF { return 0; }
    var item := FindSegment(data, m, cp);
    var start := StartCode(data, m, item);
    if cp < start { return 0; }
    var position := IdRangePosition(data, m, item);
    var offset := UShort(data, position);
    if offset == 0 { return (cp + IdDelta(data, m, item)) % 0x1_0000; }
    glyph := UShort(data, offset + (cp - start) * 2 + position);
  }
}

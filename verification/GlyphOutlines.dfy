/** From an outline to the vertices that stb_truetype hands out for its glyph, which keep sixteen bits of
    every coordinate. */
module GlyphOutlines {
  import opened CharstringSpec
  import opened CharstringCounts
  import opened CharstringDrawing
  import opened Charstring

  // a is b in sixteen bits, with a sign.
  predicate IsCut(a: int, b: int) {
    IsShort(a) && (a - b) % 0x1_0000 == 0
  }

  lemma Int16IsCut(v: int)
    ensures IsCut(Int16(v), v) && (IsShort(v) ==> Int16(v) == v)
  {
    var q := v / 0x1_0000;
    assert v == q * 0x1_0000 + v % 0x1_0000;
  }

  predicate CoordinatesShort(v: Vertex) {
    IsShort(v.x) && IsShort(v.y) && IsShort(v.cx) && IsShort(v.cy) && IsShort(v.cx1) && IsShort(v.cy1)
  }

  /** Each coordinate of a stored vertex is the one drawn, up to multiples of 65536; short ones are
      stored as they are. */
  lemma StoredIsCut(v: Vertex)
    ensures var s := Stored(v);
            && s.kind == v.kind
            && IsCut(s.x, v.x) && IsCut(s.y, v.y) && IsCut(s.cx, v.cx) && IsCut(s.cy, v.cy)
            && IsCut(s.cx1, v.cx1) && IsCut(s.cy1, v.cy1)
    ensures CoordinatesShort(v) ==> Stored(v) == v
  {
    hide Int16, IsCut;
    Int16IsCut(v.x);
    Int16IsCut(v.y);
    Int16IsCut(v.cx);
    Int16IsCut(v.cy);
    Int16IsCut(v.cx1);
    Int16IsCut(v.cy1);
  }

  /** The glyph of an outline with short coordinates, in a charstring without subroutines, can be handed
      out, and what is stored is the outline. */
  lemma OutlineIsStored(font: Font, contours: seq<Contour>)
    requires ContoursShort(contours) && font.charstring == CharstringOf(contours)
    requires !HasSubroutines(font) && |font.charstring| <= INT_MAX
    requires forall k :: 0 <= k < |Outline(contours)| ==> CoordinatesShort(Outline(contours)[k])
    ensures CountersFit(font) && Run(font, Start(font)).ok
    ensures var path := Run(font, Start(font)).drawn.path;
            |path| == |Outline(contours)| && forall k :: 0 <= k < |path| ==> Stored(path[k]) == Outline(contours)[k]
  {
    hide Run, Outline, CharstringOf, ContoursShort, Stored, CoordinatesShort, CountersFit, HasSubroutines;
    OutlineIsDrawn(font, contours);
    CountersFitWithoutSubroutines(font);
    forall k: nat | k < |Outline(contours)| ensures Stored(Outline(contours)[k]) == Outline(contours)[k] {
      StoredIsCut(Outline(contours)[k]);
    }
  }
}

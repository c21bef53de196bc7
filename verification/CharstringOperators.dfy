/** The drawing operators in terms of three of them: every other one draws what rmoveto, rlineto or
    rrcurveto draws with the operands it stands for. */
module CharstringOperators {
  import opened Basics
  import opened CharstringSpec

  const VMOVETO: byte := 0x04
  const RLINETO: byte := 0x05
  const HLINETO: byte := 0x06
  const VLINETO: byte := 0x07
  const RRCURVETO: byte := 0x08
  const RMOVETO: byte := 0x15
  const HMOVETO: byte := 0x16
  const RCURVELINE: byte := 0x18
  const RLINECURVE: byte := 0x19
  const VVCURVETO: byte := 0x1A
  const HHCURVETO: byte := 0x1B
  const VHCURVETO: byte := 0x1E
  const HVCURVETO: byte := 0x1F
  const HFLEX: byte := 0x22
  const FLEX: byte := 0x23
  const HFLEX1: byte := 0x24
  const FLEX1: byte := 0x25

  // The fewest operands that the operator takes.
  function Needed(op: byte): nat {
    if op in {VMOVETO, HMOVETO, HLINETO, VLINETO} then 1
    else if op in {RMOVETO, RLINETO} then 2
    else if op in {HVCURVETO, VHCURVETO, HHCURVETO, VVCURVETO} then 4
    else if op == RRCURVETO then 6
    else 8
  }

  /** An operator fails, and draws nothing, just when there are too few operands for it. */
  lemma FailsWhenTooFew(op: byte, d: Drawn, s: seq<real>)
    requires IsDrawing(op)
    ensures Draw(op, d, s).ok <==> |s| >= Needed(op)
    ensures |s| < Needed(op) ==> Draw(op, d, s).drawn == d
  {
    hide Lines, Curves, AlternatingLines, AlternatingCurves, FlatCurves, MoveTo, LineTo, CurveTo;
    CurvesEndIs(0, |s| - 2);
    LinesEndIs(0, |s| - 6);
  }

  lemma {:induction false} CurvesEndIs(i: nat, end: int)
    ensures CurvesEnd(i, end) == if i < end then i + 6 * ((end - i) / 6) else i
    decreases end - i
  {
    if i + 5 < end { CurvesEndIs(i + 6, end); }
  }

  lemma {:induction false} LinesEndIs(i: nat, end: int)
    ensures LinesEnd(i, end) == if i < end then i + 2 * ((end - i) / 2) else i
    decreases end - i
  {
    if i + 1 < end { LinesEndIs(i + 2, end); }
  }

  // ----- moves ----------------------------------------------------------------------------------------

  /** A move takes the last operands; what is in front of them, as a width, does not count. */
  lemma MovesExpand(d: Drawn, a: seq<real>, dx: real, dy: real)
    ensures Draw(RMOVETO, d, a + [dx, dy]) == Draw(RMOVETO, d, [dx, dy])
    ensures Draw(HMOVETO, d, a + [dx]) == Draw(RMOVETO, d, [dx, 0.0])
    ensures Draw(VMOVETO, d, a + [dy]) == Draw(RMOVETO, d, [0.0, dy])
  {
    hide MoveTo;
  }

  // ----- lines and curves one after the other ---------------------------------------------------------------

  lemma {:induction false} LinesBehind(d: Drawn, a: seq<real>, b: seq<real>, i: nat)
    ensures Lines(d, a + b, |a| + i, |a + b|) == Lines(d, b, i, |b|)
    decreases |b| - i
  {
    hide LineTo;
    if i + 1 < |b| {
      assert (a + b)[|a| + i] == b[i] && (a + b)[|a| + i + 1] == b[i + 1];
      LinesBehind(LineTo(d, b[i], b[i + 1]), a, b, i + 2);
    }
  }

  lemma {:induction false} LinesInFront(d: Drawn, a: seq<real>, b: seq<real>, i: nat)
    requires i <= |a| && (|a| - i) % 2 == 0
    ensures Lines(d, a + b, i, |a + b|) == Lines(Lines(d, a, i, |a|), b, 0, |b|)
    decreases |a| - i
  {
    hide LineTo;
    if i < |a| {
      assert (a + b)[i] == a[i] && (a + b)[i + 1] == a[i + 1];
      LinesInFront(LineTo(d, a[i], a[i + 1]), a, b, i + 2);
    } else {
      LinesBehind(d, a, b, 0);
    }
  }

  // The loop stops where less than two operands are left.
  lemma {:induction false} LinesUpTo(d: Drawn, s: seq<real>, i: nat, end: nat)
    requires i <= end <= |s|
    ensures Lines(d, s, i, end) == Lines(d, s[..end], i, end)
    decreases end - i
  {
    hide LineTo;
    if i + 1 < end { LinesUpTo(LineTo(d, s[i], s[i + 1]), s, i + 2, end); }
  }

  lemma NoLine(d: Drawn, b: seq<real>)
    requires |b| < 2
    ensures Lines(d, b, 0, |b|) == d
  {
  }

  /** One rlineto is as good as two with the same operands; an odd operand at the end is ignored. */
  lemma LinesFollow(d: Drawn, a: seq<real>, b: seq<real>)
    requires |a| >= 2 && |a| % 2 == 0
    ensures Draw(RLINETO, d, a + b) == if |b| >= 2 then Draw(RLINETO, Draw(RLINETO, d, a).drawn, b)
                                       else Draw(RLINETO, d, a)
  {
    hide Lines;
    LinesInFront(d, a, b, 0);
    if |b| < 2 { NoLine(Lines(d, a, 0, |a|), b); }
  }

  lemma {:induction false} CurvesBehind(d: Drawn, a: seq<real>, b: seq<real>, i: nat)
    ensures Curves(d, a + b, |a| + i, |a + b|) == Curves(d, b, i, |b|)
    decreases |b| - i
  {
    hide CurveTo;
    if i + 5 < |b| {
      assert forall k :: |a| <= k < |a + b| ==> (a + b)[k] == b[k - |a|];
      CurvesBehind(CurveTo(d, b[i], b[i + 1], b[i + 2], b[i + 3], b[i + 4], b[i + 5]), a, b, i + 6);
    }
  }

  lemma {:induction false} CurvesInFront(d: Drawn, a: seq<real>, b: seq<real>, i: nat)
    requires i <= |a| && (|a| - i) % 6 == 0
    ensures Curves(d, a + b, i, |a + b|) == Curves(Curves(d, a, i, |a|), b, 0, |b|)
    decreases |a| - i
  {
    hide CurveTo;
    if i < |a| {
      assert i + 5 < |a|;
      CurvesInFront(CurveTo(d, a[i], a[i + 1], a[i + 2], a[i + 3], a[i + 4], a[i + 5]), a, b, i + 6);
    } else {
      CurvesBehind(d, a, b, 0);
    }
  }

  lemma {:induction false} CurvesUpTo(d: Drawn, s: seq<real>, i: nat, end: nat)
    requires i <= end <= |s|
    ensures Curves(d, s, i, end) == Curves(d, s[..end], i, end)
    decreases end - i
  {
    hide CurveTo;
    if i + 5 < end { CurvesUpTo(CurveTo(d, s[i], s[i + 1], s[i + 2], s[i + 3], s[i + 4], s[i + 5]), s, i + 6, end); }
  }

  lemma NoCurve(d: Drawn, b: seq<real>)
    requires |b| < 6
    ensures Curves(d, b, 0, |b|) == d
  {
  }

  /** One rrcurveto is as good as two with the same operands; up to five at the end are ignored. */
  lemma CurvesFollow(d: Drawn, a: seq<real>, b: seq<real>)
    requires |a| >= 6 && |a| % 6 == 0
    ensures Draw(RRCURVETO, d, a + b) == if |b| >= 6 then Draw(RRCURVETO, Draw(RRCURVETO, d, a).drawn, b)
                                         else Draw(RRCURVETO, d, a)
  {
    hide Curves;
    CurvesInFront(d, a, b, 0);
    if |b| < 6 { NoCurve(Curves(d, a, 0, |a|), b); }
  }

  // ----- hlineto and vlineto -----------------------------------------------------------------------------

  // Each operand is the length of a line, horizontal and vertical in turn.
  function LineOperands(s: seq<real>, horizontal: bool): (r: seq<real>)
    ensures |r| == 2 * |s|
  {
    if s == [] then []
    else (if horizontal then [s[0], 0.0] else [0.0, s[0]]) + LineOperands(s[1..], !horizontal)
  }

  lemma OneLineFirst(d: Drawn, a: seq<real>, b: seq<real>)
    requires |a| == 2
    ensures Lines(d, a + b, 0, |a + b|) == Lines(LineTo(d, a[0], a[1]), b, 0, |b|)
  {
    hide LineTo;
    LinesInFront(d, a, b, 0);
    assert Lines(d, a, 0, 2) == LineTo(d, a[0], a[1]);
  }

  lemma {:induction false} AlternatingIsLines(d: Drawn, s: seq<real>, i: nat, horizontal: bool)
    requires i <= |s|
    ensures var r := LineOperands(s[i..], horizontal); AlternatingLines(d, s, i, horizontal) == Lines(d, r, 0, |r|)
    decreases |s| - i
  {
    hide LineTo, Lines;
    if i < |s| {
      var rest := s[i..];
      assert rest[1..] == s[i + 1..] && rest[0] == s[i];
      var a := if horizontal then [s[i], 0.0] else [0.0, s[i]];
      AlternatingIsLines(LineTo(d, a[0], a[1]), s, i + 1, !horizontal);
      OneLineFirst(d, a, LineOperands(rest[1..], !horizontal));
    } else {
      NoLine(d, LineOperands(s[i..], horizontal));
    }
  }

  /** hlineto and vlineto draw lines that are horizontal and vertical in turn. */
  lemma LinesExpand(d: Drawn, s: seq<real>)
    requires s != []
    ensures Draw(HLINETO, d, s) == Draw(RLINETO, d, LineOperands(s, true))
    ensures Draw(VLINETO, d, s) == Draw(RLINETO, d, LineOperands(s, false))
  {
    hide Lines, AlternatingLines;
    assert s[0..] == s;
    AlternatingIsLines(d, s, 0, true);
    AlternatingIsLines(d, s, 0, false);
  }

  // ----- the shorter forms of curves -------------------------------------------------------------------------

  lemma OneCurveFirst(d: Drawn, a: seq<real>, b: seq<real>)
    requires |a| == 6
    ensures Curves(d, a + b, 0, |a + b|) == Curves(CurveTo(d, a[0], a[1], a[2], a[3], a[4], a[5]), b, 0, |b|)
  {
    hide CurveTo;
    CurvesInFront(d, a, b, 0);
    assert Curves(d, a, 0, 6) == CurveTo(d, a[0], a[1], a[2], a[3], a[4], a[5]);
  }

  // Four operands a curve, with one more for the last: a horizontal tangent at one end and a vertical
  // one at the other, in turn.
  function CurveOperands(s: seq<real>, horizontal: bool): (r: seq<real>)
    ensures |s| >= 4 ==> |r| >= 6
  {
    if |s| < 4 then []
    else
      var last := if |s| == 5 then s[4] else 0.0;
      (if horizontal then [s[0], 0.0, s[1], s[2], last, s[3]] else [0.0, s[0], s[1], s[2], s[3], last])
      + CurveOperands(s[4..], !horizontal)
  }

  lemma {:induction false} AlternatingIsCurves(d: Drawn, s: seq<real>, i: nat, horizontal: bool)
    requires i <= |s|
    ensures var r := CurveOperands(s[i..], horizontal); AlternatingCurves(d, s, i, horizontal) == Curves(d, r, 0, |r|)
    decreases |s| - i
  {
    hide CurveTo, Curves;
    var rest := s[i..];
    if i + 3 < |s| {
      assert rest[4..] == s[i + 4..];
      var last := if |s| - i == 5 then s[i + 4] else 0.0;
      var a := if horizontal then [s[i], 0.0, s[i + 1], s[i + 2], last, s[i + 3]]
               else [0.0, s[i], s[i + 1], s[i + 2], s[i + 3], last];
      AlternatingIsCurves(OneAlternatingCurve(d, s, i, horizontal), s, i + 4, !horizontal);
      OneCurveFirst(d, a, CurveOperands(rest[4..], !horizontal));
    } else {
      NoCurve(d, CurveOperands(rest, horizontal));
    }
  }

  /** hvcurveto and vhcurveto. */
  lemma AlternatingCurvesExpand(d: Drawn, s: seq<real>)
    requires |s| >= 4
    ensures Draw(HVCURVETO, d, s) == Draw(RRCURVETO, d, CurveOperands(s, true))
    ensures Draw(VHCURVETO, d, s) == Draw(RRCURVETO, d, CurveOperands(s, false))
  {
    hide Curves, AlternatingCurves, CurveOperands;
    assert s[0..] == s;
    AlternatingIsCurves(d, s, 0, true);
    AlternatingIsCurves(d, s, 0, false);
  }

  // Four operands a curve, with the same tangent at both ends; f is how far the first one is off it.
  function FlatOperands(s: seq<real>, f: real, horizontal: bool): (r: seq<real>)
    ensures |s| >= 4 ==> |r| >= 6
  {
    if |s| < 4 then []
    else
      (if horizontal then [s[0], f, s[1], s[2], s[3], 0.0] else [f, s[0], s[1], s[2], 0.0, s[3]])
      + FlatOperands(s[4..], 0.0, horizontal)
  }

  lemma {:induction false} FlatIsCurves(d: Drawn, s: seq<real>, i: nat, f: real, horizontal: bool)
    requires i <= |s|
    ensures var r := FlatOperands(s[i..], f, horizontal); FlatCurves(d, s, i, f, horizontal) == Curves(d, r, 0, |r|)
    decreases |s| - i
  {
    hide CurveTo, Curves;
    var rest := s[i..];
    if i + 3 < |s| {
      assert rest[4..] == s[i + 4..];
      var a := if horizontal then [s[i], f, s[i + 1], s[i + 2], s[i + 3], 0.0]
               else [f, s[i], s[i + 1], s[i + 2], 0.0, s[i + 3]];
      FlatIsCurves(OneFlatCurve(d, s, i, f, horizontal), s, i + 4, 0.0, horizontal);
      OneCurveFirst(d, a, FlatOperands(rest[4..], 0.0, horizontal));
    } else {
      NoCurve(d, FlatOperands(rest, f, horizontal));
    }
  }

  /** hhcurveto and vvcurveto: with an odd number of operands the first one is the first curve's
      other offset. */
  lemma FlatCurvesExpand(d: Drawn, f: real, s: seq<real>)
    requires |s| >= 4 && |s| % 2 == 0
    ensures Draw(HHCURVETO, d, s) == Draw(RRCURVETO, d, FlatOperands(s, 0.0, true))
    ensures Draw(VVCURVETO, d, s) == Draw(RRCURVETO, d, FlatOperands(s, 0.0, false))
    ensures Draw(HHCURVETO, d, [f] + s) == Draw(RRCURVETO, d, FlatOperands(s, f, true))
    ensures Draw(VVCURVETO, d, [f] + s) == Draw(RRCURVETO, d, FlatOperands(s, f, false))
  {
    hide Curves, FlatCurves, FlatOperands;
    assert s[0..] == s && ([f] + s)[1..] == s;
    FlatIsCurves(d, s, 0, 0.0, true);
    FlatIsCurves(d, s, 0, 0.0, false);
    FlatIsCurves(d, [f] + s, 1, f, true);
    FlatIsCurves(d, [f] + s, 1, f, false);
  }

  // ----- curves and lines together -----------------------------------------------------------------------------

  lemma CurvesOnly(d: Drawn, s: seq<real>, end: nat, i: nat)
    requires end <= |s| && i == 6 * (end / 6)
    ensures Curves(d, s, 0, end) == Curves(d, s[..i], 0, i)
  {
    hide Curves;
    CurvesUpTo(d, s, 0, end);
    var a, b := s[..i], s[i..end];
    assert s[..end] == a + b;
    CurvesInFront(d, a, b, 0);
    NoCurve(Curves(d, a, 0, |a|), b);
  }

  lemma LinesOnly(d: Drawn, s: seq<real>, end: nat, i: nat)
    requires end <= |s| && i == 2 * (end / 2)
    ensures Lines(d, s, 0, end) == Lines(d, s[..i], 0, i)
  {
    hide Lines;
    LinesUpTo(d, s, 0, end);
    var a, b := s[..i], s[i..end];
    assert s[..end] == a + b;
    LinesInFront(d, a, b, 0);
    NoLine(Lines(d, a, 0, |a|), b);
  }

  /** rcurveline draws curves and then a line, rlinecurve lines and then a curve. */
  lemma MixedExpand(d: Drawn, s: seq<real>)
    requires |s| >= 8
    ensures var i := 6 * ((|s| - 2) / 6);
            Draw(RCURVELINE, d, s) == Draw(RLINETO, Draw(RRCURVETO, d, s[..i]).drawn, s[i..i + 2])
    ensures var i := 2 * ((|s| - 6) / 2);
            Draw(RLINECURVE, d, s) == Draw(RRCURVETO, Draw(RLINETO, d, s[..i]).drawn, s[i..i + 6])
  {
    CurvesThenLine(d, s, 6 * ((|s| - 2) / 6));
    LinesThenCurve(d, s, 2 * ((|s| - 6) / 2));
  }

  lemma CurvesThenLine(d: Drawn, s: seq<real>, i: nat)
    requires |s| >= 8 && i == 6 * ((|s| - 2) / 6)
    ensures Draw(RCURVELINE, d, s) == Draw(RLINETO, Draw(RRCURVETO, d, s[..i]).drawn, s[i..i + 2])
  {
    hide Curves, LineTo, Lines;
    CurvesEndIs(0, |s| - 2);
    CurvesOnly(d, s, |s| - 2, i);
    var line := s[i..i + 2];
    var c := Curves(d, s[..i], 0, i);
    OneLineFirst(c, line, []);
    NoLine(LineTo(c, line[0], line[1]), []);
    assert line + [] == line;
  }

  lemma LinesThenCurve(d: Drawn, s: seq<real>, i: nat)
    requires |s| >= 8 && i == 2 * ((|s| - 6) / 2)
    ensures Draw(RLINECURVE, d, s) == Draw(RRCURVETO, Draw(RLINETO, d, s[..i]).drawn, s[i..i + 6])
  {
    hide Curves, CurveTo, Lines;
    LinesEndIs(0, |s| - 6);
    LinesOnly(d, s, |s| - 6, i);
    var curve := s[i..i + 6];
    var c := Lines(d, s[..i], 0, i);
    OneCurveFirst(c, curve, []);
    NoCurve(CurveTo(c, curve[0], curve[1], curve[2], curve[3], curve[4], curve[5]), []);
    assert curve + [] == curve;
  }

  // ----- the flexes -----------------------------------------------------------------------------------------------

  lemma TwoCurves(d: Drawn, a: seq<real>, b: seq<real>)
    requires |a| == |b| == 6
    ensures Draw(RRCURVETO, d, a + b)
         == Drawing(true, CurveTo(CurveTo(d, a[0], a[1], a[2], a[3], a[4], a[5]), b[0], b[1], b[2], b[3], b[4], b[5]))
  {
    hide CurveTo, Curves;
    OneCurveFirst(d, a, b);
    OneCurveFirst(CurveTo(d, a[0], a[1], a[2], a[3], a[4], a[5]), b, []);
    assert b + [] == b;
    NoCurve(CurveTo(CurveTo(d, a[0], a[1], a[2], a[3], a[4], a[5]), b[0], b[1], b[2], b[3], b[4], b[5]), []);
  }

  lemma TwelveOperands(d: Drawn, r: seq<real>)
    requires |r| == 12
    ensures Draw(RRCURVETO, d, r)
         == Drawing(true, CurveTo(CurveTo(d, r[0], r[1], r[2], r[3], r[4], r[5]), r[6], r[7], r[8], r[9], r[10], r[11]))
  {
    hide CurveTo, Draw;
    var a, b := r[..6], r[6..];
    assert r == a + b;
    TwoCurves(d, a, b);
  }

  /** The flexes draw two curves: flex with its operands, hflex and hflex1 with a horizontal tangent in
      the middle, and both of these end at the height at which they started. */
  lemma FlexesExpand(d: Drawn, s: seq<real>)
    ensures |s| >= 13 ==> DrawFlex(FLEX, d, s) == Draw(RRCURVETO, d, s[..12])
    ensures |s| >= 7 ==>
              && DrawFlex(HFLEX, d, s)
                   == Draw(RRCURVETO, d, [s[0], 0.0, s[1], s[2], s[3], 0.0, s[4], 0.0, s[5], -s[2], s[6], 0.0])
              && DrawFlex(HFLEX, d, s).drawn.pen.y == d.pen.y
    ensures |s| >= 9 ==>
              var r := DrawFlex(HFLEX1, d, s);
              && r == Draw(RRCURVETO, d, s[..5] + [0.0, s[5], 0.0] + s[6..9] + [-(s[1] + s[3] + s[7])])
              && r.drawn.pen.y == d.pen.y
  {
    hide Draw;
    if |s| >= 13 { TwelveOperands(d, s[..12]); }
    if |s| >= 7 {
      TwelveOperands(d, [s[0], 0.0, s[1], s[2], s[3], 0.0, s[4], 0.0, s[5], -s[2], s[6], 0.0]);
    }
    if |s| >= 9 {
      TwelveOperands(d, s[..5] + [0.0, s[5], 0.0] + s[6..9] + [-(s[1] + s[3] + s[7])]);
    }
  }

  // Farther across than up or down.
  predicate IsWide(dx: real, dy: real) {
    (dy < dx && -dy < dx) || (dy < -dx && -dy < -dx)
  }

  /** flex1 draws two curves that end at the height or on the vertical at which they started,
      whichever is farther from the last control point; the eleventh operand is the other distance. */
  lemma Flex1Expands(d: Drawn, s: seq<real>)
    requires |s| >= 11
    ensures var r := DrawFlex(FLEX1, d, s);
            var end := r.drawn.pen;
            var dx, dy := s[0] + s[2] + s[4] + s[6] + s[8], s[1] + s[3] + s[5] + s[7] + s[9];
            && r == Draw(RRCURVETO, d, s[..10] + [end.x - (d.pen.x + dx), end.y - (d.pen.y + dy)])
            && if IsWide(dx, dy) then end.y == d.pen.y && end.x == d.pen.x + dx + s[10]
               else end.x == d.pen.x && end.y == d.pen.y + dy + s[10]
  {
    hide Draw;
    var end := DrawFlex(FLEX1, d, s).drawn.pen;
    var dx, dy := s[0] + s[2] + s[4] + s[6] + s[8], s[1] + s[3] + s[5] + s[7] + s[9];
    TwelveOperands(d, s[..10] + [end.x - (d.pen.x + dx), end.y - (d.pen.y + dy)]);
  }

  /** A flex fails, and draws nothing, just when there are too few operands for it. */
  lemma FlexFailsWhenTooFew(op: byte, d: Drawn, s: seq<real>)
    ensures DrawFlex(op, d, s).ok
       <==> || (op == HFLEX && |s| >= 7) || (op == FLEX && |s| >= 13)
            || (op == HFLEX1 && |s| >= 9) || (op == FLEX1 && |s| >= 11)
    ensures !DrawFlex(op, d, s).ok ==> DrawFlex(op, d, s).drawn == d
  {
    hide CurveTo;
  }
}

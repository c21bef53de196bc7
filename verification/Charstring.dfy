/** The Type 2 charstring interpreter of stb_truetype: a drawing context that either measures or
    stores, the interpreter with its operand and subroutine stacks, and the two runs that make
    a glyph's shape. */
module Charstring {
  import opened Basics
  import opened CharstringSpec

  // stbtt_setvertex and stbtt__csctx_v keep sixteen bits of every coordinate.
  function Stored(v: Vertex): Vertex {
    v.(x := Int16(v.x), y := Int16(v.y), cx := Int16(v.cx), cy := Int16(v.cy), cx1 := Int16(v.cx1), cy1 := Int16(v.cy1))
  }

  class Context {
    const bounds: bool
    var started: bool
    var firstX: real
    var firstY: real
    var x: real
    var y: real
    var minX: int
    var maxX: int
    var minY: int
    var maxY: int
    var pvertices: array?<Vertex>
    var numVertices: Counter
    ghost var path: seq<Vertex>

    ghost function State(): Drawn
      reads this
    {
      Drawn(Pen(firstX, firstY, x, y), path)
    }

    ghost function Tracked(): Box
      reads this
    {
      if started then Box(minX, maxX, minY, maxY) else NoBox
    }

    // The vertices stored are the ones drawn, cut to sixteen bits.
    ghost predicate Keeps()
      reads this, pvertices
    {
      && pvertices != null && |path| <= pvertices.Length
      && forall k :: 0 <= k < |path| ==> pvertices[k] == Stored(path[k])
    }

    ghost predicate Measures()
      reads this
    {
      && Tracked() == Bounds(Points(path))
      && (!started ==> minX == maxX == minY == maxY == 0)
    }

    ghost predicate Valid()
      reads this, pvertices
    {
      && numVertices == |path|
      && (if bounds then Measures() else Keeps())
    }

    // n vertices can be counted, and a storing context has an array for them.
    ghost predicate Room(n: nat)
      reads this
    {
      n <= INT_MAX && (bounds || (pvertices != null && n <= pvertices.Length))
    }

    constructor (bounds: bool, pvertices: array?<Vertex>)
      requires bounds || pvertices != null
      ensures Valid() && State() == NOTHING && this.bounds == bounds && this.pvertices == pvertices
    {
      this.bounds := bounds;
      started, firstX, firstY, x, y := false, 0.0, 0.0, 0.0, 0.0;
      minX, maxX, minY, maxY := 0, 0, 0, 0;
      this.pvertices := pvertices;
      numVertices := 0;
      path := [];
    }

    method TrackPoint(px: int, py: int)
      modifies this`minX, this`maxX, this`minY, this`maxY, this`started
      ensures started && Tracked() == Track(old(Tracked()), px, py)
    {
      if px > maxX || !started { maxX := px; }
      if py > maxY || !started { maxY := py; }
      if px < minX || !started { minX := px; }
      if py < minY || !started { minY := py; }
      started := true;
    }

    method TrackPoints(v: Vertex)
      requires bounds && Measures()
      modifies this`minX, this`maxX, this`minY, this`maxY, this`started
      ensures started && Tracked() == Bounds(Points(path + [v]))
    {
      hide Bounds, Points;
      ghost var points := Points(path);
      TrackPoint(v.x, v.y);
      PointsOfMore(path, v);
      BoundsOfMore(points, v.x, v.y);
      if v.kind == Cubic {
        TrackPoint(v.cx, v.cy);
        BoundsOfMore(points + [(v.x, v.y)], v.cx, v.cy);
        TrackPoint(v.cx1, v.cy1);
        BoundsOfMore(points + [(v.x, v.y)] + [(v.cx, v.cy)], v.cx1, v.cy1);
        assert points + [(v.x, v.y)] + [(v.cx, v.cy)] + [(v.cx1, v.cy1)] == points + PointsOf(v);
      }
    }

    method V(v: Vertex)
      requires Valid() && Room(|path| + 1)
      modifies this, pvertices
      ensures Valid() && pvertices == old(pvertices) && State() == Emit(old(State()), v)
    {
      hide Bounds, Points;
      if bounds {
        TrackPoints(v);
      } else {
        pvertices[numVertices] := Stored(v);
      }
      numVertices := numVertices + 1;
      path := path + [v];
    }

    method CloseShape()
      requires Valid() && Room(|CharstringSpec.CloseShape(State()).path|)
      modifies this, pvertices
      ensures Valid() && pvertices == old(pvertices) && State() == CharstringSpec.CloseShape(old(State()))
    {
      hide Valid;
      if firstX != x || firstY != y {
        V(Vertex(Line, Trunc(firstX), Trunc(firstY), 0, 0, 0, 0));
      }
    }

    method SetPen(first: (real, real), to: (real, real))
      requires Valid()
      modifies this`firstX, this`firstY, this`x, this`y
      ensures Valid() && State() == old(State()).(pen := Pen(first.0, first.1, to.0, to.1))
    {
      firstX, firstY := first.0, first.1;
      x, y := to.0, to.1;
    }

    method RMoveTo(dx: real, dy: real)
      requires Valid() && Room(|MoveTo(State(), dx, dy).path|)
      modifies this, pvertices
      ensures Valid() && pvertices == old(pvertices) && State() == MoveTo(old(State()), dx, dy)
    {
      hide Valid;
      CloseShape();
      SetPen((x + dx, y + dy), (x + dx, y + dy));
      V(Vertex(Move, Trunc(x), Trunc(y), 0, 0, 0, 0));
    }

    method RLineTo(dx: real, dy: real)
      requires Valid() && Room(|LineTo(State(), dx, dy).path|)
      modifies this, pvertices
      ensures Valid() && pvertices == old(pvertices) && State() == LineTo(old(State()), dx, dy)
    {
      hide Valid;
      SetPen((firstX, firstY), (x + dx, y + dy));
      V(Vertex(Line, Trunc(x), Trunc(y), 0, 0, 0, 0));
    }

    method RCCurveTo(dx1: real, dy1: real, dx2: real, dy2: real, dx3: real, dy3: real)
      requires Valid() && Room(|CurveTo(State(), dx1, dy1, dx2, dy2, dx3, dy3).path|)
      modifies this, pvertices
      ensures Valid() && pvertices == old(pvertices)
      ensures State() == CurveTo(old(State()), dx1, dy1, dx2, dy2, dx3, dy3)
    {
      hide Valid;
      var cx1, cy1 := x + dx1, y + dy1;
      var cx2, cy2 := cx1 + dx2, cy1 + dy2;
      SetPen((firstX, firstY), (cx2 + dx3, cy2 + dy3));
      V(Vertex(Cubic, Trunc(x), Trunc(y), Trunc(cx1), Trunc(cy1), Trunc(cx2), Trunc(cy2)));
    }

    // ----- the operators; s is the operand stack ---------------------------------------------

    method DrawLines(s: seq<real>, end: int) returns (i: nat)
      requires Valid() && end <= |s| && Room(|Lines(State(), s, 0, end).path|)
      modifies this, pvertices
      ensures Valid() && pvertices == old(pvertices)
      ensures State() == Lines(old(State()), s, 0, end) && i == LinesEnd(0, end)
    {
      hide Valid, LineTo;
      i := 0;
      while i + 1 < end
        invariant Valid() && pvertices == old(pvertices)
        invariant Lines(State(), s, i, end) == Lines(old(State()), s, 0, end)
        invariant LinesEnd(i, end) == LinesEnd(0, end)
        decreases end - i
      {
        RLineTo(s[i], s[i + 1]);
        i := i + 2;
      }
    }

    method DrawAlternatingLines(s: seq<real>, horizontalFirst: bool)
      requires Valid() && Room(|AlternatingLines(State(), s, 0, horizontalFirst).path|)
      modifies this, pvertices
      ensures Valid() && pvertices == old(pvertices)
      ensures State() == AlternatingLines(old(State()), s, 0, horizontalFirst)
    {
      hide Valid, LineTo;
      var i, horizontal := 0, horizontalFirst;
      while i < |s|
        invariant 0 <= i && Valid() && pvertices == old(pvertices)
        invariant AlternatingLines(State(), s, i, horizontal) == AlternatingLines(old(State()), s, 0, horizontalFirst)
      {
        if horizontal {
          RLineTo(s[i], 0.0);
        } else {
          RLineTo(0.0, s[i]);
        }
        i, horizontal := i + 1, !horizontal;
      }
    }

    method DrawCurves(s: seq<real>, end: int) returns (i: nat)
      requires Valid() && end <= |s| && Room(|Curves(State(), s, 0, end).path|)
      modifies this, pvertices
      ensures Valid() && pvertices == old(pvertices)
      ensures State() == Curves(old(State()), s, 0, end) && i == CurvesEnd(0, end)
    {
      hide Valid, CurveTo;
      i := 0;
      while i + 5 < end
        invariant Valid() && pvertices == old(pvertices)
        invariant Curves(State(), s, i, end) == Curves(old(State()), s, 0, end)
        invariant CurvesEnd(i, end) == CurvesEnd(0, end)
        decreases end - i
      {
        RCCurveTo(s[i], s[i + 1], s[i + 2], s[i + 3], s[i + 4], s[i + 5]);
        i := i + 6;
      }
    }

    method DrawAlternatingCurves(s: seq<real>, horizontalFirst: bool)
      requires Valid() && Room(|AlternatingCurves(State(), s, 0, horizontalFirst).path|)
      modifies this, pvertices
      ensures Valid() && pvertices == old(pvertices)
      ensures State() == AlternatingCurves(old(State()), s, 0, horizontalFirst)
    {
      hide Valid, CurveTo;
      var i, horizontal := 0, horizontalFirst;
      while i + 3 < |s|
        invariant 0 <= i && Valid() && pvertices == old(pvertices)
        invariant AlternatingCurves(State(), s, i, horizontal) == AlternatingCurves(old(State()), s, 0, horizontalFirst)
        decreases |s| - i
      {
        var last := if |s| - i == 5 then s[i + 4] else 0.0;
        if horizontal {
          RCCurveTo(s[i], 0.0, s[i + 1], s[i + 2], last, s[i + 3]);
        } else {
          RCCurveTo(0.0, s[i], s[i + 1], s[i + 2], s[i + 3], last);
        }
        i, horizontal := i + 4, !horizontal;
      }
    }

    method DrawFlatCurves(s: seq<real>, horizontal: bool)
      requires |s| >= 4
      requires Valid() && Room(|FlatCurvesOf(State(), s, horizontal).path|)
      modifies this, pvertices
      ensures Valid() && pvertices == old(pvertices) && State() == FlatCurvesOf(old(State()), s, horizontal)
    {
      hide Valid, CurveTo;
      var i, f := 0, 0.0;
      if |s| % 2 == 1 {
        f := s[i];
        i := i + 1;
      }
      while i + 3 < |s|
        invariant 0 <= i && Valid() && pvertices == old(pvertices)
        invariant FlatCurves(State(), s, i, f, horizontal) == FlatCurvesOf(old(State()), s, horizontal)
        decreases |s| - i
      {
        if horizontal {
          RCCurveTo(s[i], f, s[i + 1], s[i + 2], s[i + 3], 0.0);
        } else {
          RCCurveTo(f, s[i], s[i + 1], s[i + 2], 0.0, s[i + 3]);
        }
        f := 0.0;
        i := i + 4;
      }
    }

    method DrawOperator(op: byte, s: seq<real>) returns (ok: bool)
      requires IsDrawing(op) && Valid() && Room(|Draw(op, State(), s).drawn.path|)
      modifies this, pvertices
      ensures Valid() && pvertices == old(pvertices) && Drawing(ok, State()) == Draw(op, old(State()), s)
    {
      hide Valid, CurveTo, LineTo, MoveTo, Curves, Lines, AlternatingCurves, AlternatingLines, FlatCurves, LinesEnd,
           CurvesEnd;
      var sp := |s|;
      match op {
      case 0x15 =>
        if sp < 2 { return false; }
        RMoveTo(s[sp - 2], s[sp - 1]);
      case 0x04 =>
        if sp < 1 { return false; }
        RMoveTo(0.0, s[sp - 1]);
      case 0x16 =>
        if sp < 1 { return false; }
        RMoveTo(s[sp - 1], 0.0);
      case 0x05 =>
        if sp < 2 { return false; }
        var i := DrawLines(s, sp);
      case 0x07 =>
        if sp < 1 { return false; }
        DrawAlternatingLines(s, false);
      case 0x06 =>
        if sp < 1 { return false; }
        DrawAlternatingLines(s, true);
      case 0x1F =>
        if sp < 4 { return false; }
        DrawAlternatingCurves(s, true);
      case 0x1E =>
        if sp < 4 { return false; }
        DrawAlternatingCurves(s, false);
      case 0x08 =>
        if sp < 6 { return false; }
        var i := DrawCurves(s, sp);
      case 0x18 =>
        if sp < 8 { return false; }
        ok := DrawCurvesLine(s);
        return;
      case 0x19 =>
        if sp < 8 { return false; }
        ok := DrawLinesCurve(s);
        return;
      case _ =>
        if sp < 4 { return false; }
        DrawFlatCurves(s, op == 0x1B);
      }
      ok := true;
    }

    method DrawCurvesLine(s: seq<real>) returns (ok: bool)
      requires |s| >= 8 && Valid() && Room(|CurvesLine(State(), s).drawn.path|)
      modifies this, pvertices
      ensures Valid() && pvertices == old(pvertices) && Drawing(ok, State()) == CurvesLine(old(State()), s)
    {
      hide Valid, LineTo, Curves, CurvesEnd;
      var i := DrawCurves(s, |s| - 2);
      if i + 1 >= |s| { return false; }
      RLineTo(s[i], s[i + 1]);
      ok := true;
    }

    method DrawLinesCurve(s: seq<real>) returns (ok: bool)
      requires |s| >= 8 && Valid() && Room(|LinesCurve(State(), s).drawn.path|)
      modifies this, pvertices
      ensures Valid() && pvertices == old(pvertices) && Drawing(ok, State()) == LinesCurve(old(State()), s)
    {
      hide Valid, CurveTo, Lines, LinesEnd;
      var i := DrawLines(s, |s| - 6);
      if i + 5 >= |s| { return false; }
      RCCurveTo(s[i], s[i + 1], s[i + 2], s[i + 3], s[i + 4], s[i + 5]);
      ok := true;
    }

    method TwoCurves(a: seq<real>, b: seq<real>)
      requires |a| == |b| == 6 && Valid()
      requires Room(|Pair(State(), a, b).path|)
      modifies this, pvertices
      ensures Valid() && pvertices == old(pvertices) && State() == Pair(old(State()), a, b)
    {
      hide Valid, CurveTo;
      RCCurveTo(a[0], a[1], a[2], a[3], a[4], a[5]);
      RCCurveTo(b[0], b[1], b[2], b[3], b[4], b[5]);
    }

    method DrawFlexOperator(b1: byte, s: seq<real>) returns (ok: bool)
      requires Valid() && Room(|DrawFlex(b1, State(), s).drawn.path|)
      modifies this, pvertices
      ensures Valid() && pvertices == old(pvertices) && Drawing(ok, State()) == DrawFlex(b1, old(State()), s)
    {
      hide Valid, CurveTo;
      var sp := |s|;
      match b1 {
      case 0x22 =>
        if sp < 7 { return false; }
        TwoCurves([s[0], 0.0, s[1], s[2], s[3], 0.0], [s[4], 0.0, s[5], -s[2], s[6], 0.0]);
      case 0x23 =>
        if sp < 13 { return false; }
        TwoCurves([s[0], s[1], s[2], s[3], s[4], s[5]], [s[6], s[7], s[8], s[9], s[10], s[11]]);
      case 0x24 =>
        if sp < 9 { return false; }
        TwoCurves([s[0], s[1], s[2], s[3], s[4], 0.0], [s[5], 0.0, s[6], s[7], s[8], -(s[1] + s[3] + s[7])]);
      case 0x25 =>
        if sp < 11 { return false; }
        var dx := s[0] + s[2] + s[4] + s[6] + s[8];
        var dy := s[1] + s[3] + s[5] + s[7] + s[9];
        var dx6, dy6 := s[10], s[10];
        if Abs(dx) > Abs(dy) { dy6 := -dy; } else { dx6 := -dx; }
        TwoCurves([s[0], s[1], s[2], s[3], s[4], s[5]], [s[6], s[7], s[8], s[9], dx6, dy6]);
      case _ =>
        return false;
      }
      ok := true;
    }
  }

  ghost function Pair(d: Drawn, a: seq<real>, b: seq<real>): Drawn
    requires |a| == |b| == 6
  {
    CurveTo(CurveTo(d, a[0], a[1], a[2], a[3], a[4], a[5]), b[0], b[1], b[2], b[3], b[4], b[5])
  }

  // The hints fit an int after a step, and to the end of the run.
  lemma HintsStep(font: Font, m: Machine, b0: byte)
    requires MachineOk(m) && m.b.cursor < |m.b.data| && Get8(m.b).0 == b0 && HintsFit(font, m)
    ensures b0 in {0x13, 0x14, 0x01, 0x03, 0x12, 0x17} ==>
              HintsInRange(b0, if (b0 == 0x13 || b0 == 0x14) && !m.inHeader then m.maskbits
                               else m.maskbits + |m.stack| / 2)
    ensures var step := StepOn(font, m, b0, Get8(m.b).1);
            step.Next? ==> MachineOk(step.machine) && HintsFit(font, step.machine)
  {
    hide Draw, DrawFlex, CharstringSpec.CloseShape, Call, ReadOperand, Skip;
    StepShrinks(font, m, b0, Get8(m.b).1);
  }

  // ----- the interpreter -----------------------------------------------------------------------

  // What the step at m.b leads to.
  ghost predicate StepsTo(font: Font, m: Machine, step: Step)
    requires MachineOk(m)
  {
    m.b.cursor < |m.b.data| && StepOn(font, m, Get8(m.b).0, Get8(m.b).1) == step
  }

  lemma StepTo(font: Font, m: Machine, next: Machine)
    requires MachineOk(m) && StepsTo(font, m, Next(next))
    ensures MachineOk(next) && Run(font, next) == Run(font, m)
    ensures (Left(m, 0), Left(m, 1), Left(m, 2), Left(m, 3), Left(m, 4), Left(m, 5),
             Left(m, 6), Left(m, 7), Left(m, 8), Left(m, 9), Left(m, 10)
             decreases to
             Left(next, 0), Left(next, 1), Left(next, 2), Left(next, 3), Left(next, 4), Left(next, 5),
             Left(next, 6), Left(next, 7), Left(next, 8), Left(next, 9), Left(next, 10))
  {
    hide StepOn;
    StepShrinks(font, m, Get8(m.b).0, Get8(m.b).1);
  }

  lemma StepToEnd(font: Font, m: Machine, ok: bool, drawn: Drawn)
    requires MachineOk(m) && StepsTo(font, m, Stop(ok, drawn))
    ensures Run(font, m) == Drawing(ok, drawn)
  {
    hide StepOn;
  }

  lemma NoEndchar(font: Font, m: Machine)
    requires MachineOk(m) && m.b.cursor >= |m.b.data|
    ensures Run(font, m) == Drawing(false, m.drawn)
  {
  }

  // What one operator draws is no more than the whole run does.
  lemma PartOfRun(font: Font, m: Machine, b0: byte)
    requires MachineOk(m) && m.b.cursor < |m.b.data| && Get8(m.b).0 == b0
    ensures IsDrawing(b0) ==> |Draw(b0, m.drawn, m.stack).drawn.path| <= |Run(font, m).drawn.path|
    ensures b0 == 0x0E ==> |CharstringSpec.CloseShape(m.drawn).path| <= |Run(font, m).drawn.path|
    ensures b0 == 0x0C ==>
              |DrawFlex(Get8(Get8(m.b).1).0, m.drawn, m.stack).drawn.path| <= |Run(font, m).drawn.path|
  {
    hide Draw, DrawFlex, CharstringSpec.CloseShape, Call, ReadOperand, Shrinks;
  }

  // A step looks at the buffer behind the operator's first byte only.
  lemma StepIgnoresBuffer(font: Font, m: Machine, b0: byte, b: Buf)
    requires MachineOk(m) && b.cursor <= |b.data|
    ensures StepOn(font, m.(b := b), b0, b) == StepOn(font, m, b0, b)
  {
    hide Draw, DrawFlex, CharstringSpec.CloseShape, ReadOperand, GetSubr, Trunc;
  }

  lemma StepStops(font: Font, m: Machine, b0: byte, b: Buf)
    requires MachineOk(m)
    ensures b0 == 0x0E ==> StepOn(font, m, b0, b) == Stop(true, CharstringSpec.CloseShape(m.drawn))
    ensures b0 < 32 && b0 !in {0x13, 0x14, 0x01, 0x03, 0x12, 0x17, 0x0A, 0x1D, 0x0B, 0x0E, 0x0C, 28}
              && !IsDrawing(b0) ==>
              StepOn(font, m, b0, b) == Stop(false, m.drawn)
  {
  }

  // The local variables of stbtt__run_charstring.
  class Interpreter {
    const font: Font
    const c: Context
    var inHeader: bool
    var maskbits: Counter
    var subrStackHeight: nat
    var sp: nat
    const s: array<real>
    const subrStack: array<Buf>
    var b: Buf

    ghost function State(): Machine
      requires sp <= s.Length && subrStackHeight <= subrStack.Length
      reads this, s, subrStack, c
    {
      Machine(b, subrStack[..subrStackHeight], s[..sp], inHeader, maskbits, c.State())
    }

    ghost predicate Valid()
      reads this, s, subrStack, c, c.pvertices
    {
      && s.Length == STACK_MAX && subrStack.Length == CALL_MAX
      && sp <= STACK_MAX && subrStackHeight <= CALL_MAX
      && MachineOk(State()) && c.Valid()
    }

    constructor (font: Font, c: Context)
      requires c.Valid() && c.State() == NOTHING
      ensures Valid() && State() == Start(font) && this.font == font && this.c == c
      ensures fresh(s) && fresh(subrStack)
    {
      this.font, this.c := font, c;
      inHeader, maskbits, subrStackHeight, sp := true, 0, 0, 0;
      s := new real[STACK_MAX];
      subrStack := new Buf[CALL_MAX];
      b := Buf(font.charstring, 0);
    }

    // The step from the old machine, which had read b0, is done; true says the run goes on.
    twostate predicate Stepped(b0: byte, ok: bool)
      requires old(Valid()) && Valid()
      reads this, s, subrStack, c, c.pvertices
    {
      StepOn(font, old(State()), b0, old(b)) == if ok then Next(State()) else Stop(false, c.State())
    }

    method NextOperator() returns (b0: byte)
      requires Valid() && b.cursor < |b.data|
      modifies this`b
      ensures Valid() && State() == old(State()).(b := b) && (b0, b) == Get8(old(b))
      ensures b.cursor <= |b.data|
    {
      hide Context.Valid;
      var (first, rest) := Get8(b);
      b0, b := first, rest;
    }

    // The count of hints after an operator for hints.
    ghost function Hinted(b0: byte): nat
      reads this
    {
      if (b0 == 0x13 || b0 == 0x14) && !inHeader then maskbits else maskbits + sp / 2
    }

    method Hints(b0: byte)
      requires Valid() && b0 in {0x13, 0x14, 0x01, 0x03, 0x12, 0x17} && HintsInRange(b0, Hinted(b0))
      modifies this
      ensures Valid() && Stepped(b0, true)
    {
      hide Context.Valid;
      if b0 == 0x13 || b0 == 0x14 {
        if inHeader { maskbits := maskbits + sp / 2; }
        inHeader := false;
        b := Skip(b, (maskbits + 7) / 8);
      } else {
        maskbits := maskbits + sp / 2;
      }
      sp := 0;
    }

    method DrawStep(b0: byte) returns (ok: bool)
      requires Valid() && IsDrawing(b0)
      requires c.Room(|Draw(b0, c.State(), s[..sp]).drawn.path|)
      modifies this, c, c.pvertices
      ensures c.pvertices == old(c.pvertices) && Valid() && Stepped(b0, ok)
    {
      hide Context.Valid, Draw;
      if b0 == 0x15 || b0 == 0x04 || b0 == 0x16 { inHeader := false; }
      ok := c.DrawOperator(b0, s[..sp]);
      sp := 0;
    }

    method FlexStep() returns (ok: bool)
      requires Valid() && c.Room(|DrawFlex(Get8(b).0, c.State(), s[..sp]).drawn.path|)
      modifies this, c, c.pvertices
      ensures c.pvertices == old(c.pvertices) && Valid() && Stepped(0x0C, ok)
    {
      hide Context.Valid, DrawFlex;
      var (b1, rest) := Get8(b);
      b := rest;
      ok := c.DrawFlexOperator(b1, s[..sp]);
      sp := 0;
    }

    method CallSubr(b0: byte) returns (ok: bool)
      requires Valid() && (b0 == 0x0A || b0 == 0x1D)
      modifies this, subrStack
      ensures Valid() && Stepped(b0, ok)
    {
      hide Context.Valid, GetSubr, Trunc;
      if sp < 1 { return false; }
      sp := sp - 1;
      var v := Trunc(s[sp]);
      if subrStackHeight >= CALL_MAX { return false; }
      subrStack[subrStackHeight] := b;
      subrStackHeight := subrStackHeight + 1;
      b := Buf(GetSubr(if b0 == 0x0A then font.subrs else font.gsubrs, v), 0);
      ok := |b.data| != 0;
    }

    method Return() returns (ok: bool)
      requires Valid()
      modifies this
      ensures Valid() && Stepped(0x0B, ok)
    {
      hide Context.Valid;
      if subrStackHeight <= 0 { return false; }
      subrStackHeight := subrStackHeight - 1;
      b := subrStack[subrStackHeight];
      ok := true;
    }

    method Operand(b0: byte) returns (ok: bool)
      requires Valid() && (b0 == 28 || b0 >= 32)
      modifies this, s
      ensures Valid() && Stepped(b0, ok)
    {
      hide Context.Valid, Get, Int16, Int32;
      var (f, rest) := ReadOperand(b0, b);
      GetForward(b, 4);
      GetForward(b, 2);
      b := rest;
      if sp >= STACK_MAX { return false; }
      s[sp] := f;
      sp := sp + 1;
      ok := true;
    }
  }

  /** stbtt__run_charstring: on any bytes it stops, reads operands only where the stack holds
      them, and draws exactly what the charstring says, up to the error if there is one. */
  method RunCharstring(font: Font, c: Context) returns (ok: bool)
    requires c.Valid() && c.State() == NOTHING && c.Room(|Run(font, Start(font)).drawn.path|)
    requires HintsFit(font, Start(font))
    modifies c, c.pvertices
    ensures c.Valid() && c.pvertices == old(c.pvertices)
    ensures Drawing(ok, c.State()) == Run(font, Start(font))
  {
    hide Context.Valid, MachineOk, Draw, DrawFlex, IsDrawing, CharstringSpec.CloseShape, Run, Left, StepOn, HintsFit,
         HintsInRange;
    var t := new Interpreter(font, c);
    ghost var m := t.State();
    while t.b.cursor < |t.b.data|
      invariant t.Valid() && t.font == font && t.c == c && c.pvertices == old(c.pvertices)
      invariant fresh(t) && fresh(t.s) && fresh(t.subrStack)
      invariant m == t.State() && Run(font, m) == Run(font, Start(font)) && HintsFit(font, m)
      decreases Left(m, 0), Left(m, 1), Left(m, 2), Left(m, 3), Left(m, 4), Left(m, 5),
                Left(m, 6), Left(m, 7), Left(m, 8), Left(m, 9), Left(m, 10)
    {
      var b0 := t.NextOperator();
      StepIgnoresBuffer(font, m, b0, t.b);
      StepStops(font, m, b0, t.b);
      PartOfRun(font, m, b0);
      HintsStep(font, m, b0);
      var going := true;
      if b0 in {0x13, 0x14, 0x01, 0x03, 0x12, 0x17} {
        t.Hints(b0);
      } else if IsDrawing(b0) {
        going := t.DrawStep(b0);
      } else if b0 == 0x0A || b0 == 0x1D {
        going := t.CallSubr(b0);
      } else if b0 == 0x0B {
        going := t.Return();
      } else if b0 == 0x0E {
        c.CloseShape();
        StepToEnd(font, m, true, c.State());
        return true;
      } else if b0 == 0x0C {
        going := t.FlexStep();
      } else if b0 == 28 || b0 >= 32 {
        going := t.Operand(b0);
      } else {
        going := false;
      }
      if !going {
        StepToEnd(font, m, false, c.State());
        return false;
      }
      StepTo(font, m, t.State());
      m := t.State();
    }
    NoEndchar(font, m);
    ok := false;
  }

  /** stbtt__GetGlyphShapeT2: the measuring run and the storing run draw the same, so the
      array has exactly one place for every vertex. */
  method GetGlyphShapeT2(font: Font) returns (vertices: array?<Vertex>, n: nat)
    requires CountersFit(font)
    ensures var run := Run(font, Start(font));
            if run.ok then
              && vertices != null && fresh(vertices)
              && n == vertices.Length == |run.drawn.path|
              && forall k :: 0 <= k < n ==> vertices[k] == Stored(run.drawn.path[k])
            else vertices == null && n == 0
  {
    hide Run, HintsFit;
    var count := new Context(true, null);
    var ok := RunCharstring(font, count);
    if ok {
      vertices := new Vertex[count.numVertices];
      var output := new Context(false, vertices);
      var again := RunCharstring(font, output);
      if again { return vertices, output.numVertices; }
    }
    return null, 0;
  }

  /** stbtt__GetGlyphInfoT2: the extent is the smallest box around all end and control points. */
  method GetGlyphInfoT2(font: Font) returns (n: nat, x0: int, y0: int, x1: int, y1: int)
    requires CountersFit(font)
    ensures var run := Run(font, Start(font));
            if run.ok && run.drawn.path != [] then
              n == |run.drawn.path| && IsTightBox(Box(x0, x1, y0, y1), Points(run.drawn.path))
            else n == x0 == y0 == x1 == y1 == 0
  {
    hide Run, HintsFit, IsTightBox, Bounds, Points;
    var c := new Context(true, null);
    var ok := RunCharstring(font, c);
    PointsOfPath(c.path);
    if c.path != [] {
      BoundsAreTight(Points(c.path));
      TightIsBox(Bounds(Points(c.path)), Points(c.path));
    }
    x0, y0 := if ok then c.minX else 0, if ok then c.minY else 0;
    x1, y1 := if ok then c.maxX else 0, if ok then c.maxY else 0;
    n := if ok then c.numVertices else 0;
  }

  lemma TightIsBox(box: Box, points: seq<(int, int)>)
    requires IsTightBox(box, points)
    ensures box.Box?
  {
  }

  lemma PointsOfPath(path: seq<Vertex>)
    ensures Points(path) == [] <==> path == []
    ensures path == [] ==> Bounds(Points(path)) == NoBox
  {
  }
}

/** What a Type 2 charstring draws, as stb_truetype interprets it: a function from the bytes
    of a glyph and its subroutines to a list of vertices.  Floats are real numbers. */
module CharstringSpec {
  import opened Basics

  const STACK_MAX: nat := 48
  const CALL_MAX: nat := 10

  // ----- byte buffers -------------------------------------------------------------------

  datatype Buf = Buf(data: seq<byte>, cursor: nat)

  function Remaining(b: Buf): nat {
    if b.cursor < |b.data| then |b.data| - b.cursor else 0
  }

  // stbtt__buf_get8: zero at the end of the buffer.
  function Get8(b: Buf): (byte, Buf) {
    if b.cursor >= |b.data| then (0, b) else (b.data[b.cursor], b.(cursor := b.cursor + 1))
  }

  // stbtt__buf_skip: a position outside the buffer becomes its end.
  function Skip(b: Buf, n: int): Buf {
    var to := b.cursor + n;
    b.(cursor := if to > |b.data| || to < 0 then |b.data| else to)
  }

  // stbtt__buf_get: the next n bytes as a big-endian number.
  function Get(b: Buf, n: nat): (nat, Buf) {
    if n == 0 then (0, b)
    else
      var (high, b1) := Get(b, n - 1);
      var (low, b2) := Get8(b1);
      (high * 256 + low, b2)
  }

  function Int32(v: nat): int {
    var w := v % 0x1_0000_0000;
    if w < 0x8000_0000 then w else w - 0x1_0000_0000
  }

  function Int16(v: int): int {
    var w := v % 0x1_0000;
    if w < 0x8000 then w else w - 0x1_0000
  }

  // (int) of a float: towards zero.
  function Trunc(r: real): int {
    if r >= 0.0 then r.Floor else -((-r).Floor)
  }

  // ----- drawing --------------------------------------------------------------------------

  datatype Kind = Move | Line | Cubic

  datatype Vertex = Vertex(kind: Kind, x: int, y: int, cx: int, cy: int, cx1: int, cy1: int)

  datatype Pen = Pen(firstX: real, firstY: real, x: real, y: real)

  // The pen and everything drawn so far.
  datatype Drawn = Drawn(pen: Pen, path: seq<Vertex>)

  const NOTHING := Drawn(Pen(0.0, 0.0, 0.0, 0.0), [])

  function Emit(d: Drawn, v: Vertex): Drawn {
    d.(path := d.path + [v])
  }

  function CloseShape(d: Drawn): (r: Drawn)
    ensures |r.path| >= |d.path|
  {
    if d.pen.firstX != d.pen.x || d.pen.firstY != d.pen.y then
      Emit(d, Vertex(Line, Trunc(d.pen.firstX), Trunc(d.pen.firstY), 0, 0, 0, 0))
    else d
  }

  function MoveTo(d: Drawn, dx: real, dy: real): (r: Drawn)
    ensures |r.path| > |d.path|
  {
    var c := CloseShape(d);
    var x, y := d.pen.x + dx, d.pen.y + dy;
    Emit(c.(pen := Pen(x, y, x, y)), Vertex(Move, Trunc(x), Trunc(y), 0, 0, 0, 0))
  }

  function LineTo(d: Drawn, dx: real, dy: real): (r: Drawn)
    ensures |r.path| > |d.path|
  {
    var x, y := d.pen.x + dx, d.pen.y + dy;
    Emit(d.(pen := d.pen.(x := x, y := y)), Vertex(Line, Trunc(x), Trunc(y), 0, 0, 0, 0))
  }

  function CurveTo(d: Drawn, dx1: real, dy1: real, dx2: real, dy2: real, dx3: real, dy3: real): (r: Drawn)
    ensures |r.path| > |d.path|
  {
    var cx1, cy1 := d.pen.x + dx1, d.pen.y + dy1;
    var cx2, cy2 := cx1 + dx2, cy1 + dy2;
    var x, y := cx2 + dx3, cy2 + dy3;
    Emit(d.(pen := d.pen.(x := x, y := y)),
         Vertex(Cubic, Trunc(x), Trunc(y), Trunc(cx1), Trunc(cy1), Trunc(cx2), Trunc(cy2)))
  }

  // Lines from pairs of operands, from the i-th on, while i + 1 < end.
  function Lines(d: Drawn, s: seq<real>, i: nat, end: int): (r: Drawn)
    requires end <= |s|
    ensures |r.path| >= |d.path|
    decreases end - i
  {
    if i + 1 < end then Lines(LineTo(d, s[i], s[i + 1]), s, i + 2, end) else d
  }

  // Lines that alternate between horizontal and vertical.
  function AlternatingLines(d: Drawn, s: seq<real>, i: nat, horizontal: bool): (r: Drawn)
    ensures |r.path| >= |d.path|
    decreases |s| - i
  {
    if i >= |s| then d
    else AlternatingLines(if horizontal then LineTo(d, s[i], 0.0) else LineTo(d, 0.0, s[i]), s, i + 1, !horizontal)
  }

  // Curves from six operands each, while i + 5 < end.
  function Curves(d: Drawn, s: seq<real>, i: nat, end: int): (r: Drawn)
    requires end <= |s|
    ensures |r.path| >= |d.path|
    decreases end - i
  {
    if i + 5 < end then
      Curves(CurveTo(d, s[i], s[i + 1], s[i + 2], s[i + 3], s[i + 4], s[i + 5]), s, i + 6, end)
    else d
  }

  function OneAlternatingCurve(d: Drawn, s: seq<real>, i: nat, horizontal: bool): (r: Drawn)
    requires i + 3 < |s|
    ensures |r.path| > |d.path|
  {
    var last := if |s| - i == 5 then s[i + 4] else 0.0;
    if horizontal then CurveTo(d, s[i], 0.0, s[i + 1], s[i + 2], last, s[i + 3])
    else CurveTo(d, 0.0, s[i], s[i + 1], s[i + 2], s[i + 3], last)
  }

  // Curves that start horizontally and end vertically, and the other way round, in turn.
  function AlternatingCurves(d: Drawn, s: seq<real>, i: nat, horizontal: bool): (r: Drawn)
    ensures |r.path| >= |d.path|
    decreases |s| - i
  {
    if i + 3 >= |s| then d
    else AlternatingCurves(OneAlternatingCurve(d, s, i, horizontal), s, i + 4, !horizontal)
  }

  function OneFlatCurve(d: Drawn, s: seq<real>, i: nat, f: real, horizontal: bool): (r: Drawn)
    requires i + 3 < |s|
    ensures |r.path| > |d.path|
  {
    if horizontal then CurveTo(d, s[i], f, s[i + 1], s[i + 2], s[i + 3], 0.0)
    else CurveTo(d, f, s[i], s[i + 1], s[i + 2], 0.0, s[i + 3])
  }

  // Curves that start and end in the same direction; f is the first curve's other offset.
  function FlatCurves(d: Drawn, s: seq<real>, i: nat, f: real, horizontal: bool): (r: Drawn)
    ensures |r.path| >= |d.path|
    decreases |s| - i
  {
    if i + 3 >= |s| then d
    else FlatCurves(OneFlatCurve(d, s, i, f, horizontal), s, i + 4, 0.0, horizontal)
  }

  // Where the loops over curves and lines stop.
  function CurvesEnd(i: nat, end: int): (e: nat)
    ensures e >= i
    decreases end - i
  {
    if i + 5 < end then CurvesEnd(i + 6, end) else i
  }

  function LinesEnd(i: nat, end: int): (e: nat)
    ensures e >= i
    decreases end - i
  {
    if i + 1 < end then LinesEnd(i + 2, end) else i
  }

  function Abs(r: real): real {
    if r < 0.0 then -r else r
  }

  function Flex1(d: Drawn, s: seq<real>): (r: Drawn)
    requires |s| >= 11
    ensures |r.path| > |d.path|
  {
    var dx := s[0] + s[2] + s[4] + s[6] + s[8];
    var dy := s[1] + s[3] + s[5] + s[7] + s[9];
    var (dx6, dy6) := if Abs(dx) > Abs(dy) then (s[10], -dy) else (-dx, s[10]);
    CurveTo(CurveTo(d, s[0], s[1], s[2], s[3], s[4], s[5]), s[6], s[7], s[8], s[9], dx6, dy6)
  }

  datatype Drawing = Drawing(ok: bool, drawn: Drawn)

  // The operators that only draw from the operands.
  predicate IsDrawing(op: byte) {
    op in {0x15, 0x04, 0x16, 0x05, 0x07, 0x06, 0x1F, 0x1E, 0x08, 0x18, 0x19, 0x1A, 0x1B}
  }

  function Draw(op: byte, d: Drawn, s: seq<real>): (r: Drawing)
    requires IsDrawing(op)
    ensures |r.drawn.path| >= |d.path|
  {
    var sp := |s|;
    if op == 0x15 then
      if sp < 2 then Drawing(false, d) else Drawing(true, MoveTo(d, s[sp - 2], s[sp - 1]))
    else if op == 0x04 then
      if sp < 1 then Drawing(false, d) else Drawing(true, MoveTo(d, 0.0, s[sp - 1]))
    else if op == 0x16 then
      if sp < 1 then Drawing(false, d) else Drawing(true, MoveTo(d, s[sp - 1], 0.0))
    else if op == 0x05 then
      if sp < 2 then Drawing(false, d) else Drawing(true, Lines(d, s, 0, sp))
    else if op == 0x07 || op == 0x06 then
      if sp < 1 then Drawing(false, d) else Drawing(true, AlternatingLines(d, s, 0, op == 0x06))
    else if op == 0x1F || op == 0x1E then
      if sp < 4 then Drawing(false, d) else Drawing(true, AlternatingCurves(d, s, 0, op == 0x1F))
    else if op == 0x08 then
      if sp < 6 then Drawing(false, d) else Drawing(true, Curves(d, s, 0, sp))
    else if op == 0x18 then
      if sp < 8 then Drawing(false, d) else CurvesLine(d, s)
    else if op == 0x19 then
      if sp < 8 then Drawing(false, d) else LinesCurve(d, s)
    else
      if sp < 4 then Drawing(false, d) else Drawing(true, FlatCurvesOf(d, s, op == 0x1B))
  }

  // An odd number of operands starts with the first curve's other offset.
  function FlatCurvesOf(d: Drawn, s: seq<real>, horizontal: bool): (r: Drawn)
    requires |s| >= 4
    ensures |r.path| >= |d.path|
  {
    if |s| % 2 == 1 then FlatCurves(d, s, 1, s[0], horizontal) else FlatCurves(d, s, 0, 0.0, horizontal)
  }

  function CurvesLine(d: Drawn, s: seq<real>): (r: Drawing)
    requires |s| >= 8
    ensures |r.drawn.path| >= |d.path|
  {
    var c := Curves(d, s, 0, |s| - 2);
    var i := CurvesEnd(0, |s| - 2);
    if i + 1 >= |s| then Drawing(false, c) else Drawing(true, LineTo(c, s[i], s[i + 1]))
  }

  function LinesCurve(d: Drawn, s: seq<real>): (r: Drawing)
    requires |s| >= 8
    ensures |r.drawn.path| >= |d.path|
  {
    var c := Lines(d, s, 0, |s| - 6);
    var i := LinesEnd(0, |s| - 6);
    if i + 5 >= |s| then Drawing(false, c)
    else Drawing(true, CurveTo(c, s[i], s[i + 1], s[i + 2], s[i + 3], s[i + 4], s[i + 5]))
  }

  // The two-byte operators.
  function DrawFlex(op: byte, d: Drawn, s: seq<real>): (r: Drawing)
    ensures |r.drawn.path| >= |d.path|
  {
    var sp := |s|;
    if op == 0x22 && sp >= 7 then
      Drawing(true, CurveTo(CurveTo(d, s[0], 0.0, s[1], s[2], s[3], 0.0), s[4], 0.0, s[5], -s[2], s[6], 0.0))
    else if op == 0x23 && sp >= 13 then
      Drawing(true, CurveTo(CurveTo(d, s[0], s[1], s[2], s[3], s[4], s[5]), s[6], s[7], s[8], s[9], s[10], s[11]))
    else if op == 0x24 && sp >= 9 then
      Drawing(true, CurveTo(CurveTo(d, s[0], s[1], s[2], s[3], s[4], 0.0), s[5], 0.0, s[6], s[7], s[8],
          -(s[1] + s[3] + s[7])))
    else if op == 0x25 && sp >= 11 then Drawing(true, Flex1(d, s))
    else Drawing(false, d)
  }

  // ----- the machine --------------------------------------------------------------------------

  // The glyph's charstring and the subroutines it can call.
  datatype Font = Font(charstring: seq<byte>, subrs: seq<seq<byte>>, gsubrs: seq<seq<byte>>)

  // stbtt__get_subr: no bytes when there is no such subroutine.
  function GetSubr(index: seq<seq<byte>>, n: int): seq<byte> {
    var bias := if |index| >= 33900 then 32768 else if |index| >= 1240 then 1131 else 107;
    if n + bias < 0 || n + bias >= |index| then [] else index[n + bias]
  }

  datatype Machine = Machine(
    b: Buf, frames: seq<Buf>, stack: seq<real>, inHeader: bool, maskbits: nat, drawn: Drawn)

  predicate MachineOk(m: Machine) {
    && |m.stack| <= STACK_MAX && |m.frames| <= CALL_MAX
    && m.b.cursor <= |m.b.data|
    && forall k :: 0 <= k < |m.frames| ==> m.frames[k].cursor <= |m.frames[k].data|
  }

  function Start(font: Font): Machine {
    Machine(Buf(font.charstring, 0), [], [], true, 0, NOTHING)
  }

  datatype Step = Next(machine: Machine) | Stop(ok: bool, drawn: Drawn)

  // An operand: its value and what is left of the buffer.
  function ReadOperand(b0: byte, b: Buf): (real, Buf)
    requires b0 == 255 || b0 == 28 || 32 <= b0 <= 254
  {
    if b0 == 255 then
      var (v, rest) := Get(b, 4);
      (Int32(v) as real / 65536.0, rest)
    else if b0 == 28 then
      var (v, rest) := Get(b, 2);
      (Int16(v) as real, rest)
    else if b0 <= 246 then ((b0 - 139) as real, b)
    else
      var (low, rest) := Get8(b);
      if b0 <= 250 then (((b0 - 247) * 256 + low + 108) as real, rest)
      else ((-(b0 - 251) * 256 - low - 108) as real, rest)
  }

  function Cleared(m: Machine, b: Buf, d: Drawn): Machine {
    m.(b := b, stack := [], drawn := d)
  }

  // One operator or operand; b is the buffer behind its first byte b0.
  function StepOn(font: Font, m: Machine, b0: byte, b: Buf): Step
    requires MachineOk(m)
  {
    var sp := |m.stack|;
    if b0 == 0x13 || b0 == 0x14 then
      var bits := if m.inHeader then m.maskbits + sp / 2 else m.maskbits;
      Next(Cleared(m, Skip(b, (bits + 7) / 8), m.drawn).(inHeader := false, maskbits := bits))
    else if b0 == 0x01 || b0 == 0x03 || b0 == 0x12 || b0 == 0x17 then
      Next(Cleared(m, b, m.drawn).(maskbits := m.maskbits + sp / 2))
    else if IsDrawing(b0) then
      var r := Draw(b0, m.drawn, m.stack);
      if !r.ok then Stop(false, r.drawn)
      else
        var next := Cleared(m, b, r.drawn);
        Next(if b0 == 0x15 || b0 == 0x04 || b0 == 0x16 then next.(inHeader := false) else next)
    else if b0 == 0x0A || b0 == 0x1D then Call(font, m, b0, b)
    else if b0 == 0x0B then
      if m.frames == [] then Stop(false, m.drawn)
      else Next(m.(b := m.frames[|m.frames| - 1], frames := m.frames[..|m.frames| - 1]))
    else if b0 == 0x0E then Stop(true, CloseShape(m.drawn))
    else if b0 == 0x0C then
      var (b1, rest) := Get8(b);
      var r := DrawFlex(b1, m.drawn, m.stack);
      if r.ok then Next(Cleared(m, rest, r.drawn)) else Stop(false, r.drawn)
    else if b0 != 255 && b0 != 28 && b0 < 32 then Stop(false, m.drawn)
    else
      var (f, rest) := ReadOperand(b0, b);
      if sp >= STACK_MAX then Stop(false, m.drawn)
      else Next(m.(b := rest, stack := m.stack + [f]))
  }

  function Call(font: Font, m: Machine, b0: byte, b: Buf): Step {
    var sp := |m.stack|;
    if sp < 1 || |m.frames| >= CALL_MAX then Stop(false, m.drawn)
    else
      var subr := GetSubr(if b0 == 0x0A then font.subrs else font.gsubrs, Trunc(m.stack[sp - 1]));
      if subr == [] then Stop(false, m.drawn)
      else Next(m.(b := Buf(subr, 0), frames := m.frames + [b], stack := m.stack[..sp - 1]))
  }

  // What is left to read in the k-th frame, counted from the glyph; 0 for no frame.
  function Left(m: Machine, k: nat): nat {
    if k < |m.frames| then 1 + Remaining(m.frames[k])
    else if k == |m.frames| then 1 + Remaining(m.b)
    else 0
  }

  lemma GetForward(b: Buf, n: nat)
    requires b.cursor <= |b.data|
    ensures var r := Get(b, n).1; r.data == b.data && b.cursor <= r.cursor <= |b.data|
  {
  }

  // The next machine has less to read in the innermost frame of m, and as much in the others.
  ghost predicate Shrinks(m: Machine, next: Machine) {
    var h := |m.frames|;
    && MachineOk(next)
    && Left(next, h) < Left(m, h)
    && (forall k :: 0 <= k < h ==> Left(next, k) == Left(m, k))
    && |next.drawn.path| >= |m.drawn.path|
  }

  lemma ReadingShrinks(m: Machine, next: Machine)
    requires MachineOk(m) && next.frames == m.frames && |next.stack| <= STACK_MAX
    requires next.b.data == m.b.data && m.b.cursor < next.b.cursor <= |m.b.data|
    requires |next.drawn.path| >= |m.drawn.path|
    ensures Shrinks(m, next)
  {
  }

  lemma CallShrinks(font: Font, m: Machine, b0: byte)
    requires MachineOk(m) && m.b.cursor < |m.b.data|
    ensures var step := Call(font, m, b0, Get8(m.b).1);
            && (step.Next? ==> Shrinks(m, step.machine))
            && (step.Stop? ==> step.drawn == m.drawn)
  {
    hide GetSubr, Trunc;
  }

  lemma ReturnShrinks(m: Machine)
    requires MachineOk(m) && m.b.cursor < |m.b.data| && m.frames != []
    ensures Shrinks(m, m.(b := m.frames[|m.frames| - 1], frames := m.frames[..|m.frames| - 1]))
  {
  }

  lemma OperandShrinks(m: Machine, b0: byte)
    requires MachineOk(m) && m.b.cursor < |m.b.data| && |m.stack| < STACK_MAX
    requires b0 == 255 || b0 == 28 || 32 <= b0 <= 254
    ensures var (f, rest) := ReadOperand(b0, Get8(m.b).1);
            Shrinks(m, m.(b := rest, stack := m.stack + [f]))
  {
    hide Shrinks, Get, Int32, Int16;
    var b := Get8(m.b).1;
    GetForward(b, 4);
    GetForward(b, 2);
    var (f, rest) := ReadOperand(b0, b);
    ReadingShrinks(m, m.(b := rest, stack := m.stack + [f]));
  }

  // An operator that clears the stack and reads at most forward.
  lemma ClearingShrinks(m: Machine, b: Buf, d: Drawn, inHeader: bool, maskbits: nat)
    requires MachineOk(m) && |d.path| >= |m.drawn.path|
    requires b.data == m.b.data && m.b.cursor < b.cursor <= |m.b.data|
    ensures Shrinks(m, Machine(b, m.frames, [], inHeader, maskbits, d))
  {
    ReadingShrinks(m, Machine(b, m.frames, [], inHeader, maskbits, d));
  }

  // A step never loses what is drawn, and what it goes on with has less left to read.
  lemma StepShrinks(font: Font, m: Machine, b0: byte, b: Buf)
    requires MachineOk(m) && m.b.cursor < |m.b.data| && b == Get8(m.b).1
    ensures var step := StepOn(font, m, b0, b);
            && (step.Next? ==> Shrinks(m, step.machine))
            && (step.Stop? ==> |step.drawn.path| >= |m.drawn.path|)
  {
    hide Draw, DrawFlex, IsDrawing, Shrinks, ReadOperand, Call, CloseShape;
    if b0 == 0x13 || b0 == 0x14 {
      var bits := if m.inHeader then m.maskbits + |m.stack| / 2 else m.maskbits;
      ClearingShrinks(m, Skip(b, (bits + 7) / 8), m.drawn, false, bits);
    } else if b0 == 0x01 || b0 == 0x03 || b0 == 0x12 || b0 == 0x17 {
      ClearingShrinks(m, b, m.drawn, m.inHeader, m.maskbits + |m.stack| / 2);
    } else if IsDrawing(b0) {
      var d := Draw(b0, m.drawn, m.stack).drawn;
      ClearingShrinks(m, b, d, m.inHeader, m.maskbits);
      ClearingShrinks(m, b, d, false, m.maskbits);
    } else if b0 == 0x0A || b0 == 0x1D {
      CallShrinks(font, m, b0);
    } else if b0 == 0x0B {
      if m.frames != [] { ReturnShrinks(m); }
    } else if b0 == 0x0C {
      var (b1, rest) := Get8(b);
      ClearingShrinks(m, rest, DrawFlex(b1, m.drawn, m.stack).drawn, m.inHeader, m.maskbits);
    } else if (b0 == 255 || b0 == 28 || b0 >= 32) && |m.stack| < STACK_MAX {
      OperandShrinks(m, b0);
    }
  }

  /** What the interpreter makes of a glyph: whether it succeeds, and all it draws.  The
      recursion is bounded by what is left to read in the at most eleven nested frames,
      outermost first. */
  function Run(font: Font, m: Machine): (r: Drawing)
    requires MachineOk(m)
    ensures |r.drawn.path| >= |m.drawn.path|
    decreases Left(m, 0), Left(m, 1), Left(m, 2), Left(m, 3), Left(m, 4), Left(m, 5),
              Left(m, 6), Left(m, 7), Left(m, 8), Left(m, 9), Left(m, 10)
  {
    if m.b.cursor >= |m.b.data| then Drawing(false, m.drawn)
    else
      var (b0, b) := Get8(m.b);
      StepShrinks(font, m, b0, b);
      match StepOn(font, m, b0, b)
      case Stop(ok, drawn) => Drawing(ok, drawn)
      case Next(next) => Run(font, next)
  }

  // ----- the counters ---------------------------------------------------------------------------

  const INT_MAX: nat := 0x7FFF_FFFF

  // A counter of the interpreter: a C int.
  type Counter = n: nat | n <= INT_MAX

  // The count of hints after a step; the hint masks also add 7 to it.
  predicate HintsInRange(b0: byte, hints: nat) {
    hints + (if b0 == 0x13 || b0 == 0x14 then 7 else 0) <= INT_MAX
  }

  // The hints that are counted on the way fit an int.
  predicate HintsFit(font: Font, m: Machine)
    requires MachineOk(m)
    decreases Left(m, 0), Left(m, 1), Left(m, 2), Left(m, 3), Left(m, 4), Left(m, 5),
              Left(m, 6), Left(m, 7), Left(m, 8), Left(m, 9), Left(m, 10)
  {
    m.b.cursor >= |m.b.data| ||
    var (b0, b) := Get8(m.b);
    StepShrinks(font, m, b0, b);
    match StepOn(font, m, b0, b)
    case Stop(ok, drawn) => true
    case Next(next) => HintsInRange(b0, next.maskbits) && HintsFit(font, next)
  }

  /** What stb_truetype counts in ints while it interprets a glyph, vertices and hints, fits them. */
  predicate CountersFit(font: Font) {
    |Run(font, Start(font)).drawn.path| <= INT_MAX && HintsFit(font, Start(font))
  }

  // ----- the extent of a path --------------------------------------------------------------------

  datatype Box = NoBox | Box(minX: int, maxX: int, minY: int, maxY: int)

  // stbtt__track_vertex
  function Track(box: Box, x: int, y: int): Box {
    if box.NoBox? then Box(x, x, y, y)
    else Box(if x < box.minX then x else box.minX, if x > box.maxX then x else box.maxX,
             if y < box.minY then y else box.minY, if y > box.maxY then y else box.maxY)
  }

  // The end of a vertex and the control points of its curve.
  function PointsOf(v: Vertex): seq<(int, int)> {
    if v.kind == Cubic then [(v.x, v.y), (v.cx, v.cy), (v.cx1, v.cy1)] else [(v.x, v.y)]
  }

  function Points(path: seq<Vertex>): seq<(int, int)> {
    if path == [] then [] else Points(path[..|path| - 1]) + PointsOf(path[|path| - 1])
  }

  // The vertex has the point as its end, or as a control point of its curve.
  predicate HasPoint(v: Vertex, p: (int, int)) {
    p == (v.x, v.y) || (v.kind == Cubic && (p == (v.cx, v.cy) || p == (v.cx1, v.cy1)))
  }

  /** The points that a box is drawn around are the ends of all vertices and the control points of the
      curves. */
  lemma {:induction false} PointsAreAll(path: seq<Vertex>, p: (int, int))
    ensures p in Points(path) <==> exists k :: 0 <= k < |path| && HasPoint(path[k], p)
  {
    if path != [] {
      var n := |path| - 1;
      PointsAreAll(path[..n], p);
      assert p in PointsOf(path[n]) <==> HasPoint(path[n], p);
      if k :| 0 <= k < n && HasPoint(path[k], p) { assert path[..n][k] == path[k]; }
    }
  }

  function Bounds(points: seq<(int, int)>): Box {
    if points == [] then NoBox
    else var (x, y) := points[|points| - 1]; Track(Bounds(points[..|points| - 1]), x, y)
  }

  lemma BoundsOfMore(points: seq<(int, int)>, x: int, y: int)
    ensures Bounds(points + [(x, y)]) == Track(Bounds(points), x, y)
  {
    assert (points + [(x, y)])[..|points|] == points;
  }

  lemma PointsOfMore(path: seq<Vertex>, v: Vertex)
    ensures Points(path + [v]) == Points(path) + PointsOf(v)
  {
    assert (path + [v])[..|path|] == path;
  }

  // A box around all the points, each side of which goes through one of them.
  ghost predicate IsTightBox(box: Box, points: seq<(int, int)>) {
    && box.Box?
    && (forall k :: 0 <= k < |points| ==> box.minX <= points[k].0 <= box.maxX && box.minY <= points[k].1 <= box.maxY)
    && (exists k :: 0 <= k < |points| && points[k].0 == box.minX)
    && (exists k :: 0 <= k < |points| && points[k].0 == box.maxX)
    && (exists k :: 0 <= k < |points| && points[k].1 == box.minY)
    && (exists k :: 0 <= k < |points| && points[k].1 == box.maxY)
  }

  /** The box tracked over a path is the smallest one around all its points. */
  lemma {:induction false} BoundsAreTight(points: seq<(int, int)>)
    requires points != []
    ensures IsTightBox(Bounds(points), points)
  {
    var n := |points| - 1;
    var (x, y) := points[n];
    if n > 0 {
      BoundsAreTight(points[..n]);
      TrackStaysTight(Bounds(points[..n]), points[..n], x, y);
      assert points[..n] + [(x, y)] == points;
    }
  }

  lemma TrackStaysTight(box: Box, points: seq<(int, int)>, x: int, y: int)
    requires IsTightBox(box, points)
    ensures IsTightBox(Track(box, x, y), points + [(x, y)])
  {
    var more := points + [(x, y)];
    var p :| 0 <= p < |points| && points[p].0 == box.minX;
    var q :| 0 <= q < |points| && points[q].0 == box.maxX;
    var r :| 0 <= r < |points| && points[r].1 == box.minY;
    var s :| 0 <= s < |points| && points[s].1 == box.maxY;
    assert more[p] == points[p] && more[q] == points[q] && more[r] == points[r] && more[s] == points[s];
    assert more[|points|] == (x, y);
  }
}

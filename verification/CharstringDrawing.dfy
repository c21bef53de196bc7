/** What a charstring draws, in terms of the outline it was made from: contours of integer points,
    written with the differences from point to point, come out with their own coordinates. */
module CharstringDrawing {
  import opened Basics
  import opened CharstringSpec
  import opened CharstringCounts
  import opened CharstringOperators

  // ----- outlines ----------------------------------------------------------------------------------

  datatype Point = Point(x: int, y: int)

  // A line to a point, or a curve to it with two control points.
  datatype Stroke = LineStroke(end: Point) | CurveStroke(c1: Point, c2: Point, end: Point)

  datatype Contour = Contour(start: Point, strokes: seq<Stroke>)

  function EndOf(from: Point, strokes: seq<Stroke>): Point {
    if strokes == [] then from else strokes[|strokes| - 1].end
  }

  function VertexOf(s: Stroke): Vertex {
    match s
    case LineStroke(p) => Vertex(Line, p.x, p.y, 0, 0, 0, 0)
    case CurveStroke(c1, c2, p) => Vertex(Cubic, p.x, p.y, c1.x, c1.y, c2.x, c2.y)
  }

  function VerticesOf(strokes: seq<Stroke>): (v: seq<Vertex>)
    ensures |v| == |strokes|
  {
    seq(|strokes|, k requires 0 <= k < |strokes| => VertexOf(strokes[k]))
  }

  function MoveVertex(p: Point): Vertex {
    Vertex(Move, p.x, p.y, 0, 0, 0, 0)
  }

  // A line back to the first point, if the last one is another.
  function Closing(first: Point, last: Point): seq<Vertex> {
    if last == first then [] else [Vertex(Line, first.x, first.y, 0, 0, 0, 0)]
  }

  // A contour with absolute coordinates, closed.
  function ContourOutline(c: Contour): seq<Vertex> {
    [MoveVertex(c.start)] + VerticesOf(c.strokes) + Closing(c.start, EndOf(c.start, c.strokes))
  }

  // All contours one after the other.
  function Outline(contours: seq<Contour>): seq<Vertex> {
    if contours == [] then []
    else Outline(contours[..|contours| - 1]) + ContourOutline(contours[|contours| - 1])
  }

  // ----- charstrings ---------------------------------------------------------------------------------

  predicate IsShort(n: int) {
    -0x8000 <= n < 0x8000
  }

  /** An integer operand in as few bytes as section 3.2 of "The Type 2 Charstring Format" has for it. */
  function Number(n: int): (s: seq<byte>)
    requires IsShort(n)
    ensures 1 <= |s| <= 3
  {
    if -107 <= n <= 107 then [n + 139]
    else if 108 <= n <= 1131 then [247 + (n - 108) / 256, (n - 108) % 256]
    else if -1131 <= n <= -108 then [251 + (-n - 108) / 256, (-n - 108) % 256]
    else LongNumber(n)
  }

  // Any integer operand can be given in three bytes.
  function LongNumber(n: int): seq<byte>
    requires IsShort(n)
  {
    [28, n % 0x1_0000 / 256, n % 256]
  }

  predicate IsLong(v: int) {
    -0x8000_0000 <= v < 0x8000_0000
  }

  // A fraction: 65536ths in five bytes.
  function Fixed(v: int): seq<byte>
    requires IsLong(v)
  {
    var w := v % 0x1_0000_0000;
    [255, w / 0x100_0000, w / 0x1_0000 % 0x100, w / 0x100 % 0x100, w % 0x100]
  }

  predicate AreShort(operands: seq<int>) {
    forall k :: 0 <= k < |operands| ==> IsShort(operands[k])
  }

  function Numbers(operands: seq<int>): seq<byte>
    requires AreShort(operands)
  {
    if operands == [] then []
    else Numbers(operands[..|operands| - 1]) + Number(operands[|operands| - 1])
  }

  function Operands(from: Point, s: Stroke): seq<int> {
    match s
    case LineStroke(p) => [p.x - from.x, p.y - from.y]
    case CurveStroke(c1, c2, p) =>
      [c1.x - from.x, c1.y - from.y, c2.x - c1.x, c2.y - c1.y, p.x - c2.x, p.y - c2.y]
  }

  predicate StrokesShort(from: Point, strokes: seq<Stroke>) {
    forall k :: 0 <= k < |strokes| ==> AreShort(Operands(EndOf(from, strokes[..k]), strokes[k]))
  }

  const ENDCHAR: byte := 0x0E

  function StrokeCode(from: Point, s: Stroke): seq<byte>
    requires AreShort(Operands(from, s))
  {
    Numbers(Operands(from, s)) + [if s.LineStroke? then RLINETO else RRCURVETO]
  }

  function StrokesCode(from: Point, strokes: seq<Stroke>): seq<byte>
    requires StrokesShort(from, strokes)
  {
    if strokes == [] then []
    else
      var n := |strokes| - 1;
      ShortPrefix(from, strokes, n);
      StrokesCode(from, strokes[..n]) + StrokeCode(EndOf(from, strokes[..n]), strokes[n])
  }

  lemma ShortPrefix(from: Point, strokes: seq<Stroke>, n: nat)
    requires StrokesShort(from, strokes) && n <= |strokes|
    ensures StrokesShort(from, strokes[..n])
  {
    forall k | 0 <= k < n ensures AreShort(Operands(EndOf(from, strokes[..n][..k]), strokes[..n][k])) {
      assert strokes[..n][..k] == strokes[..k];
    }
  }

  // A contour drawn from where the pen is.
  predicate ContourShort(from: Point, c: Contour) {
    IsShort(c.start.x - from.x) && IsShort(c.start.y - from.y) && StrokesShort(c.start, c.strokes)
  }

  function ContourCode(from: Point, c: Contour): seq<byte>
    requires ContourShort(from, c)
  {
    Numbers([c.start.x - from.x, c.start.y - from.y]) + [RMOVETO] + StrokesCode(c.start, c.strokes)
  }

  const ORIGIN := Point(0, 0)

  // Where the pen is behind the contours.
  function PenBehind(contours: seq<Contour>): Point {
    if contours == [] then ORIGIN
    else var c := contours[|contours| - 1]; EndOf(c.start, c.strokes)
  }

  predicate ContoursShort(contours: seq<Contour>) {
    forall k :: 0 <= k < |contours| ==> ContourShort(PenBehind(contours[..k]), contours[k])
  }

  lemma ShortContours(contours: seq<Contour>, n: nat)
    requires ContoursShort(contours) && n <= |contours|
    ensures ContoursShort(contours[..n])
  {
    forall k | 0 <= k < n ensures ContourShort(PenBehind(contours[..n][..k]), contours[..n][k]) {
      assert contours[..n][..k] == contours[..k];
    }
  }

  function ContoursCode(contours: seq<Contour>): seq<byte>
    requires ContoursShort(contours)
  {
    if contours == [] then []
    else
      var n := |contours| - 1;
      ShortContours(contours, n);
      ContoursCode(contours[..n]) + ContourCode(PenBehind(contours[..n]), contours[n])
  }

  /** The charstring of an outline: rmoveto, rlineto and rrcurveto with the differences from point to
      point, and endchar. */
  function CharstringOf(contours: seq<Contour>): seq<byte>
    requires ContoursShort(contours)
  {
    ContoursCode(contours) + [ENDCHAR]
  }

  // ----- numbers ----------------------------------------------------------------------------------------

  // The bytes at the cursor.
  predicate At(m: Machine, code: seq<byte>) {
    m.b.cursor + |code| <= |m.b.data| && m.b.data[m.b.cursor..m.b.cursor + |code|] == code
  }

  lemma AtTwo(m: Machine, a: seq<byte>, b: seq<byte>)
    requires At(m, a + b)
    ensures At(m, a) && At(Ahead(m, |a|), b)
  {
    var c := m.b.cursor;
    assert m.b.data[c..c + |a|] == m.b.data[c..c + |a + b|][..|a|];
    assert m.b.data[c + |a|..c + |a + b|] == m.b.data[c..c + |a + b|][|a|..];
  }

  lemma AtByte(m: Machine, code: seq<byte>, k: nat)
    requires At(m, code) && k < |code|
    ensures m.b.data[m.b.cursor + k] == code[k]
  {
    var c := m.b.cursor;
    assert m.b.data[c..c + |code|][k] == m.b.data[c + k];
  }

  // Reading the bytes at the cursor gives the operand f and steps over them.
  predicate ReadsAs(m: Machine, code: seq<byte>, f: real) {
    && code != [] && m.b.cursor < |m.b.data| && Get8(m.b).0 == code[0]
    && (code[0] == 255 || code[0] == 28 || 32 <= code[0] <= 254)
    && ReadOperand(code[0], Get8(m.b).1) == (f, Ahead(m, |code|).b)
  }

  /** Operands are read as the numbers they were written from, in each of their forms. */
  lemma OperandsAreRead(m: Machine, n: int, v: int)
    requires IsShort(n) && IsLong(v)
    ensures At(m, Number(n)) ==> ReadsAs(m, Number(n), n as real)
    ensures At(m, LongNumber(n)) ==> ReadsAs(m, LongNumber(n), n as real)
    ensures At(m, Fixed(v)) ==> ReadsAs(m, Fixed(v), v as real / 65536.0)
  {
    hide Number, LongNumber, Fixed, ReadsAs, At;
    if At(m, LongNumber(n)) { LongNumberIsRead(m, n); }
    if At(m, Number(n)) { NumberIsRead(m, n); }
    if At(m, Fixed(v)) { FixedIsRead(m, v); }
  }

  lemma NumberIsRead(m: Machine, n: int)
    requires IsShort(n) && At(m, Number(n))
    ensures ReadsAs(m, Number(n), n as real)
  {
    hide Get, Int16, LongNumber;
    var code := Number(n);
    if code == LongNumber(n) {
      LongNumberIsRead(m, n);
    } else {
      AtByte(m, code, 0);
      if |code| > 1 { AtByte(m, code, 1); }
    }
  }

  lemma LongNumberIsRead(m: Machine, n: int)
    requires IsShort(n) && At(m, LongNumber(n))
    ensures ReadsAs(m, LongNumber(n), n as real)
  {
    hide Get, Int16;
    var code := LongNumber(n);
    AtByte(m, code, 0);
    AtByte(m, code, 1);
    AtByte(m, code, 2);
    TwoBytes(Get8(m.b).1);
    ShortIsRead(n);
  }

  lemma FixedIsRead(m: Machine, v: int)
    requires IsLong(v) && At(m, Fixed(v))
    ensures ReadsAs(m, Fixed(v), v as real / 65536.0)
  {
    hide Get, Int32;
    var code := Fixed(v);
    AtByte(m, code, 0);
    AtByte(m, code, 1);
    AtByte(m, code, 2);
    AtByte(m, code, 3);
    AtByte(m, code, 4);
    FourBytes(Get8(m.b).1);
    BytesOf(v % 0x1_0000_0000);
    LongIsRead(v);
  }

  lemma MoreBytes(b: Buf, n: nat)
    requires Get(b, n).1.cursor < |Get(b, n).1.data|
    ensures var (v, rest) := Get(b, n);
            var low: int := rest.data[rest.cursor];
            Get(b, n + 1) == (v * 256 + low, rest.(cursor := rest.cursor + 1))
  {
  }

  lemma FourBytes(b: Buf)
    requires b.cursor + 4 <= |b.data|
    ensures var (a: int, c: int, d: int, e: int) :=
              (b.data[b.cursor], b.data[b.cursor + 1], b.data[b.cursor + 2], b.data[b.cursor + 3]);
            Get(b, 4) == (((a * 256 + c) * 256 + d) * 256 + e, b.(cursor := b.cursor + 4))
  {
    hide Get;
    TwoBytes(b);
    MoreBytes(b, 2);
    MoreBytes(b, 3);
  }

  lemma BytesOf(w: nat)
    requires w < 0x1_0000_0000
    ensures ((w / 0x100_0000 * 256 + w / 0x1_0000 % 0x100) * 256 + w / 0x100 % 0x100) * 256 + w % 0x100 == w
  {
    assert w / 0x100 / 0x100 == w / 0x1_0000 && w / 0x1_0000 / 0x100 == w / 0x100_0000;
  }

  lemma LongIsRead(v: int)
    requires IsLong(v)
    ensures Int32(v % 0x1_0000_0000) == v
  {
  }

  lemma TwoBytes(b: Buf)
    requires b.cursor + 2 <= |b.data|
    ensures var (high: int, low: int) := (b.data[b.cursor], b.data[b.cursor + 1]);
            Get(b, 2) == (high * 256 + low, b.(cursor := b.cursor + 2))
  {
    assert Get(b, 0) == (0, b);
    assert Get(b, 1) == (b.data[b.cursor] as int, b.(cursor := b.cursor + 1));
  }

  lemma ShortIsRead(n: int)
    requires IsShort(n)
    ensures Int16(n % 0x1_0000 / 256 * 256 + n % 256) == n
  {
    assert n % 0x1_0000 % 256 == n % 256;
  }

  // ----- operands --------------------------------------------------------------------------------------

  function Reals(operands: seq<int>): (r: seq<real>)
    ensures |r| == |operands|
  {
    seq(|operands|, k requires 0 <= k < |operands| => operands[k] as real)
  }

  function Pushed(m: Machine, n: nat, operands: seq<int>): Machine {
    Ahead(m, n).(stack := m.stack + Reals(operands))
  }

  lemma NumberLeads(font: Font, m: Machine, n: int)
    requires MachineOk(m) && IsShort(n) && At(m, Number(n)) && |m.stack| < STACK_MAX
    ensures Leads(font, m, Ahead(m, |Number(n)|).(stack := m.stack + [n as real]))
  {
    hide Number, At, ReadOperand, Leads, MachineOk;
    NumberIsRead(m, n);
    NoFixed(n);
    NumberSteps(font, m, Number(n)[0], n as real, Ahead(m, |Number(n)|).b);
    LeadsTo(font, m, Ahead(m, |Number(n)|).(stack := m.stack + [n as real]));
  }

  lemma NoFixed(n: int)
    requires IsShort(n)
    ensures Number(n)[0] == 28 || 32 <= Number(n)[0] <= 254
  {
  }

  lemma NumberSteps(font: Font, m: Machine, b0: byte, f: real, rest: Buf)
    requires MachineOk(m) && |m.stack| < STACK_MAX && (b0 == 28 || 32 <= b0 <= 254)
    requires ReadOperand(b0, Get8(m.b).1) == (f, rest)
    ensures StepOn(font, m, b0, Get8(m.b).1) == Next(m.(b := rest, stack := m.stack + [f]))
  {
    hide ReadOperand, MachineOk;
  }

  lemma NothingPushed(font: Font, m: Machine)
    requires MachineOk(m)
    ensures Leads(font, m, Pushed(m, 0, []))
  {
    assert m.stack + Reals([]) == m.stack;
    LeadsToItself(font, m);
  }

  lemma MorePushed(m: Machine, n: nat, k: nat, operands: seq<int>)
    requires operands != []
    ensures var last := |operands| - 1;
            var before := Pushed(m, n, operands[..last]);
            Ahead(before, k).(stack := before.stack + [operands[last] as real]) == Pushed(m, n + k, operands)
  {
    var last := |operands| - 1;
    assert m.stack + Reals(operands[..last]) + [operands[last] as real] == m.stack + Reals(operands);
  }

  lemma {:induction false} NumbersLead(font: Font, m: Machine, operands: seq<int>)
    requires MachineOk(m) && AreShort(operands) && At(m, Numbers(operands)) && |m.stack| + |operands| <= STACK_MAX
    ensures Leads(font, m, Pushed(m, |Numbers(operands)|, operands))
    decreases |operands|
  {
    hide Number, At, MachineOk, Leads;
    if operands == [] {
      NothingPushed(font, m);
    } else {
      var last := |operands| - 1;
      var front := Numbers(operands[..last]);
      AtTwo(m, front, Number(operands[last]));
      NumbersLead(font, m, operands[..last]);
      var before := Pushed(m, |front|, operands[..last]);
      LeadsIsOk(font, m, before);
      SameBytes(Ahead(m, |front|), before, Number(operands[last]));
      NumberLeads(font, before, operands[last]);
      MorePushed(m, |front|, |Number(operands[last])|, operands);
      LeadsOn(font, m, before, Pushed(m, |front| + |Number(operands[last])|, operands));
    }
  }

  lemma SameBytes(m: Machine, n: Machine, code: seq<byte>)
    requires At(m, code) && n.b == m.b
    ensures At(n, code)
  {
  }

  // ----- one operator ------------------------------------------------------------------------------------

  // n has drawn `more`, and is behind k bytes with an empty stack.
  ghost predicate Draws(m: Machine, n: Machine, k: nat, more: seq<Vertex>) {
    n.b == Ahead(m, k).b && n.frames == m.frames && n.stack == [] && n.drawn.path == m.drawn.path + more
  }

  predicate PenIs(m: Machine, first: Point, at: Point) {
    m.drawn.pen == Pen(first.x as real, first.y as real, at.x as real, at.y as real)
  }

  lemma TruncOfInt(n: int)
    ensures Trunc(n as real) == n
  {
    assert (n as real).Floor == n && (-(n as real)).Floor == -n;
  }

  lemma OneStroke(d: Drawn, from: Point, s: Stroke)
    requires d.pen.x == from.x as real && d.pen.y == from.y as real
    ensures var op := if s.LineStroke? then RLINETO else RRCURVETO;
            var r := Draw(op, d, Reals(Operands(from, s)));
            && r.ok && r.drawn.path == d.path + [VertexOf(s)]
            && r.drawn.pen == d.pen.(x := s.end.x as real, y := s.end.y as real)
  {
    hide Trunc;
    TruncOfInt(s.end.x);
    TruncOfInt(s.end.y);
    var o := Reals(Operands(from, s));
    match s
    case LineStroke(p) =>
      assert Lines(d, o, 0, 2) == LineTo(d, o[0], o[1]);
    case CurveStroke(c1, c2, p) =>
      TruncOfInt(c1.x);
      TruncOfInt(c1.y);
      TruncOfInt(c2.x);
      TruncOfInt(c2.y);
      assert Curves(d, o, 0, 6) == CurveTo(d, o[0], o[1], o[2], o[3], o[4], o[5]);
  }

  // A drawing operator behind its operands.
  lemma OperatorLeads(font: Font, m: Machine, operands: seq<int>, op: byte, d: Drawn) returns (n: Machine)
    requires MachineOk(m) && m.stack == [] && AreShort(operands) && |operands| <= STACK_MAX && IsDrawing(op)
    requires At(m, Numbers(operands) + [op]) && Draw(op, m.drawn, Reals(operands)) == Drawing(true, d)
    ensures Leads(font, m, n) && n.b == Ahead(m, |Numbers(operands)| + 1).b && n.frames == m.frames && n.stack == []
    ensures n.drawn == d
  {
    hide Numbers, At, MachineOk, Leads, Draw, IsDrawing;
    var code := Numbers(operands);
    AtTwo(m, code, [op]);
    NumbersLead(font, m, operands);
    var before := Pushed(m, |code|, operands);
    assert [] + Reals(operands) == Reals(operands);
    LeadsIsOk(font, m, before);
    SameBytes(Ahead(m, |code|), before, [op]);
    AtByte(before, [op], 0);
    ByteInside(before, op);
    n := DrawingSteps(font, before, op, d);
    LeadsTo(font, before, n);
    LeadsOn(font, m, before, n);
  }

  lemma ByteInside(m: Machine, op: byte)
    requires At(m, [op])
    ensures m.b.cursor < |m.b.data|
  {
  }

  lemma DrawingSteps(font: Font, m: Machine, op: byte, d: Drawn) returns (n: Machine)
    requires MachineOk(m) && m.b.cursor < |m.b.data| && m.b.data[m.b.cursor] == op && IsDrawing(op)
    requires Draw(op, m.drawn, m.stack) == Drawing(true, d)
    ensures StepOn(font, m, Get8(m.b).0, Get8(m.b).1) == Next(n)
    ensures n.b == Ahead(m, 1).b && n.frames == m.frames && n.stack == [] && n.drawn == d
  {
    hide MachineOk, Draw;
    n := Ahead(m, 1).(stack := [], drawn := d);
    if op == 0x15 || op == 0x04 || op == 0x16 { n := n.(inHeader := false); }
  }

  lemma StrokeLeads(font: Font, m: Machine, first: Point, from: Point, s: Stroke) returns (n: Machine)
    requires MachineOk(m) && m.stack == [] && AreShort(Operands(from, s)) && At(m, StrokeCode(from, s))
    requires PenIs(m, first, from)
    ensures Leads(font, m, n) && Draws(m, n, |StrokeCode(from, s)|, [VertexOf(s)]) && PenIs(n, first, s.end)
  {
    hide Leads, MachineOk, At, Numbers, Draw;
    OneStroke(m.drawn, from, s);
    var op := if s.LineStroke? then RLINETO else RRCURVETO;
    n := OperatorLeads(font, m, Operands(from, s), op, Draw(op, m.drawn, Reals(Operands(from, s))).drawn);
  }

  lemma VerticesOfMore(strokes: seq<Stroke>, n: nat)
    requires |strokes| == n + 1
    ensures VerticesOf(strokes) == VerticesOf(strokes[..n]) + [VertexOf(strokes[n])]
  {
  }

  lemma DrawsOn(m: Machine, a: Machine, b: Machine, j: nat, k: nat, v: seq<Vertex>, w: seq<Vertex>)
    requires Draws(m, a, j, v) && Draws(a, b, k, w)
    ensures Draws(m, b, j + k, v + w)
  {
    assert m.drawn.path + v + w == m.drawn.path + (v + w);
  }

  lemma DrawsNothing(font: Font, m: Machine)
    requires MachineOk(m) && m.stack == []
    ensures Leads(font, m, m) && Draws(m, m, 0, [])
  {
    LeadsToItself(font, m);
  }

  lemma {:induction false} StrokesLead(font: Font, m: Machine, from: Point, strokes: seq<Stroke>) returns (n: Machine)
    requires MachineOk(m) && m.stack == [] && StrokesShort(from, strokes) && At(m, StrokesCode(from, strokes))
    requires PenIs(m, from, from)
    ensures Leads(font, m, n) && Draws(m, n, |StrokesCode(from, strokes)|, VerticesOf(strokes))
    ensures PenIs(n, from, EndOf(from, strokes))
    decreases |strokes|
  {
    hide Leads, MachineOk, At, StrokeCode, VertexOf, PenIs;
    if strokes == [] {
      n := m;
      DrawsNothing(font, m);
    } else {
      var k := |strokes| - 1;
      ShortPrefix(from, strokes, k);
      var front, point := StrokesCode(from, strokes[..k]), EndOf(from, strokes[..k]);
      var code := StrokeCode(point, strokes[k]);
      AtTwo(m, front, code);
      var before := StrokesLead(font, m, from, strokes[..k]);
      LeadsIsOk(font, m, before);
      SameBytes(Ahead(m, |front|), before, code);
      n := StrokeLeads(font, before, from, point, strokes[k]);
      LeadsOn(font, m, before, n);
      DrawsOn(m, before, n, |front|, |code|, VerticesOf(strokes[..k]), [VertexOf(strokes[k])]);
      VerticesOfMore(strokes, k);
    }
  }

  lemma CloseIsClosing(d: Drawn, first: Point, at: Point)
    requires d.pen == Pen(first.x as real, first.y as real, at.x as real, at.y as real)
    ensures CloseShape(d) == d.(path := d.path + Closing(first, at))
  {
    TruncOfInt(first.x);
    TruncOfInt(first.y);
    if first == at { assert d.path + [] == d.path; }
  }

  lemma OneMove(d: Drawn, first: Point, at: Point, to: Point)
    requires d.pen == Pen(first.x as real, first.y as real, at.x as real, at.y as real)
    ensures var r := Draw(RMOVETO, d, Reals([to.x - at.x, to.y - at.y]));
            && r.ok && r.drawn.path == d.path + (Closing(first, at) + [MoveVertex(to)])
            && r.drawn.pen == Pen(to.x as real, to.y as real, to.x as real, to.y as real)
  {
    hide Trunc, CloseShape;
    CloseIsClosing(d, first, at);
    TruncOfInt(to.x);
    TruncOfInt(to.y);
  }

  lemma MoveLeads(font: Font, m: Machine, first: Point, at: Point, to: Point) returns (n: Machine)
    requires MachineOk(m) && m.stack == [] && AreShort([to.x - at.x, to.y - at.y]) && PenIs(m, first, at)
    requires At(m, Numbers([to.x - at.x, to.y - at.y]) + [RMOVETO])
    ensures Leads(font, m, n) && PenIs(n, to, to)
    ensures Draws(m, n, |Numbers([to.x - at.x, to.y - at.y])| + 1, Closing(first, at) + [MoveVertex(to)])
  {
    hide Leads, MachineOk, At, Numbers, Draw, MoveVertex, Closing;
    OneMove(m.drawn, first, at, to);
    var operands := [to.x - at.x, to.y - at.y];
    n := OperatorLeads(font, m, operands, RMOVETO, Draw(RMOVETO, m.drawn, Reals(operands)).drawn);
  }

  // A contour is drawn from wherever the pen is, once the one before it is closed.
  lemma ContourLeads(font: Font, m: Machine, first: Point, at: Point, c: Contour) returns (n: Machine)
    requires MachineOk(m) && m.stack == [] && ContourShort(at, c) && At(m, ContourCode(at, c)) && PenIs(m, first, at)
    ensures Leads(font, m, n) && PenIs(n, c.start, EndOf(c.start, c.strokes))
    ensures Draws(m, n, |ContourCode(at, c)|,
                  Closing(first, at) + [MoveVertex(c.start)] + VerticesOf(c.strokes))
  {
    hide Leads, MachineOk, At, Numbers, Draws, MoveVertex, Closing, VerticesOf, PenIs, StrokesCode;
    var move := Numbers([c.start.x - at.x, c.start.y - at.y]) + [RMOVETO];
    var code := StrokesCode(c.start, c.strokes);
    AtTwo(m, move, code);
    var moved := MoveLeads(font, m, first, at, c.start);
    LeadsIsOk(font, m, moved);
    DrawsIs(m, moved, |move|, Closing(first, at) + [MoveVertex(c.start)]);
    SameBytes(Ahead(m, |move|), moved, code);
    n := StrokesLead(font, moved, c.start, c.strokes);
    LeadsOn(font, m, moved, n);
    DrawsOn(m, moved, n, |move|, |code|, Closing(first, at) + [MoveVertex(c.start)], VerticesOf(c.strokes));
  }

  lemma DrawsIs(m: Machine, n: Machine, k: nat, more: seq<Vertex>)
    requires Draws(m, n, k, more)
    ensures n.b == Ahead(m, k).b && n.frames == m.frames && n.stack == []
  {
  }

  // The start of the last contour.
  function FirstPoint(contours: seq<Contour>): Point {
    if contours == [] then ORIGIN else contours[|contours| - 1].start
  }

  // The outline but for the line that closes the last contour.
  function OpenOutline(contours: seq<Contour>): seq<Vertex> {
    if contours == [] then []
    else
      var c := contours[|contours| - 1];
      Outline(contours[..|contours| - 1]) + ([MoveVertex(c.start)] + VerticesOf(c.strokes))
  }

  lemma OutlineIsClosed(contours: seq<Contour>)
    ensures OpenOutline(contours) + Closing(FirstPoint(contours), PenBehind(contours)) == Outline(contours)
  {
    hide Outline, VerticesOf, MoveVertex;
    if contours == [] {
      NoOutline();
    } else {
      var n := |contours| - 1;
      LastOutline(contours, n);
    }
  }

  lemma NoOutline()
    ensures Outline([]) == []
  {
  }

  lemma LastOutline(contours: seq<Contour>, n: nat)
    requires |contours| == n + 1
    ensures Outline(contours) == Outline(contours[..n]) + ContourOutline(contours[n])
  {
  }

  lemma OpenOutlineMore(contours: seq<Contour>, n: nat)
    requires |contours| == n + 1
    ensures var front, c := contours[..n], contours[n];
            OpenOutline(contours)
              == OpenOutline(front)
                 + (Closing(FirstPoint(front), PenBehind(front)) + [MoveVertex(c.start)] + VerticesOf(c.strokes))
  {
    hide Outline, VerticesOf, MoveVertex, Closing;
    OutlineIsClosed(contours[..n]);
  }

  lemma {:induction false} ContoursLead(font: Font, m: Machine, contours: seq<Contour>) returns (n: Machine)
    requires MachineOk(m) && m.stack == [] && ContoursShort(contours) && At(m, ContoursCode(contours))
    requires m.drawn == NOTHING
    ensures Leads(font, m, n) && Draws(m, n, |ContoursCode(contours)|, OpenOutline(contours))
    ensures PenIs(n, FirstPoint(contours), PenBehind(contours))
    decreases |contours|
  {
    hide Leads, MachineOk, At, ContourCode, OpenOutline, ContourShort, Draws, Closing;
    if contours == [] {
      n := m;
      DrawsNothing(font, m);
      NoOpenOutline();
    } else {
      var k := |contours| - 1;
      ShortContours(contours, k);
      var front, c := contours[..k], contours[k];
      var code := ContourCode(PenBehind(front), c);
      AtTwo(m, ContoursCode(front), code);
      var before := ContoursLead(font, m, front);
      LeadsIsOk(font, m, before);
      DrawsIs(m, before, |ContoursCode(front)|, OpenOutline(front));
      SameBytes(Ahead(m, |ContoursCode(front)|), before, code);
      n := ContourLeads(font, before, FirstPoint(front), PenBehind(front), c);
      LeadsOn(font, m, before, n);
      OpenOutlineMore(contours, k);
      DrawsOn(m, before, n, |ContoursCode(front)|, |code|, OpenOutline(front),
              Closing(FirstPoint(front), PenBehind(front)) + [MoveVertex(c.start)] + VerticesOf(c.strokes));
    }
  }

  lemma NoOpenOutline()
    ensures OpenOutline([]) == []
  {
  }

  lemma EndRuns(font: Font, m: Machine)
    requires MachineOk(m) && At(m, [ENDCHAR])
    ensures Run(font, m) == Drawing(true, CloseShape(m.drawn))
  {
    hide CloseShape;
    AtByte(m, [ENDCHAR], 0);
  }

  // Behind the code of all contours: endchar closes the last one.
  lemma OutlineEnds(font: Font, m: Machine, n: Machine, contours: seq<Contour>, k: nat)
    requires Leads(font, m, n) && Draws(m, n, k, OpenOutline(contours)) && m.drawn == NOTHING
    requires PenIs(n, FirstPoint(contours), PenBehind(contours)) && At(Ahead(m, k), [ENDCHAR])
    ensures Run(font, m).ok && Run(font, m).drawn.path == Outline(contours)
  {
    hide Leads, Run, Outline, OpenOutline, Closing, CloseShape, At;
    LeadsIsOk(font, m, n);
    SameRun(font, m, n);
    SameBytes(Ahead(m, k), n, [ENDCHAR]);
    EndRuns(font, n);
    CloseIsClosing(n.drawn, FirstPoint(contours), PenBehind(contours));
    OutlineIsClosed(contours);
    assert [] + OpenOutline(contours) == OpenOutline(contours);
  }

  // The outline from any machine that has drawn nothing.
  lemma OutlineRuns(font: Font, m: Machine, contours: seq<Contour>)
    requires MachineOk(m) && m.stack == [] && m.drawn == NOTHING
    requires ContoursShort(contours) && At(m, CharstringOf(contours))
    ensures Run(font, m).ok && Run(font, m).drawn.path == Outline(contours)
  {
    hide Leads, Run, ContoursCode, ContoursShort, Outline, OpenOutline, Closing, At, MachineOk;
    AtTwo(m, ContoursCode(contours), [ENDCHAR]);
    var n := ContoursLead(font, m, contours);
    OutlineEnds(font, m, n, contours, |ContoursCode(contours)|);
  }

  /** The drawing round trip: the charstring of any outline of integer points, whatever its contours
      and the subroutines of its font, is drawn with just the points of the outline, in order. */
  lemma OutlineIsDrawn(font: Font, contours: seq<Contour>)
    requires ContoursShort(contours) && font.charstring == CharstringOf(contours)
    ensures Run(font, Start(font)).ok && Run(font, Start(font)).drawn.path == Outline(contours)
  {
    hide Run, CharstringOf, ContoursShort, Outline, At, MachineOk;
    StartIsOk(font);
    WholeAt(Start(font), CharstringOf(contours));
    OutlineRuns(font, Start(font), contours);
  }

  lemma StartIsOk(font: Font)
    ensures MachineOk(Start(font))
  {
  }

  lemma WholeAt(m: Machine, code: seq<byte>)
    requires m.b == Buf(code, 0)
    ensures At(m, code)
  {
    assert code[0..|code|] == code;
  }

  lemma SameRun(font: Font, m: Machine, n: Machine)
    requires Leads(font, m, n)
    ensures Run(font, m) == Run(font, n)
  {
  }
}

/** Glyphs that stb_truetype's int counters are large enough for: all without subroutines.  And one
    that they are too small for: its subroutine has many lines and hints, and it calls it often
    enough to pass 2^31. */
module CharstringCounts {
  import opened Basics
  import opened CharstringSpec

  // ----- without subroutines ----------------------------------------------------------------------

  // What is drawn, and the operands that can still be; hints come in pairs of operands.
  function DrawnAndPushed(m: Machine): nat {
    |m.drawn.path| + |m.stack|
  }

  function HintedAndPushed(m: Machine): nat {
    2 * m.maskbits + |m.stack|
  }

  lemma {:induction false} LinesDraw(d: Drawn, s: seq<real>, i: nat, end: int)
    requires i <= end <= |s|
    ensures |Lines(d, s, i, end).path| <= |d.path| + end - i
    decreases end - i
  {
    if i + 1 < end { LinesDraw(LineTo(d, s[i], s[i + 1]), s, i + 2, end); }
  }

  lemma {:induction false} AlternatingLinesDraw(d: Drawn, s: seq<real>, i: nat, horizontal: bool)
    requires i <= |s|
    ensures |AlternatingLines(d, s, i, horizontal).path| <= |d.path| + |s| - i
    decreases |s| - i
  {
    if i < |s| {
      AlternatingLinesDraw(if horizontal then LineTo(d, s[i], 0.0) else LineTo(d, 0.0, s[i]), s, i + 1, !horizontal);
    }
  }

  lemma {:induction false} CurvesDraw(d: Drawn, s: seq<real>, i: nat, end: int)
    requires i <= end <= |s|
    ensures |Curves(d, s, i, end).path| <= |d.path| + end - i
    decreases end - i
  {
    if i + 5 < end {
      CurvesDraw(CurveTo(d, s[i], s[i + 1], s[i + 2], s[i + 3], s[i + 4], s[i + 5]), s, i + 6, end);
    }
  }

  lemma {:induction false} AlternatingCurvesDraw(d: Drawn, s: seq<real>, i: nat, horizontal: bool)
    requires i <= |s|
    ensures |AlternatingCurves(d, s, i, horizontal).path| <= |d.path| + |s| - i
    decreases |s| - i
  {
    if i + 3 < |s| { AlternatingCurvesDraw(OneAlternatingCurve(d, s, i, horizontal), s, i + 4, !horizontal); }
  }

  lemma {:induction false} FlatCurvesDraw(d: Drawn, s: seq<real>, i: nat, f: real, horizontal: bool)
    requires i <= |s|
    ensures |FlatCurves(d, s, i, f, horizontal).path| <= |d.path| + |s| - i
    decreases |s| - i
  {
    if i + 3 < |s| { FlatCurvesDraw(OneFlatCurve(d, s, i, f, horizontal), s, i + 4, 0.0, horizontal); }
  }

  // A drawing operator draws at most one vertex for each operand, and one more.
  lemma DrawsAtMost(op: byte, d: Drawn, s: seq<real>)
    requires IsDrawing(op)
    ensures |Draw(op, d, s).drawn.path| <= |d.path| + |s| + 1
  {
    hide Lines, AlternatingLines, Curves, AlternatingCurves, FlatCurves, LinesEnd, CurvesEnd, Trunc;
    LinesDraw(d, s, 0, |s|);
    CurvesDraw(d, s, 0, |s|);
    AlternatingLinesDraw(d, s, 0, op == 0x06);
    AlternatingCurvesDraw(d, s, 0, op == 0x1F);
    if |s| >= 8 {
      CurvesDraw(d, s, 0, |s| - 2);
      LinesDraw(d, s, 0, |s| - 6);
    }
    if |s| >= 4 {
      FlatCurvesDraw(d, s, 1, s[0], op == 0x1B);
      FlatCurvesDraw(d, s, 0, 0.0, op == 0x1B);
    }
  }

  lemma FlexDrawsAtMost(op: byte, d: Drawn, s: seq<real>)
    ensures |DrawFlex(op, d, s).drawn.path| <= |d.path| + |s|
  {
    hide Trunc;
  }

  predicate HasSubroutines(font: Font) {
    font.subrs != [] || font.gsubrs != []
  }

  lemma CallFails(font: Font, m: Machine, b0: byte, b: Buf)
    requires !HasSubroutines(font)
    ensures Call(font, m, b0, b) == Stop(false, m.drawn)
  {
  }

  // Every byte read makes room for one more vertex, and for half a hint.
  lemma StepCounts(font: Font, m: Machine, b0: byte, b: Buf)
    requires MachineOk(m) && m.frames == [] && !HasSubroutines(font)
    ensures match StepOn(font, m, b0, b)
            case Stop(_, drawn) => |drawn.path| <= DrawnAndPushed(m) + 1
            case Next(next) =>
              && next.frames == []
              && DrawnAndPushed(next) <= DrawnAndPushed(m) + 1 && HintedAndPushed(next) <= HintedAndPushed(m) + 1
  {
    hide Draw, DrawFlex, IsDrawing, Call, ReadOperand, Trunc, Skip;
    CallFails(font, m, b0, b);
    if IsDrawing(b0) { DrawsAtMost(b0, m.drawn, m.stack); }
    FlexDrawsAtMost(Get8(b).0, m.drawn, m.stack);
  }

  lemma {:induction false} RunCounts(font: Font, m: Machine)
    requires MachineOk(m) && m.frames == [] && !HasSubroutines(font)
    ensures |Run(font, m).drawn.path| <= DrawnAndPushed(m) + Remaining(m.b)
    ensures HintedAndPushed(m) + Remaining(m.b) <= INT_MAX ==> HintsFit(font, m)
    decreases Remaining(m.b)
  {
    hide StepOn;
    if m.b.cursor < |m.b.data| {
      var (b0, b) := Get8(m.b);
      StepCounts(font, m, b0, b);
      StepShrinks(font, m, b0, b);
      var step := StepOn(font, m, b0, b);
      if step.Next? {
        assert Left(step.machine, 0) < Left(m, 0);
        RunCounts(font, step.machine);
      }
    }
  }

  /** Without subroutines the counters fit any charstring whose size is an int: there is at most one
      vertex for each of its bytes. */
  lemma CountersFitWithoutSubroutines(font: Font)
    requires !HasSubroutines(font)
    ensures |Run(font, Start(font)).drawn.path| <= |font.charstring|
    ensures |font.charstring| <= INT_MAX ==> CountersFit(font)
  {
    RunCounts(font, Start(font));
  }

  // ----- with subroutines -------------------------------------------------------------------------

  // Two zeros, a hint; a zero, a horizontal line.
  const UNIT: seq<byte> := [139, 139, 0x01, 139, 0x06]

  // `units` units, and back.
  function Subroutine(units: nat): (s: seq<byte>)
    ensures |s| == 5 * units + 1
  {
    seq(5 * units + 1, i requires 0 <= i < 5 * units + 1 => if i == 5 * units then 0x0B else UNIT[i % 5])
  }

  // `calls` calls of subroutine 0, and the end.
  function Glyph(calls: nat): (s: seq<byte>)
    ensures |s| == 2 * calls + 1
  {
    seq(2 * calls + 1, i requires 0 <= i < 2 * calls + 1 =>
      if i == 2 * calls then 0x0E else if i % 2 == 0 then 32 else 0x0A)
  }

  function Repeating(units: nat, calls: nat): Font {
    Font(Glyph(calls), [Subroutine(units)], [])
  }

  // The run from m goes through n, and if its hints fit, those from n on do.
  ghost predicate Leads(font: Font, m: Machine, n: Machine) {
    && MachineOk(m) && MachineOk(n)
    && Run(font, m) == Run(font, n)
    && (HintsFit(font, m) ==> HintsFit(font, n))
  }

  lemma LeadsOn(font: Font, a: Machine, b: Machine, c: Machine)
    requires Leads(font, a, b) && Leads(font, b, c)
    ensures Leads(font, a, c)
  {
    hide Run, HintsFit, MachineOk;
  }

  lemma LeadsTo(font: Font, m: Machine, next: Machine)
    requires MachineOk(m) && m.b.cursor < |m.b.data| && StepOn(font, m, Get8(m.b).0, Get8(m.b).1) == Next(next)
    ensures Leads(font, m, next)
  {
    hide StepOn;
    StepShrinks(font, m, Get8(m.b).0, Get8(m.b).1);
  }

  function Ahead(m: Machine, n: nat): Machine {
    m.(b := m.b.(cursor := m.b.cursor + n))
  }

  lemma PushLeads(font: Font, m: Machine, b0: byte)
    requires MachineOk(m) && m.b.cursor < |m.b.data| && m.b.data[m.b.cursor] == b0
    requires 32 <= b0 <= 246 && |m.stack| < STACK_MAX
    ensures Leads(font, m, Ahead(m, 1).(stack := m.stack + [(b0 - 139) as real]))
  {
    LeadsTo(font, m, Ahead(m, 1).(stack := m.stack + [(b0 - 139) as real]));
  }

  lemma HintLeads(font: Font, m: Machine)
    requires MachineOk(m) && m.b.cursor < |m.b.data| && m.b.data[m.b.cursor] == 0x01
    ensures Leads(font, m, Ahead(m, 1).(stack := [], maskbits := m.maskbits + |m.stack| / 2))
    ensures HintsFit(font, m) ==> m.maskbits + |m.stack| / 2 <= INT_MAX
  {
    LeadsTo(font, m, Ahead(m, 1).(stack := [], maskbits := m.maskbits + |m.stack| / 2));
  }

  lemma LineLeads(font: Font, m: Machine) returns (n: Machine)
    requires MachineOk(m) && m.b.cursor < |m.b.data| && m.b.data[m.b.cursor] == 0x06 && m.stack == [0.0]
    ensures Leads(font, m, n) && n == Ahead(m, 1).(stack := [], drawn := n.drawn)
    ensures |n.drawn.path| == |m.drawn.path| + 1
  {
    hide LineTo;
    var d := LineTo(m.drawn, 0.0, 0.0);
    OneLine(m.drawn);
    n := Ahead(m, 1).(stack := [], drawn := d);
    assert Draw(0x06, m.drawn, m.stack) == Drawing(true, d);
    LeadsTo(font, m, n);
  }

  lemma OneLine(d: Drawn)
    ensures AlternatingLines(d, [0.0], 0, true) == LineTo(d, 0.0, 0.0)
    ensures |LineTo(d, 0.0, 0.0).path| == |d.path| + 1
  {
  }

  // n is m with k more hints and vertices.
  ghost predicate Counted(m: Machine, n: Machine, k: nat) {
    n.maskbits == m.maskbits + k && |n.drawn.path| == |m.drawn.path| + k && n.stack == m.stack
  }

  lemma UnitBytes(data: seq<byte>, c: nat)
    requires c + 5 <= |data| && data[c..c + 5] == UNIT
    ensures data[c] == data[c + 1] == data[c + 3] == 139 && data[c + 2] == 0x01 && data[c + 4] == 0x06
  {
    var u := data[c..c + 5];
    assert u[0] == data[c] && u[1] == data[c + 1] && u[2] == data[c + 2] && u[3] == data[c + 3] && u[4] == data[c + 4];
    assert UNIT[0] == UNIT[1] == UNIT[3] == 139 && UNIT[2] == 0x01 && UNIT[4] == 0x06;
  }

  lemma UnitLeads(font: Font, m: Machine) returns (n: Machine)
    requires MachineOk(m) && m.b.cursor + 5 <= |m.b.data| && m.b.data[m.b.cursor..m.b.cursor + 5] == UNIT
              && m.stack == []
    ensures Leads(font, m, n) && Counted(m, n, 1)
    ensures n.b == Ahead(m, 5).b && n.frames == m.frames
    ensures HintsFit(font, m) ==> n.maskbits <= INT_MAX
  {
    hide Leads, MachineOk, HintsFit;
    var c := m.b.cursor;
    UnitBytes(m.b.data, c);
    var hinted := ZerosAndHint(font, m);
    n := ZeroAndLine(font, hinted);
    LeadsOn(font, m, hinted, n);
  }

  lemma LeadsIsOk(font: Font, m: Machine, n: Machine)
    requires Leads(font, m, n)
    ensures MachineOk(n) && (HintsFit(font, m) ==> HintsFit(font, n))
  {
  }

  lemma ZerosAndHint(font: Font, m: Machine) returns (n: Machine)
    requires MachineOk(m) && m.stack == [] && m.b.cursor + 3 <= |m.b.data|
    requires m.b.data[m.b.cursor] == m.b.data[m.b.cursor + 1] == 139 && m.b.data[m.b.cursor + 2] == 0x01
    ensures Leads(font, m, n) && MachineOk(n) && n == Ahead(m, 3).(maskbits := m.maskbits + 1)
    ensures HintsFit(font, m) ==> n.maskbits <= INT_MAX
  {
    hide Leads, MachineOk, HintsFit;
    var one := Ahead(m, 1).(stack := [0.0]);
    var two := Ahead(m, 2).(stack := [0.0, 0.0]);
    n := Ahead(m, 3).(maskbits := m.maskbits + 1);
    PushLeads(font, m, 139);
    assert m.stack + [0.0] == [0.0];
    LeadsIsOk(font, m, one);
    PushLeads(font, one, 139);
    assert [0.0] + [0.0] == [0.0, 0.0];
    LeadsOn(font, m, one, two);
    LeadsIsOk(font, m, two);
    HintLeads(font, two);
    LeadsOn(font, m, two, n);
    LeadsIsOk(font, m, n);
  }

  lemma ZeroAndLine(font: Font, m: Machine) returns (n: Machine)
    requires MachineOk(m) && m.stack == [] && m.b.cursor + 2 <= |m.b.data|
    requires m.b.data[m.b.cursor] == 139 && m.b.data[m.b.cursor + 1] == 0x06
    ensures Leads(font, m, n) && n == Ahead(m, 2).(drawn := n.drawn) && |n.drawn.path| == |m.drawn.path| + 1
  {
    hide Leads, MachineOk;
    var one := Ahead(m, 1).(stack := [0.0]);
    PushLeads(font, m, 139);
    assert m.stack + [0.0] == [0.0];
    LeadsIsOk(font, m, one);
    n := LineLeads(font, one);
    LeadsOn(font, m, one, n);
  }

  lemma UnitByte(units: nat, k: nat, r: nat)
    requires k < units && r < 5
    ensures Subroutine(units)[5 * k + r] == UNIT[r]
  {
    MultipleMod(5, k, r);
  }

  lemma UnitAt(units: nat, k: nat)
    requires k < units
    ensures Subroutine(units)[5 * k..5 * k + 5] == UNIT
  {
    hide Subroutine;
    var s := Subroutine(units);
    forall r: nat | r < 5 ensures s[5 * k..5 * k + 5][r] == UNIT[r] { UnitByte(units, k, r); }
  }

  lemma LeadsToItself(font: Font, m: Machine)
    requires MachineOk(m)
    ensures Leads(font, m, m) && Counted(m, m, 0)
  {
  }

  // The first k units of the subroutine.
  lemma {:induction false} UnitsLead(font: Font, m: Machine, units: nat, k: nat) returns (n: Machine)
    requires MachineOk(m) && m.b == Buf(Subroutine(units), 0) && m.stack == [] && k <= units
    ensures Leads(font, m, n) && Counted(m, n, k) && n.b == Buf(Subroutine(units), 5 * k) && n.frames == m.frames
    ensures HintsFit(font, m) && k > 0 ==> n.maskbits <= INT_MAX
  {
    hide Leads, MachineOk, HintsFit, Subroutine;
    if k == 0 {
      n := m;
      LeadsToItself(font, m);
    } else {
      var before := UnitsLead(font, m, units, k - 1);
      UnitAt(units, k - 1);
      LeadsIsOk(font, m, before);
      n := UnitLeads(font, before);
      LeadsOn(font, m, before, n);
    }
  }

  lemma CallLeads(font: Font, m: Machine, units: nat)
    requires MachineOk(m) && m.b.cursor < |m.b.data| && m.b.data[m.b.cursor] == 0x0A
    requires m.stack == [-107.0] && m.frames == [] && font.subrs == [Subroutine(units)]
    ensures Leads(font, m, m.(b := Buf(Subroutine(units), 0), frames := [Ahead(m, 1).b], stack := []))
  {
    hide Subroutine;
    assert Trunc(-107.0) == -107;
    assert GetSubr(font.subrs, -107) == Subroutine(units);
    assert [] + [Ahead(m, 1).b] == [Ahead(m, 1).b] && m.stack[..0] == [];
    LeadsTo(font, m, m.(b := Buf(Subroutine(units), 0), frames := [Ahead(m, 1).b], stack := []));
  }

  lemma ReturnLeads(font: Font, m: Machine, b: Buf)
    requires MachineOk(m) && m.b.cursor < |m.b.data| && m.b.data[m.b.cursor] == 0x0B && m.frames == [b]
    ensures Leads(font, m, m.(b := b, frames := []))
  {
    assert m.frames[..0] == [];
    LeadsTo(font, m, m.(b := b, frames := []));
  }

  // One call of the subroutine.
  lemma OneCallLeads(font: Font, m: Machine, units: nat) returns (n: Machine)
    requires MachineOk(m) && m.stack == [] && m.frames == [] && font.subrs == [Subroutine(units)] && units > 0
    requires m.b.cursor + 2 <= |m.b.data| && m.b.data[m.b.cursor] == 32 && m.b.data[m.b.cursor + 1] == 0x0A
    ensures Leads(font, m, n) && Counted(m, n, units) && n.b == Ahead(m, 2).b && n.frames == []
    ensures HintsFit(font, m) ==> n.maskbits <= INT_MAX
  {
    hide Leads, MachineOk, HintsFit;
    var one := Ahead(m, 1).(stack := [-107.0]);
    PushLeads(font, m, 32);
    assert m.stack + [-107.0] == [-107.0];
    LeadsIsOk(font, m, one);
    CallLeads(font, one, units);
    var called := one.(b := Buf(Subroutine(units), 0), frames := [Ahead(m, 2).b], stack := []);
    LeadsOn(font, m, one, called);
    LeadsIsOk(font, m, called);
    var done := UnitsLead(font, called, units, units);
    LeadsOn(font, m, called, done);
    LeadsIsOk(font, m, done);
    ReturnLeads(font, done, Ahead(m, 2).b);
    n := done.(b := Ahead(m, 2).b, frames := []);
    LeadsOn(font, m, done, n);
  }

  lemma CallAt(calls: nat, k: nat)
    requires k < calls
    ensures Glyph(calls)[2 * k] == 32 && Glyph(calls)[2 * k + 1] == 0x0A
  {
  }

  // The first k calls of the glyph.
  lemma {:induction false} CallsLead(units: nat, calls: nat, k: nat) returns (n: Machine)
    requires k <= calls && units > 0
    ensures var font := Repeating(units, calls);
            && Leads(font, Start(font), n) && Counted(Start(font), n, k * units)
            && n.b == Buf(Glyph(calls), 2 * k) && n.frames == []
            && (HintsFit(font, Start(font)) && k > 0 ==> n.maskbits <= INT_MAX)
  {
    hide Leads, HintsFit, Subroutine, Glyph;
    var font := Repeating(units, calls);
    if k == 0 {
      n := Start(font);
      LeadsToItself(font, n);
    } else {
      var before := CallsLead(units, calls, k - 1);
      CallAt(calls, k - 1);
      LeadsIsOk(font, Start(font), before);
      n := OneCallLeads(font, before, units);
      LeadsOn(font, Start(font), before, n);
      assert (k - 1) * units + units == k * units;
    }
  }

  /** A glyph of 131073 bytes and its subroutine of 163841 have as many vertices and hints as an int
      cannot count. */
  lemma CountersCanOverflow()
    ensures var font := Repeating(0x8000, 0x10000);
            && |font.charstring| == 131073 && |font.subrs[0]| == 163841
            && |Run(font, Start(font)).drawn.path| > INT_MAX && !HintsFit(font, Start(font))
  {
    hide Leads, HintsFit, Run, Subroutine, Glyph;
    var font := Repeating(0x8000, 0x10000);
    var n := CallsLead(0x8000, 0x10000, 0x10000);
    PathGrows(font, Start(font), n);
  }

  lemma PathGrows(font: Font, m: Machine, n: Machine)
    requires Leads(font, m, n)
    ensures |Run(font, m).drawn.path| >= |n.drawn.path|
  {
  }
}

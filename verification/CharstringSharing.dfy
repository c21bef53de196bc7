/** Contours in subroutines: a charstring that only calls them draws what the charstring with their
    contours in place draws, whatever the size of the index that the subroutines are in. */
module CharstringSharing {
  import opened Basics
  import opened CharstringSpec
  import opened CharstringCounts
  import opened CharstringDrawing

  const CALLSUBR: byte := 0x0A
  const CALLGSUBR: byte := 0x1D
  const RETURN: byte := 0x0B

  // What section 4.7 of "The Type 2 Charstring Format" has the number of a subroutine lowered by.
  function Bias(count: nat): nat {
    if count < 1240 then 107 else if count < 33900 then 1131 else 32768
  }

  // An index has at most 65535 entries.
  predicate IsIndex(index: seq<seq<byte>>) {
    |index| <= 0xFFFF
  }

  // Every subroutine of an index can be called.
  lemma CallIsShort(count: nat, k: nat)
    requires k < count <= 0xFFFF
    ensures IsShort(k - Bias(count))
  {
  }

  function CallCode(count: nat, k: nat, global: bool): seq<byte>
    requires k < count <= 0xFFFF
  {
    Numbers([k - Bias(count)]) + [if global then CALLGSUBR else CALLSUBR]
  }

  function IndexOf(font: Font, global: bool): seq<seq<byte>> {
    if global then font.gsubrs else font.subrs
  }

  lemma SubrIsFound(index: seq<seq<byte>>, k: nat)
    requires k < |index| <= 0xFFFF
    ensures GetSubr(index, k - Bias(|index|)) == index[k]
  {
  }

  lemma CallSteps(font: Font, m: Machine, global: bool, k: nat) returns (n: Machine)
    requires MachineOk(m) && m.b.cursor < |m.b.data| && k < |IndexOf(font, global)| <= 0xFFFF
    requires m.b.data[m.b.cursor] == if global then CALLGSUBR else CALLSUBR
    requires IndexOf(font, global)[k] != []
    requires m.frames == [] && m.stack == [(k - Bias(|IndexOf(font, global)|)) as real]
    ensures Leads(font, m, n)
    ensures n == m.(b := Buf(IndexOf(font, global)[k], 0), frames := [Ahead(m, 1).b], stack := [])
  {
    hide GetSubr, MachineOk, Trunc, Leads;
    TruncOfInt(k - Bias(|IndexOf(font, global)|));
    SubrIsFound(IndexOf(font, global), k);
    assert [] + [Ahead(m, 1).b] == [Ahead(m, 1).b] && m.stack[..0] == [];
    n := m.(b := Buf(IndexOf(font, global)[k], 0), frames := [Ahead(m, 1).b], stack := []);
    LeadsTo(font, m, n);
  }

  // The operand and the call.
  lemma CallLeads(font: Font, m: Machine, global: bool, k: nat) returns (n: Machine)
    requires MachineOk(m) && k < |IndexOf(font, global)| <= 0xFFFF && IndexOf(font, global)[k] != []
    requires m.frames == [] && m.stack == [] && At(m, CallCode(|IndexOf(font, global)|, k, global))
    ensures Leads(font, m, n)
    ensures var rest := Ahead(m, |CallCode(|IndexOf(font, global)|, k, global)|).b;
            n == m.(b := Buf(IndexOf(font, global)[k], 0), frames := [rest])
  {
    hide Numbers, At, MachineOk, Leads, Bias;
    var count := |IndexOf(font, global)|;
    CallIsShort(count, k);
    var operands := [k - Bias(count)];
    var code, op := Numbers(operands), if global then CALLGSUBR else CALLSUBR;
    AtTwo(m, code, [op]);
    NumbersLead(font, m, operands);
    var before := Pushed(m, |code|, operands);
    assert [] + Reals(operands) == [(k - Bias(count)) as real];
    LeadsIsOk(font, m, before);
    SameBytes(Ahead(m, |code|), before, [op]);
    AtByte(before, [op], 0);
    ByteInside(before, op);
    n := CallSteps(font, before, global, k);
    LeadsOn(font, m, before, n);
  }

  // The subroutine at[k] draws the k-th contour from where the pen then is.
  predicate InSubroutines(index: seq<seq<byte>>, contours: seq<Contour>, at: seq<nat>) {
    && IsIndex(index) && ContoursShort(contours) && |at| == |contours|
    && forall k :: 0 <= k < |contours| ==>
         at[k] < |index| && index[at[k]] == ContourCode(PenBehind(contours[..k]), contours[k]) + [RETURN]
  }

  // The calls of these subroutines.
  function CallsCode(count: nat, at: seq<nat>, global: bool): seq<byte>
    requires count <= 0xFFFF && forall k :: 0 <= k < |at| ==> at[k] < count
  {
    if at == [] then [] else CallsCode(count, at[..|at| - 1], global) + CallCode(count, at[|at| - 1], global)
  }

  lemma FewerInSubroutines(index: seq<seq<byte>>, contours: seq<Contour>, at: seq<nat>, n: nat)
    requires InSubroutines(index, contours, at) && n <= |at|
    ensures InSubroutines(index, contours[..n], at[..n])
  {
    hide ContourCode;
    ShortContours(contours, n);
    forall k | 0 <= k < n
      ensures index[at[..n][k]] == ContourCode(PenBehind(contours[..n][..k]), contours[..n][k]) + [RETURN]
    {
      assert contours[..n][..k] == contours[..k];
    }
  }

  // One call draws its contour.
  lemma SharedContourLeads(font: Font, global: bool, m: Machine, first: Point, at: Point, c: Contour, k: nat)
    returns (n: Machine)
    requires MachineOk(m) && m.frames == [] && m.stack == [] && PenIs(m, first, at) && ContourShort(at, c)
    requires k < |IndexOf(font, global)| <= 0xFFFF && IndexOf(font, global)[k] == ContourCode(at, c) + [RETURN]
    requires At(m, CallCode(|IndexOf(font, global)|, k, global))
    ensures Leads(font, m, n) && PenIs(n, c.start, EndOf(c.start, c.strokes))
    ensures Draws(m, n, |CallCode(|IndexOf(font, global)|, k, global)|,
                  Closing(first, at) + [MoveVertex(c.start)] + VerticesOf(c.strokes))
  {
    hide ContourCode, CallCode, At, MachineOk, Leads, ContourShort, Closing, MoveVertex, VerticesOf;
    var code, subr := ContourCode(at, c), IndexOf(font, global)[k];
    var called := CallLeads(font, m, global, k);
    LeadsIsOk(font, m, called);
    WholeAt(called, subr);
    AtTwo(called, code, [RETURN]);
    var drawn := ContourLeads(font, called, first, at, c);
    LeadsOn(font, m, called, drawn);
    LeadsIsOk(font, called, drawn);
    SameBytes(Ahead(called, |code|), drawn, [RETURN]);
    AtByte(drawn, [RETURN], 0);
    ByteInside(drawn, RETURN);
    var rest := called.frames[0];
    ReturnLeads(font, drawn, rest);
    n := drawn.(b := rest, frames := []);
    LeadsOn(font, m, drawn, n);
  }

  lemma {:induction false} SharedContoursLead(font: Font, global: bool, m: Machine, contours: seq<Contour>,
      at: seq<nat>) returns (n: Machine)
    requires MachineOk(m) && m.frames == [] && m.stack == [] && m.drawn == NOTHING
    requires InSubroutines(IndexOf(font, global), contours, at)
    requires At(m, CallsCode(|IndexOf(font, global)|, at, global))
    ensures Leads(font, m, n) && PenIs(n, FirstPoint(contours), PenBehind(contours))
    ensures Draws(m, n, |CallsCode(|IndexOf(font, global)|, at, global)|, OpenOutline(contours))
    decreases |contours|
  {
    hide Leads, MachineOk, At, ContourCode, CallCode, OpenOutline, ContourShort, Closing;
    if contours == [] {
      n := m;
      DrawsNothing(font, m);
      NoOpenOutline();
    } else {
      var k, count := |contours| - 1, |IndexOf(font, global)|;
      FewerInSubroutines(IndexOf(font, global), contours, at, k);
      var front, c := contours[..k], contours[k];
      var calls, code := CallsCode(count, at[..k], global), CallCode(count, at[k], global);
      AtTwo(m, calls, code);
      var before := SharedContoursLead(font, global, m, front, at[..k]);
      LeadsIsOk(font, m, before);
      SameBytes(Ahead(m, |calls|), before, code);
      n := SharedContourLeads(font, global, before, FirstPoint(front), PenBehind(front), c, at[k]);
      LeadsOn(font, m, before, n);
      OpenOutlineMore(contours, k);
      DrawsOn(m, before, n, |calls|, |code|, OpenOutline(front),
              Closing(FirstPoint(front), PenBehind(front)) + [MoveVertex(c.start)] + VerticesOf(c.strokes));
    }
  }

  /** Calls of local or global subroutines with the contours draw the outline, for an index of any
      size and wherever in it the subroutines are. */
  lemma SharedOutlineIsDrawn(font: Font, global: bool, contours: seq<Contour>, at: seq<nat>)
    requires InSubroutines(IndexOf(font, global), contours, at)
    requires font.charstring == CallsCode(|IndexOf(font, global)|, at, global) + [ENDCHAR]
    ensures Run(font, Start(font)).ok && Run(font, Start(font)).drawn.path == Outline(contours)
  {
    hide Leads, Run, CallsCode, ContourCode, Outline, OpenOutline, Closing, CloseShape, At;
    var m := Start(font);
    var calls := CallsCode(|IndexOf(font, global)|, at, global);
    WholeAt(m, font.charstring);
    AtTwo(m, calls, [ENDCHAR]);
    var n := SharedContoursLead(font, global, m, contours, at);
    OutlineEnds(font, m, n, contours, |calls|);
  }
}

/** Hints draw nothing: with stems and their masks in front, or a mask between the operators, the same
    outline is drawn.  A mask has a bit for every stem declared so far. */
module CharstringHints {
  import opened Basics
  import opened CharstringSpec
  import opened CharstringCounts
  import opened CharstringDrawing

  const HINTMASK: byte := 0x13
  const CNTRMASK: byte := 0x14

  predicate IsStem(op: byte) {
    op == 0x01 || op == 0x03 || op == 0x12 || op == 0x17
  }

  predicate IsMask(op: byte) {
    op == HINTMASK || op == CNTRMASK
  }

  function MaskBytes(stems: nat): nat {
    (stems + 7) / 8
  }

  // n is behind k bytes with an empty stack and nothing drawn, and knows of so many stems.
  predicate Hinted(m: Machine, n: Machine, k: nat, stems: nat, inHeader: bool) {
    n == Ahead(m, k).(stack := [], maskbits := stems, inHeader := inHeader)
  }

  lemma StemsLead(font: Font, m: Machine, operands: seq<int>, op: byte) returns (n: Machine)
    requires MachineOk(m) && m.stack == [] && AreShort(operands) && |operands| <= STACK_MAX && IsStem(op)
    requires At(m, Numbers(operands) + [op])
    ensures Leads(font, m, n)
    ensures Hinted(m, n, |Numbers(operands)| + 1, m.maskbits + |operands| / 2, m.inHeader)
  {
    hide Numbers, At, MachineOk, Leads, IsStem;
    var code := Numbers(operands);
    AtTwo(m, code, [op]);
    NumbersLead(font, m, operands);
    var before := Pushed(m, |code|, operands);
    assert [] + Reals(operands) == Reals(operands);
    LeadsIsOk(font, m, before);
    SameBytes(Ahead(m, |code|), before, [op]);
    AtByte(before, [op], 0);
    ByteInside(before, op);
    n := StemSteps(font, before, op);
    LeadsTo(font, before, n);
    LeadsOn(font, m, before, n);
  }

  lemma StemSteps(font: Font, m: Machine, op: byte) returns (n: Machine)
    requires MachineOk(m) && m.b.cursor < |m.b.data| && m.b.data[m.b.cursor] == op && IsStem(op)
    ensures StepOn(font, m, Get8(m.b).0, Get8(m.b).1) == Next(n)
    ensures n == Ahead(m, 1).(stack := [], maskbits := m.maskbits + |m.stack| / 2)
  {
    hide MachineOk;
    n := Ahead(m, 1).(stack := [], maskbits := m.maskbits + |m.stack| / 2);
  }

  // A mask counts the operands in front of it as stems while the header lasts.
  lemma MaskLeads(font: Font, m: Machine, operands: seq<int>, op: byte, mask: seq<byte>) returns (n: Machine)
    requires MachineOk(m) && m.stack == [] && AreShort(operands) && |operands| <= STACK_MAX && IsMask(op)
    requires At(m, Numbers(operands) + [op] + mask)
    requires |mask| == MaskBytes(if m.inHeader then m.maskbits + |operands| / 2 else m.maskbits)
    ensures Leads(font, m, n)
    ensures Hinted(m, n, |Numbers(operands) + [op] + mask|,
                   if m.inHeader then m.maskbits + |operands| / 2 else m.maskbits, false)
  {
    hide Numbers, At, MachineOk, Leads, MaskBytes, IsMask;
    var code := Numbers(operands);
    assert Numbers(operands) + [op] + mask == code + ([op] + mask);
    AtTwo(m, code, [op] + mask);
    NumbersLead(font, m, operands);
    var before := Pushed(m, |code|, operands);
    assert [] + Reals(operands) == Reals(operands);
    LeadsIsOk(font, m, before);
    SameBytes(Ahead(m, |code|), before, [op] + mask);
    AtByte(before, [op] + mask, 0);
    n := MaskSteps(font, before, op, mask);
    LeadsTo(font, before, n);
    LeadsOn(font, m, before, n);
  }

  lemma MaskSteps(font: Font, m: Machine, op: byte, mask: seq<byte>) returns (n: Machine)
    requires MachineOk(m) && At(m, [op] + mask) && m.b.data[m.b.cursor] == op && IsMask(op)
    requires |mask| == MaskBytes(if m.inHeader then m.maskbits + |m.stack| / 2 else m.maskbits)
    ensures m.b.cursor < |m.b.data| && StepOn(font, m, Get8(m.b).0, Get8(m.b).1) == Next(n)
    ensures n == Ahead(m, 1 + |mask|).(stack := [], inHeader := false,
                     maskbits := if m.inHeader then m.maskbits + |m.stack| / 2 else m.maskbits)
  {
    hide MachineOk;
    n := Ahead(m, 1 + |mask|).(stack := [], inHeader := false,
        maskbits := if m.inHeader then m.maskbits + |m.stack| / 2 else m.maskbits);
  }

  // The header: stems with an operator, and a mask with stems that have none.
  function HeaderCode(stems: seq<int>, stem: byte, more: seq<int>, op: byte, mask: seq<byte>): seq<byte>
    requires AreShort(stems) && AreShort(more)
  {
    (Numbers(stems) + [stem]) + (Numbers(more) + [op] + mask)
  }

  predicate IsHeader(stems: seq<int>, stem: byte, more: seq<int>, op: byte, mask: seq<byte>) {
    && AreShort(stems) && AreShort(more) && |stems| <= STACK_MAX && |more| <= STACK_MAX
    && IsStem(stem) && IsMask(op) && |mask| == MaskBytes(|stems| / 2 + |more| / 2)
  }

  lemma HeaderLeads(font: Font, m: Machine, stems: seq<int>, stem: byte, more: seq<int>, op: byte, mask: seq<byte>)
    returns (n: Machine)
    requires MachineOk(m) && m.stack == [] && m.inHeader && m.maskbits == 0
    requires IsHeader(stems, stem, more, op, mask) && At(m, HeaderCode(stems, stem, more, op, mask))
    ensures Leads(font, m, n)
    ensures Hinted(m, n, |HeaderCode(stems, stem, more, op, mask)|, |stems| / 2 + |more| / 2, false)
  {
    hide Leads, At, Numbers, MachineOk, MaskBytes, IsStem, IsMask;
    var first, second := Numbers(stems) + [stem], Numbers(more) + [op] + mask;
    AtTwo(m, first, second);
    var a := StemsLead(font, m, stems, stem);
    LeadsIsOk(font, m, a);
    SameBytes(Ahead(m, |first|), a, second);
    n := MaskLeads(font, a, more, op, mask);
    LeadsOn(font, m, a, n);
  }

  /** Stems, then a mask with the stems in front of it that have no operator of their own, then the
      contours: the outline is drawn as without hints. */
  lemma HintedOutlineIsDrawn(font: Font, stems: seq<int>, stem: byte, more: seq<int>, op: byte, mask: seq<byte>,
      contours: seq<Contour>)
    requires IsHeader(stems, stem, more, op, mask) && ContoursShort(contours)
    requires font.charstring == HeaderCode(stems, stem, more, op, mask) + CharstringOf(contours)
    ensures Run(font, Start(font)).ok && Run(font, Start(font)).drawn.path == Outline(contours)
  {
    hide Leads, Run, ContoursCode, ContoursShort, Outline, OpenOutline, Closing, At, MachineOk, HeaderCode,
         IsStem, IsMask, MaskBytes, AreShort;
    var m := Start(font);
    StartIsOk(font);
    var header := HeaderCode(stems, stem, more, op, mask);
    WholeAt(m, font.charstring);
    AtTwo(m, header, CharstringOf(contours));
    var b := HeaderLeads(font, m, stems, stem, more, op, mask);
    LeadsIsOk(font, m, b);
    SameBytes(Ahead(m, |header|), b, CharstringOf(contours));
    OutlineRuns(font, b, contours);
    SameRun(font, m, b);
  }

  /** A mask behind the header is stepped over, a bit for each stem, and nothing else changes. */
  lemma LaterMaskIsSkipped(font: Font, m: Machine, op: byte, mask: seq<byte>)
    requires MachineOk(m) && m.stack == [] && !m.inHeader && IsMask(op)
    requires At(m, [op] + mask) && |mask| == MaskBytes(m.maskbits)
    ensures MachineOk(Ahead(m, 1 + |mask|)) && Run(font, m) == Run(font, Ahead(m, 1 + |mask|))
  {
    hide Leads, Run, At, MachineOk, MaskBytes, IsMask;
    assert [] + [op] + mask == [op] + mask;
    assert Numbers([]) == [];
    var n := MaskLeads(font, m, [], op, mask);
    LeadsIsOk(font, m, n);
    SameRun(font, m, n);
  }
}

/** Files made of sections in column 0 whose names are short and all different, as ini_putsection
    writes them: whatever section is written next, the file stays such a file. */
module IniPieces {
  import opened CText
  import opened IniLines
  import opened IniQuoting
  import opened IniSection
  import opened IniRewrite
  import opened IniBrowse
  import opened IniRoundTrip
  import opened IniRegular

  // A section: its header, and whole lines that open no other.
  datatype Piece = Piece(name: string, body: string)

  const SHORT: nat := 16

  predicate ShortName(name: string) {
    PlainSection(name) && |name| <= SHORT
  }

  ghost predicate Quiet(body: string, name: string) {
    EndsLine(body) && NextSectionAt(body) == |body| && Regular(body, name)
  }

  function Render(pieces: seq<Piece>): string {
    if pieces == [] then ""
    else SectionLine(pieces[0].name) + (pieces[0].body + Render(pieces[1..]))
  }

  ghost predicate AllQuiet(pieces: seq<Piece>) {
    forall i :: 0 <= i < |pieces| ==> ShortName(pieces[i].name) && Quiet(pieces[i].body, pieces[i].name)
  }

  ghost predicate AllDifferent(pieces: seq<Piece>) {
    forall i, j :: 0 <= i < j < |pieces| ==> !EqualNoCase(pieces[i].name, pieces[j].name)
  }

  // The lines in front of the first section, and the sections.
  ghost predicate Tidy(lead: string, pieces: seq<Piece>) {
    Quiet(lead, "") && AllQuiet(pieces) && AllDifferent(pieces)
  }

  ghost predicate NoneNamed(pieces: seq<Piece>, section: string) {
    forall i :: 0 <= i < |pieces| ==> !EqualNoCase(pieces[i].name, section)
  }

  // ----- lines that open no section ------------------------------------------------------------

  lemma HeaderOpens(line: string, section: string)
    requires IsHeaderOf(line, section)
    ensures OpensSection(line)
  {
  }

  lemma {:induction false} NoOpeningNoHeader(s: string, section: string)
    requires NextSectionAt(s) == |s|
    ensures HeaderAt(s, section) == |s|
    decreases |s|
  {
    hide FirstLine, OtherLines, IsHeaderOf, OpensSection;
    NextSectionAtStep(s);
    HeaderAtStep(s, section);
    if s != "" {
      BehindFirst(s);
      if IsHeaderOf(FirstLine(s), section) { HeaderOpens(FirstLine(s), section); }
      NoOpeningNoHeader(OtherLines(s), section);
    }
  }

  lemma {:induction false} NextSectionAtAppend(a: string, b: string)
    requires Closed(a) && NextSectionAt(a) == |a|
    ensures NextSectionAt(a + b) == |a| + NextSectionAt(b)
    decreases |a|
  {
    hide OpensSection, FirstLine, OtherLines, IsWhole;
    if a == "" {
      assert a + b == b;
    } else {
      WholeLineFirst(a, b);
      NextSectionAtStep(a);
      NextSectionAtStep(a + b);
      BehindFirst(a);
      NextSectionAtAppend(OtherLines(a), b);
    }
  }

  lemma {:induction false} QuietStays(body: string, name: string)
    requires Closed(body) && NextSectionAt(body) == |body| && Regular(body, name)
    ensures LastSection(body, name) == name
    decreases |body|
  {
    hide ParseLine, FirstLine, OtherLines, OpensSection, IsWhole, LineFits;
    NextSectionAtStep(body);
    if body != "" {
      BehindFirst(body);
      HeaderOpensSection(FirstLine(body));
      QuietStays(OtherLines(body), name);
    }
  }

  lemma QuietFacts(body: string, name: string, section: string)
    requires Quiet(body, name) && |name| <= SECTION_MAX
    ensures Closed(body) && HeaderAt(body, section) == |body|
    ensures LastSection(body, name) == name && Current(body, name) == name
    ensures forall e :: e in Browse(body, name) ==> e.section == name
  {
    hide NextSectionAt, Regular, Stays, Browse, Closed, Current;
    NewlineCloses(body);
    NoOpeningNoHeader(body, section);
    QuietStays(body, name);
    RegularCurrent(body, name);
    RegularBody(body, name);
    assert body[..|body|] == body;
    StaysInSection(body, name);
  }

  // ----- one piece in front of others ------------------------------------------------------------

  lemma NamedBy(name: string, section: string)
    requires PlainSection(name)
    ensures IsHeaderOf(SectionLine(name), section) <==> EqualNoCase(name, section)
    ensures SectionLine(name) != "" && SectionLine(name)[0] == '[' && |SectionLine(name)| == |name| + 3
  {
    SectionLineFirst(name, "");
    SectionLineIsHeader(name);
    var line := SectionLine(name);
    hide SectionLine;
    if IsHeaderOf(line, section) { HeaderName(line, section); }
    if EqualNoCase(name, section) { HeaderUpToCase(line, name, section); }
  }

  lemma HeaderUpToCase(line: string, name: string, section: string)
    requires ParseLine(line) == Header(name) && IsHeaderOf(line, name) && EqualNoCase(name, section)
    ensures IsHeaderOf(line, section)
  {
  }

  // What the first piece of a text is to those who look for a section.
  lemma PieceFirst(p: Piece, rest: string, section: string)
    requires ShortName(p.name) && Quiet(p.body, p.name)
    ensures var text := SectionLine(p.name) + (p.body + rest);
            && FirstLine(text) == SectionLine(p.name) && OtherLines(text) == p.body + rest
            && HeaderAt(text, section) == (if EqualNoCase(p.name, section) then 0
                                           else |SectionLine(p.name)| + |p.body| + HeaderAt(rest, section))
            && NextSectionAt(text) == 0
            && OtherLines(text)[NextSectionAt(p.body + rest)..] == rest[NextSectionAt(rest)..]
  {
    hide SectionLine, FirstLine, OtherLines, HeaderAt, NextSectionAt, Regular, EqualNoCase, IsHeaderOf, OpensSection;
    hide PlainSection, Browse;
    var text := SectionLine(p.name) + (p.body + rest);
    SectionLineFirst(p.name, p.body + rest);
    NamedBy(p.name, section);
    NamedBy(p.name, p.name);
    QuietFacts(p.body, p.name, section);
    HeaderAtAppend(p.body, rest, section);
    NextSectionAtAppend(p.body, rest);
    HeaderAtStep(text, section);
    SameIsSame(p.name);
    HeaderOpens(SectionLine(p.name), p.name);
    NextSectionAtStep(text);
    DropBehind(p.body, rest, NextSectionAt(rest));
  }

  lemma SameIsSame(name: string)
    ensures EqualNoCase(name, name)
  {
  }

  lemma DropBehind(a: string, b: string, n: nat)
    requires n <= |b|
    ensures (a + b)[|a| + n..] == b[n..]
  {
  }

  lemma PieceReads(p: Piece, rest: string, current: string)
    requires ShortName(p.name) && Quiet(p.body, p.name) && |current| <= SHORT
    ensures var text := SectionLine(p.name) + (p.body + rest);
            && (Regular(text, current) <==> Regular(rest, p.name))
            && Browse(text, current) == Browse(p.body, p.name) + Browse(rest, p.name)
            && LastSection(text, current) == LastSection(rest, p.name)
            && (Closed(rest) ==> Closed(text))
  {
    hide SectionLine, FirstLine, OtherLines, NextSectionAt, OpensSection, ParseLine, Browse, Current;
    var line := SectionLine(p.name);
    PieceFirst(p, rest, "");
    NamedBy(p.name, p.name);
    SectionLineFirst(p.name, "");
    SectionLineIsHeader(p.name);
    QuietFacts(p.body, p.name, "");
    BrowseSectionLine(p.name, p.body + rest, current);
    BrowseAppend(p.body, rest, p.name);
    RegularAppend(p.body, rest, p.name);
    LastSectionAppend(p.body, rest, p.name);
    HeaderOpensSection(line);
    if Closed(rest) { ClosedAppend(p.body, rest); }
  }

  lemma {:induction false} LastSectionAppend(a: string, b: string, section: string)
    requires Closed(a)
    ensures LastSection(a + b, section) == LastSection(b, LastSection(a, section))
    decreases |a|
  {
    hide ParseLine, FirstLine, OtherLines, SectionAfter, IsWhole;
    if a == "" {
      assert a + b == b;
    } else {
      WholeLineFirst(a, b);
      LastSectionAppend(OtherLines(a), b, SectionAfter(FirstLine(a), section));
    }
  }

  // ----- all the pieces ----------------------------------------------------------------------------

  lemma {:induction false} RenderAppend(a: seq<Piece>, b: seq<Piece>)
    ensures Render(a + b) == Render(a) + Render(b)
    decreases |a|
  {
    hide SectionLine;
    if a == [] {
      assert a + b == b;
    } else {
      assert (a + b)[1..] == a[1..] + b;
      RenderAppend(a[1..], b);
      var head, body := SectionLine(a[0].name), a[0].body;
      assert head + (body + (Render(a[1..]) + Render(b))) == head + (body + Render(a[1..])) + Render(b);
    }
  }

  lemma {:induction false} RenderedReads(pieces: seq<Piece>, current: string)
    requires AllQuiet(pieces) && |current| <= SHORT
    ensures Regular(Render(pieces), current) && Closed(Render(pieces)) && EndsLine(Render(pieces))
    ensures |LastSection(Render(pieces), current)| <= SHORT
    ensures forall e :: e in Browse(Render(pieces), current) ==>
              exists i :: 0 <= i < |pieces| && pieces[i].name == e.section
    decreases |pieces|
  {
    hide SectionLine, Regular, Quiet, Browse, LastSection, Closed, PlainSection;
    if pieces == [] {
      NothingReads(current);
    } else {
      var p, rest := pieces[0], Render(pieces[1..]);
      PieceReads(p, rest, current);
      QuietFactsHere(p);
      RenderedReads(pieces[1..], p.name);
      assert forall i :: 0 <= i < |pieces| - 1 ==> pieces[1..][i] == pieces[i + 1];
      PieceEndsLine(p, rest);
      forall e | e in Browse(Render(pieces), current)
        ensures exists i :: 0 <= i < |pieces| && pieces[i].name == e.section
      {
        if e in Browse(p.body, p.name) { assert pieces[0].name == e.section; }
        else {
          var i :| 0 <= i < |pieces| - 1 && pieces[1..][i].name == e.section;
          assert pieces[i + 1].name == e.section;
        }
      }
    }
  }

  lemma NothingReads(current: string)
    requires |current| <= SHORT
    ensures Regular("", current) && Closed("") && EndsLine("") && LastSection("", current) == current
              && Browse("", current) == []
  {
  }

  lemma QuietFactsHere(p: Piece)
    requires ShortName(p.name) && Quiet(p.body, p.name)
    ensures EndsLine(p.body) && forall e :: e in Browse(p.body, p.name) ==> e.section == p.name
  {
    hide NextSectionAt, Regular, Browse, LastSection, Closed;
    QuietFacts(p.body, p.name, "");
  }

  lemma PieceEndsLine(p: Piece, rest: string)
    requires PlainSection(p.name) && EndsLine(p.body) && EndsLine(rest)
    ensures EndsLine(SectionLine(p.name) + (p.body + rest))
  {
    SectionLineFirst(p.name, "");
    hide SectionLine;
    JoinedEndsLine(p.body, rest);
    JoinedEndsLine(SectionLine(p.name), p.body + rest);
  }

  lemma {:induction false} RenderedHeaders(pieces: seq<Piece>, section: string)
    requires AllQuiet(pieces) && NoneNamed(pieces, section)
    ensures HeaderAt(Render(pieces), section) == |Render(pieces)|
    decreases |pieces|
  {
    hide SectionLine, Quiet, HeaderAt, NextSectionAt, FirstLine, OtherLines, EqualNoCase, PlainSection;
    if pieces == [] {
      HeaderAtStep("", section);
    } else {
      var p, rest := pieces[0], pieces[1..];
      assert ShortName(p.name) && Quiet(p.body, p.name) && !EqualNoCase(p.name, section);
      PieceFirst(p, Render(rest), section);
      RestIsQuiet(pieces, section);
      RenderedHeaders(rest, section);
    }
  }

  lemma RestIsQuiet(pieces: seq<Piece>, section: string)
    requires AllQuiet(pieces) && NoneNamed(pieces, section) && pieces != []
    ensures AllQuiet(pieces[1..]) && NoneNamed(pieces[1..], section)
  {
    hide Quiet, EqualNoCase, ShortName;
  }

  lemma RenderedOpens(pieces: seq<Piece>)
    requires AllQuiet(pieces)
    ensures NextSectionAt(Render(pieces)) == 0
  {
    hide SectionLine, Quiet, PlainSection, NextSectionAt, HeaderAt, EqualNoCase;
    if pieces == [] { NextSectionAtStep(""); } else { PieceFirst(pieces[0], Render(pieces[1..]), ""); }
  }

  lemma RenderOne(p: Piece)
    ensures Render([p]) == SectionLine(p.name) + p.body
  {
    assert [p][1..] == [];
    assert p.body + Render([]) == p.body;
  }

  // ----- finding a section ---------------------------------------------------------------------------

  lemma NotThere(lead: string, pieces: seq<Piece>, section: string)
    requires Tidy(lead, pieces) && NoneNamed(pieces, section)
    ensures var text := lead + Render(pieces); HeaderAt(text, section) == |text| && EndsLine(text)
  {
    hide HeaderAt, NextSectionAt, Regular, Render, NoneNamed, AllQuiet, LastSection, Browse;
    QuietFacts(lead, "", section);
    RenderedHeaders(pieces, section);
    HeaderAtAppend(lead, Render(pieces), section);
    RenderedReads(pieces, "");
    JoinedEndsLine(lead, Render(pieces));
  }

  lemma FrontIsTidy(lead: string, pieces: seq<Piece>, i: nat, section: string)
    requires Tidy(lead, pieces) && i < |pieces| && EqualNoCase(pieces[i].name, section)
    ensures Tidy(lead, pieces[..i]) && NoneNamed(pieces[..i], section)
    ensures AllQuiet(pieces[i + 1..]) && NoneNamed(pieces[i + 1..], section)
    ensures AllDifferent(pieces[..i] + pieces[i + 1..]) && AllQuiet(pieces[..i] + pieces[i + 1..])
  {
    hide Quiet, ShortName;
    forall j | 0 <= j < |pieces| && j != i ensures !EqualNoCase(pieces[j].name, section) {
      assert j < i ==> !EqualNoCase(pieces[j].name, pieces[i].name);
      assert i < j ==> !EqualNoCase(pieces[i].name, pieces[j].name);
    }
    hide EqualNoCase;
    var others := pieces[..i] + pieces[i + 1..];
    assert forall j :: 0 <= j < |others| ==> others[j] == if j < i then pieces[j] else pieces[j + 1];
  }

  lemma RenderFrom(pieces: seq<Piece>, i: nat)
    requires i < |pieces|
    ensures Render(pieces[i..]) == SectionLine(pieces[i].name) + (pieces[i].body + Render(pieces[i + 1..]))
    ensures Render(pieces) == Render(pieces[..i]) + Render(pieces[i..])
  {
    hide SectionLine;
    assert pieces[i..][1..] == pieces[i + 1..] && pieces[i..][0] == pieces[i];
    assert pieces == pieces[..i] + pieces[i..];
    RenderAppend(pieces[..i], pieces[i..]);
  }

  // A piece behind a text without its header.
  lemma PieceBehind(front: string, p: Piece, rest: string, section: string)
    requires ShortName(p.name) && Quiet(p.body, p.name) && EqualNoCase(p.name, section) && NextSectionAt(rest) == 0
    requires Closed(front) && HeaderAt(front, section) == |front|
    ensures var text := front + (SectionLine(p.name) + (p.body + rest));
            && HeaderAt(text, section) == |front| < |text| && text[..|front|] == front && text[|front|] == '['
            && AfterSection(text[|front|..]) == rest
  {
    hide SectionLine, HeaderAt, NextSectionAt, FirstLine, OtherLines, Quiet, EqualNoCase, PlainSection, Closed;
    var tail := SectionLine(p.name) + (p.body + rest);
    PieceFirst(p, rest, section);
    NamedBy(p.name, section);
    HeaderAtAppend(front, tail, section);
    assert rest[0..] == rest;
    assert (front + tail)[|front|..] == tail && (front + tail)[..|front|] == front;
  }

  lemma There(lead: string, pieces: seq<Piece>, i: nat, section: string)
    requires Tidy(lead, pieces) && i < |pieces| && EqualNoCase(pieces[i].name, section)
    ensures var text, front := lead + Render(pieces), lead + Render(pieces[..i]);
            && HeaderAt(text, section) == |front| < |text| && text[..|front|] == front && text[|front|] == '['
            && AfterSection(text[|front|..]) == Render(pieces[i + 1..])
            && EndsLine(front)
  {
    var p, front := pieces[i], lead + Render(pieces[..i]);
    assert ShortName(p.name) && Quiet(p.body, p.name);
    FrontIsTidy(lead, pieces, i, section);
    hide Tidy, SectionLine, HeaderAt, NextSectionAt, Render, Quiet, EqualNoCase, ShortName, AfterSection, AllQuiet,
         NoneNamed;
    RenderFrom(pieces, i);
    NotThere(lead, pieces[..i], section);
    FrontCloses(lead, pieces[..i]);
    RenderedOpens(pieces[i + 1..]);
    PieceBehind(front, p, Render(pieces[i + 1..]), section);
    JoinAll(lead, Render(pieces[..i]), Render(pieces[i..]));
  }

  lemma JoinAll(a: string, b: string, c: string)
    ensures a + (b + c) == (a + b) + c
  {
  }

  lemma FrontCloses(lead: string, pieces: seq<Piece>)
    requires Tidy(lead, pieces)
    ensures Closed(lead + Render(pieces))
  {
    hide HeaderAt, NextSectionAt, Regular, Render, AllQuiet, LastSection, Browse, Closed;
    QuietFacts(lead, "", "");
    RenderedReads(pieces, "");
    ClosedAppend(lead, Render(pieces));
  }

  // ----- a section in such a file can be written ----------------------------------------------------

  // A name of one of the pieces other than the section, or no name.
  ghost predicate Elsewhere(pieces: seq<Piece>, name: string, section: string) {
    name == "" || exists i :: 0 <= i < |pieces| && pieces[i].name == name && !EqualNoCase(name, section)
  }

  lemma TidyIsRegular(lead: string, pieces: seq<Piece>)
    requires Tidy(lead, pieces)
    ensures Regular(lead + Render(pieces), "") && |Current(lead + Render(pieces), "")| <= SHORT
    ensures forall e :: e in Browse(lead + Render(pieces), "") ==>
              e.section == "" || exists i :: 0 <= i < |pieces| && pieces[i].name == e.section
  {
    hide HeaderAt, NextSectionAt, Regular, Render, AllQuiet, LastSection, Browse, Closed, Current;
    QuietFacts(lead, "", "");
    RenderedReads(pieces, "");
    RegularAppend(lead, Render(pieces), "");
    BrowseAppend(lead, Render(pieces), "");
    LastSectionAppend(lead, Render(pieces), "");
    RegularCurrent(lead + Render(pieces), "");
  }

  // What is read behind the section, and what in front of it.
  lemma BehindIsElsewhere(pieces: seq<Piece>, from: nat, section: string)
    requires from <= |pieces| && AllQuiet(pieces[from..]) && NoneNamed(pieces[from..], section) && |section| <= SHORT
    ensures forall e :: e in Browse(Render(pieces[from..]), section) ==> Elsewhere(pieces, e.section, section)
  {
    hide AllQuiet, Render, Browse, EqualNoCase, Regular, Closed, LastSection;
    RenderedReads(pieces[from..], section);
    forall e | e in Browse(Render(pieces[from..]), section) ensures Elsewhere(pieces, e.section, section) {
      var i :| 0 <= i < |pieces| - from && pieces[from..][i].name == e.section;
      assert pieces[from + i].name == e.section;
    }
  }

  lemma AheadIsElsewhere(lead: string, pieces: seq<Piece>, to: nat, section: string)
    requires to <= |pieces| && Tidy(lead, pieces[..to]) && NoneNamed(pieces[..to], section)
    ensures forall e :: e in Browse(lead + Render(pieces[..to]), "") ==> Elsewhere(pieces, e.section, section)
  {
    hide AllQuiet, Render, Browse, EqualNoCase, Regular, Closed, LastSection, Tidy, Current;
    TidyIsRegular(lead, pieces[..to]);
    forall e | e in Browse(lead + Render(pieces[..to]), "") ensures Elsewhere(pieces, e.section, section) {
      if e.section != "" {
        var i :| 0 <= i < to && pieces[..to][i].name == e.section;
        assert pieces[i].name == e.section;
      }
    }
  }

  lemma ShortChunk(pieces: seq<Piece>, current: string)
    requires AllQuiet(pieces) && |current| <= SHORT
    ensures Chunk(Render(pieces), current) == FirstLine(Render(pieces))
  {
    hide AllQuiet, Render, FirstLine, Browse, Regular, LastSection, Closed, Current, ParseLine, Stays;
    RenderedReads(pieces, current);
    if Render(pieces) != "" {
      RegularLine(Render(pieces), current);
      BrowseLine(Render(pieces), current);
    } else {
      NothingFirst();
    }
  }

  lemma NothingFirst()
    ensures FirstLine("") == ""
  {
  }

  lemma OpeningNeverHangs(text: string, section: string, block: string)
    requires var h := HeaderAt(text, section); h < |text| ==> text[h] == '['
    ensures !PutSectionHangs(text, section, block)
  {
  }

  /** In such a file every section with a short name can be written or erased, ini_putsection returns,
      and what ini_browse reports from elsewhere is of other sections. */
  lemma TidyIsEditable(lead: string, pieces: seq<Piece>, section: string, erase: bool, block: string)
    requires Tidy(lead, pieces) && ShortName(section)
    ensures var text := lead + Render(pieces);
            && Replaceable(text, section) && HeaderFits(text, section, erase) && !PutSectionHangs(text, section, block)
            && forall e :: e in Before(text, section) || e in After(text, section) ==>
                Elsewhere(pieces, e.section, section)
  {
    hide HeaderAt, Regular, Render, Current, EqualNoCase, Browse, NeedsNewline, AfterSection, Replaceable;
    TidyIsRegular(lead, pieces);
    RegularIsReplaceable(lead + Render(pieces), section);
    if NoneNamed(pieces, section) {
      hide Tidy, NoneNamed;
      EditableAtEnd(lead, pieces, section, erase);
      OpeningNeverHangs(lead + Render(pieces), section, block);
    } else {
      var i :| 0 <= i < |pieces| && EqualNoCase(pieces[i].name, section);
      There(lead, pieces, i, section);
      hide Tidy, NoneNamed;
      EditableThere(lead, pieces, i, section, erase);
      OpeningNeverHangs(lead + Render(pieces), section, block);
    }
  }

  lemma EditableAtEnd(lead: string, pieces: seq<Piece>, section: string, erase: bool)
    requires Tidy(lead, pieces) && ShortName(section) && NoneNamed(pieces, section)
    ensures var text := lead + Render(pieces);
            && HeaderAt(text, section) == |text| && HeaderFits(text, section, erase)
            && forall e :: e in Before(text, section) || e in After(text, section) ==>
                Elsewhere(pieces, e.section, section)
  {
    hide HeaderAt, Regular, Render, Current, EqualNoCase, Browse, NeedsNewline, AfterSection, Tidy, NoneNamed;
    var text := lead + Render(pieces);
    TidyIsRegular(lead, pieces);
    NotThere(lead, pieces, section);
    FrontEndsLine(text, section);
    NewlineChangesNothing(text, "");
    assert text + "" == text;
    BrowseNothing("", section);
    assert pieces[..|pieces|] == pieces;
    AheadIsElsewhere(lead, pieces, |pieces|, section);
  }

  lemma EditableThere(lead: string, pieces: seq<Piece>, i: nat, section: string, erase: bool)
    requires Tidy(lead, pieces) && ShortName(section) && i < |pieces| && EqualNoCase(pieces[i].name, section)
    ensures var text := lead + Render(pieces);
            && HeaderFits(text, section, erase)
            && forall e :: e in Before(text, section) || e in After(text, section) ==>
                Elsewhere(pieces, e.section, section)
  {
    hide HeaderAt, Regular, Render, Current, EqualNoCase, Browse, NeedsNewline, AfterSection, Tidy, NoneNamed,
         AllQuiet, FirstLine;
    There(lead, pieces, i, section);
    FrontIsTidy(lead, pieces, i, section);
    TidyIsRegular(lead, pieces[..i]);
    ShortChunk(pieces[i + 1..], section);
    ShortChunk(pieces[i + 1..], Current(lead + Render(pieces[..i]), ""));
    AheadIsElsewhere(lead, pieces, i, section);
    BehindIsElsewhere(pieces, i + 1, section);
  }

  // ----- and the file stays one ---------------------------------------------------------------------

  lemma QuietNewline(body: string, name: string)
    requires Quiet(body, name) && |name| <= SECTION_MAX
    ensures Quiet(body + "\n", name)
  {
    hide Regular, NextSectionAt, Browse, LastSection, HeaderAt, Closed;
    QuietFacts(body, name, "");
    NextSectionAtAppend(body, "\n");
    BlankLineFirst("");
    assert "\n" + "" == "\n";
    NextSectionAtStep("\n");
    NextSectionAtStep("");
    NewlineKeepsRegular(body, name);
  }

  lemma QuietBlock(section: string, keys: seq<string>, values: seq<string>)
    requires ReadableSettings(keys, values) && SettingsFit(section, keys, values)
    ensures Quiet(KeyLines(keys, values) + "\n", section)
  {
    hide NextSectionAt, KeyLines, Regular, ReadableSettings, SettingsFit;
    var body := KeyLines(keys, values) + "\n";
    assert body + "" == body;
    SettingsArePlain(keys, values);
    SkipKeyLines(keys, values, "");
    NextSectionAtStep("");
    RegularKeyLines(section, keys, values, "");
    RegularNothing(section);
  }

  lemma SettingsArePlain(keys: seq<string>, values: seq<string>)
    requires ReadableSettings(keys, values)
    ensures PlainSettings(keys, values)
  {
    hide PlainKey, PlainValue, OpensSection, OneLine;
    forall k | k in keys ensures OneLine(k) && !OpensSection(k) { PlainKeyOpensNothing(k); }
  }

  // A newline more at the end belongs to the last piece.
  lemma NewlineStaysTidy(lead: string, pieces: seq<Piece>) returns (lead2: string, pieces2: seq<Piece>)
    requires Tidy(lead, pieces)
    ensures Tidy(lead2, pieces2) && lead2 + Render(pieces2) == lead + Render(pieces) + "\n"
    ensures |pieces2| == |pieces| && forall i :: 0 <= i < |pieces| ==> pieces2[i].name == pieces[i].name
  {
    hide EqualNoCase, SectionLine, PlainSection, Quiet;
    if pieces == [] {
      QuietNewline(lead, "");
      lead2, pieces2 := lead + "\n", [];
      assert Render([]) == "" && lead + "" == lead && lead2 + "" == lead2;
    } else {
      var n := |pieces| - 1;
      var last := pieces[n];
      var more := Piece(last.name, last.body + "\n");
      QuietNewline(last.body, last.name);
      lead2, pieces2 := lead, pieces[..n] + [more];
      assert pieces == pieces[..n] + [last];
      hide Render, ShortName;
      RenderAppend(pieces[..n], [last]);
      RenderAppend(pieces[..n], [more]);
      RenderOne(last);
      RenderOne(more);
      JoinNewline(lead, Render(pieces[..n]), SectionLine(last.name), last.body);
    }
  }

  lemma JoinNewline(a: string, b: string, c: string, d: string)
    ensures a + (b + (c + (d + "\n"))) == a + (b + (c + d)) + "\n"
  {
  }

  // The piece that a block is, or none.
  function BlockPieces(section: string, keys: seq<string>, values: seq<string>): seq<Piece> {
    if keys == [] then [] else [Piece(section, KeyLines(keys, values) + "\n")]
  }

  lemma BlockIsPiece(section: string, keys: seq<string>, values: seq<string>)
    requires ShortName(section) && ReadableSettings(keys, values) && SettingsFit(section, keys, values)
    ensures Render(BlockPieces(section, keys, values)) == Block(section, keys, values)
    ensures AllQuiet(BlockPieces(section, keys, values))
  {
    hide SectionLine, KeyLines, Quiet, PlainSection, SettingsFit, PlainKey, PlainValue, OneLine;
    if keys != [] {
      QuietBlock(section, keys, values);
      RenderOne(Piece(section, KeyLines(keys, values) + "\n"));
      assert SectionLine(section) + (KeyLines(keys, values) + "\n")
          == SectionLine(section) + KeyLines(keys, values) + "\n";
    }
  }

  /** Writing a section with a short name leaves such a file. */
  lemma TidyPut(lead: string, pieces: seq<Piece>, section: string, keys: seq<string>, values: seq<string>)
    returns (lead2: string, pieces2: seq<Piece>)
    requires Tidy(lead, pieces) && ShortName(section)
    requires ReadableSettings(keys, values) && SettingsFit(section, keys, values)
    ensures Tidy(lead2, pieces2)
    ensures lead2 + Render(pieces2) == PutSectionText(lead + Render(pieces), section, Block(section, keys, values))
    ensures forall q :: q in pieces2 ==> q.name == section || exists p :: p in pieces && p.name == q.name
  {
    hide Render, EqualNoCase, Block, ReadableSettings, SettingsFit, Quiet, HeaderAt, AfterSection, NeedsNewline,
         ShortName;
    var text, block := lead + Render(pieces), Block(section, keys, values);
    var mid := BlockPieces(section, keys, values);
    BlockIsPiece(section, keys, values);
    assert section != "" by { NotEmpty(section); }
    if NoneNamed(pieces, section) {
      NotThere(lead, pieces, section);
      lead2, pieces2 := lead, pieces;
      if NeedsNewline(text) { lead2, pieces2 := NewlineStaysTidy(lead, pieces); } else { assert text + "" == text; }
      AppendStaysTidy(lead2, pieces2, mid, section);
      RenderAppend(pieces2, mid);
      JoinAll(lead2, Render(pieces2), block);
      forall q | q in pieces2 ensures exists p :: p in pieces && p.name == q.name {
        var j :| 0 <= j < |pieces2| && pieces2[j] == q;
        assert pieces[j] in pieces && pieces[j].name == q.name;
      }
      pieces2 := pieces2 + mid;
    } else {
      var i :| 0 <= i < |pieces| && EqualNoCase(pieces[i].name, section);
      There(lead, pieces, i, section);
      FrontIsTidy(lead, pieces, i, section);
      lead2, pieces2 := lead, pieces[..i] + mid + pieces[i + 1..];
      InsertStaysTidy(lead, pieces[..i], mid, pieces[i + 1..], section);
      RenderAppend(pieces[..i] + mid, pieces[i + 1..]);
      RenderAppend(pieces[..i], mid);
      JoinFour(lead, Render(pieces[..i]), block, Render(pieces[i + 1..]));
    }
  }

  lemma NotEmpty(section: string)
    requires ShortName(section)
    ensures section != ""
  {
  }

  lemma JoinFour(a: string, b: string, c: string, d: string)
    ensures a + ((b + c) + d) == (a + b) + c + d
  {
  }

  lemma AppendStaysTidy(lead: string, pieces: seq<Piece>, mid: seq<Piece>, section: string)
    requires Tidy(lead, pieces) && NoneNamed(pieces, section) && AllQuiet(mid)
    requires |mid| <= 1 && forall p :: p in mid ==> p.name == section
    ensures Tidy(lead, pieces + mid)
  {
    hide EqualNoCase, Quiet, ShortName;
  }

  lemma InsertStaysTidy(lead: string, a: seq<Piece>, mid: seq<Piece>, b: seq<Piece>, section: string)
    requires Quiet(lead, "") && AllQuiet(a + b) && AllDifferent(a + b) && AllQuiet(mid)
    requires NoneNamed(a, section) && NoneNamed(b, section)
    requires |mid| <= 1 && forall p :: p in mid ==> p.name == section
    ensures Tidy(lead, a + mid + b)
  {
    hide Quiet, ShortName;
    var all := a + mid + b;
    forall i, j | 0 <= i < j < |all| ensures !EqualNoCase(all[i].name, all[j].name) {
      var k := if i < |a| then i else i - |mid|;
      var l := if j < |a| then j else j - |mid|;
      if |mid| == 0 || (i != |a| && j != |a|) {
        assert all[i] == (a + b)[k] && all[j] == (a + b)[l];
      }
    }
    forall i | 0 <= i < |all| ensures ShortName(all[i].name) && Quiet(all[i].body, all[i].name) {
      if i < |a| { assert all[i] == (a + b)[i]; }
      else if i >= |a| + |mid| { assert all[i] == (a + b)[i - |mid|]; }
    }
  }
}

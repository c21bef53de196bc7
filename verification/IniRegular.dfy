/** Files whose lines all fit ini_browse's buffer, beside the name of whatever section they are in:
    there any section can be replaced whose header fits, and the file stays such a file. */
module IniRegular {
  import opened CText
  import opened IniLines
  import opened IniQuoting
  import opened IniSection
  import opened IniRewrite
  import opened IniBrowse
  import opened IniRoundTrip

  // The line, ended by a newline, fits beside the name of the current section.
  predicate LineFits(line: string, section: string) {
    && |section| <= SECTION_MAX
    && |line| + (if IsWhole(line) then 0 else 1) <= LineRoom(section)
  }

  // Every line fits, and every line that opens a section names one.
  ghost predicate Regular(text: string, section: string)
    decreases |text|
  {
    var line := FirstLine(text);
    text == "" ||
    (&& LineFits(line, section)
     && (OpensSection(line) ==> ParseLine(line).Header?)
     && Regular(OtherLines(text), SectionAfter(line, section)))
  }

  // The section that is current at the end of the text.
  ghost function LastSection(text: string, section: string): string
    decreases |text|
  {
    if text == "" then section
    else LastSection(OtherLines(text), SectionAfter(FirstLine(text), section))
  }

  lemma {:induction false} RegularAppend(a: string, b: string, section: string)
    requires Closed(a)
    ensures Regular(a + b, section) <==> Regular(a, section) && Regular(b, LastSection(a, section))
    decreases |a|
  {
    hide ParseLine, LineLen, FirstLine, OtherLines, OpensSection, SectionAfter, LineFits;
    if a == "" {
      assert a + b == b;
    } else {
      WholeLineFirst(a, b);
      RegularAppend(OtherLines(a), b, SectionAfter(FirstLine(a), section));
    }
  }

  lemma RegularLine(text: string, section: string)
    requires text != "" && Regular(text, section)
    ensures |section| <= SECTION_MAX && |FirstLine(text)| <= LineRoom(section)
    ensures |SectionAfter(FirstLine(text), section)| <= SECTION_MAX
    ensures Regular(OtherLines(text), SectionAfter(FirstLine(text), section))
    ensures OtherLines(text) != "" ==> EndsLine(FirstLine(text))
  {
    hide ParseLine, Regular, LineLen;
    RegularUnfolds(text, section);
    BrowseLine(text, section);
    if OtherLines(text) != "" { LineBefore(text, ""); }
  }

  lemma RegularUnfolds(text: string, section: string)
    requires text != "" && Regular(text, section)
    ensures LineFits(FirstLine(text), section) && Regular(OtherLines(text), SectionAfter(FirstLine(text), section))
    ensures OpensSection(FirstLine(text)) ==> ParseLine(FirstLine(text)).Header?
  {
  }

  lemma {:induction false} RegularCurrent(text: string, section: string)
    requires Regular(text, section) && |section| <= SECTION_MAX
    ensures Current(text, section) == LastSection(text, section)
    decreases |text|
  {
    hide ParseLine, FirstLine, OtherLines, Current, LineFits, OpensSection;
    if text == "" {
      CurrentOfNothing(section);
    } else {
      RegularLine(text, section);
      BrowseLine(text, section);
      RegularCurrent(OtherLines(text), SectionAfter(FirstLine(text), section));
    }
  }

  // Whole lines that fit end with a newline.
  lemma {:induction false} RegularEndsLine(text: string, section: string)
    requires Closed(text) && Regular(text, section)
    ensures EndsLine(text)
    decreases |text|
  {
    hide ParseLine, LineLen, OpensSection;
    if text != "" {
      RegularLine(text, section);
      RegularEndsLine(OtherLines(text), SectionAfter(FirstLine(text), section));
      if OtherLines(text) == "" { assert text == FirstLine(text); }
    }
  }

  lemma HeaderOpensSection(line: string)
    ensures ParseLine(line).Header? ==> OpensSection(line)
  {
  }

  // The lines up to the next section.
  lemma {:induction false} RegularBody(s: string, section: string)
    requires Regular(s, section) && |section| <= SECTION_MAX
    ensures var n := NextSectionAt(s);
            Stays(s[..n], section) && Regular(s[n..], section) && (s[n..] != "" ==> EndsLine(s[..n]))
    decreases |s|
  {
    hide ParseLine, FirstLine, OtherLines, OpensSection, Stays, EndsLine, Regular;
    NextSectionAtStep(s);
    StaysNothing(section);
    if s == "" || OpensSection(FirstLine(s)) {
      assert s[0..] == s;
    } else {
      var line, rest := FirstLine(s), OtherLines(s);
      var n := NextSectionAt(rest);
      RegularLine(s, section);
      HeaderOpensSection(line);
      RegularBody(rest, section);
      SplitAtLine(line, rest, n);
      LineThenBody(line, rest[..n], s, section);
      if rest[n..] != "" { JoinedEndsLine(line, rest[..n]); }
    }
  }

  lemma StaysNothing(section: string)
    requires |section| <= SECTION_MAX
    ensures Stays("", section) && EndsLine("")
  {
  }

  lemma JoinedEndsLine(a: string, b: string)
    requires EndsLine(a) && EndsLine(b)
    ensures EndsLine(a + b)
  {
    if b == "" { assert a + b == a; }
  }

  lemma LineThenBody(line: string, body: string, s: string, section: string)
    requires s != "" && line == FirstLine(s) && |section| <= SECTION_MAX && |line| <= LineRoom(section)
    requires OtherLines(s) == "" ==> body == ""
    requires !ParseLine(line).Header? && Stays(body, section)
    ensures Stays(line + body, section)
  {
    hide ParseLine, Stays, LineLen;
    if OtherLines(s) != "" { LineBefore(s, body); } else { assert line + body == s; }
    BrowseLine(line + body, section);
  }

  lemma RegularStart(s: string, section: string)
    requires Regular(s, section) && |section| <= SECTION_MAX && (s == "" || OpensSection(FirstLine(s)))
    ensures StartsWithHeader(s, section)
  {
    hide ParseLine, OpensSection, FirstLine, OtherLines;
    if s != "" {
      RegularUnfolds(s, section);
      RegularLine(s, section);
      BrowseLine(s, section);
    }
  }

  lemma HeaderName(line: string, section: string)
    requires IsHeaderOf(line, section)
    ensures ParseLine(line).Header? && EqualNoCase(ParseLine(line).name, section)
    ensures |ParseLine(line).name| == |section|
  {
  }

  lemma RegularReadsSection(s: string, current: string, section: string)
    requires s != "" && Regular(s, current) && |current| <= SECTION_MAX && IsHeaderOf(FirstLine(s), section)
    ensures ReadsSection(s, current, section) && Regular(AfterSection(s), NameRead(s, current))
  {
    hide ParseLine, FirstLine, OtherLines, OpensSection, Stays, EndsLine, NextSectionAt, Chunk, IsHeaderOf, Current,
         Regular;
    var line, rest := FirstLine(s), OtherLines(s);
    RegularLine(s, current);
    BrowseLine(s, current);
    HeaderName(line, section);
    RegularBody(rest, SectionAfter(line, current));
    BodyIsRead(s, current);
  }

  lemma BodyIsRead(s: string, current: string)
    requires |current| <= SECTION_MAX && Chunk(s, current) == FirstLine(s)
    ensures |Chunk(s, current)| + |AfterSection(s)| <= |s|
    ensures BodyRead(s, current) == OtherLines(s)[..NextSectionAt(OtherLines(s))]
  {
    hide NextSectionAt;
  }

  /** In such a file every section can be replaced. */
  lemma RegularIsReplaceable(text: string, section: string)
    requires Regular(text, "") && |section| <= SECTION_MAX
    ensures Replaceable(text, section)
  {
    hide ParseLine, FirstLine, OtherLines, Closed, ReadsSection, NextSectionAt, HeaderAt, AfterSection, OpensSection;
    hide EndsLine, Current, Regular, LastSection, IsHeaderOf, NameRead;
    var h := HeaderAt(text, section);
    if h < |text| {
      var front, s := text[..h], text[h..];
      assert text == front + s;
      BeforeHeader(text, section);
      RegularAppend(front, s, "");
      RegularEndsLine(front, "");
      RegularCurrent(front, "");
      RegularReadsSection(s, InFront(text, section), section);
      RegularBehind(s, InFront(text, section), section);
    }
  }

  lemma RegularBehind(s: string, current: string, section: string)
    requires |current| <= SECTION_MAX && ReadsSection(s, current, section)
              && Regular(AfterSection(s), NameRead(s, current))
    ensures StartsWithHeader(AfterSection(s), section)
  {
    hide ParseLine, FirstLine, Chunk, NextSectionAt, OpensSection, Regular, Stays;
    var back := AfterSection(s);
    AfterNextSection(OtherLines(s));
    RegularStart(back, NameRead(s, current));
    SameRoom(back, NameRead(s, current), section);
  }

  // ----- a section that comes once ------------------------------------------------------------

  lemma SectionAfterOther(line: string, current: string, section: string)
    requires !IsHeaderOf(line, section) && !EqualNoCase(current, section)
    ensures !EqualNoCase(SectionAfter(line, current), section)
  {
  }

  // Without a header of the section there is no setting of the section.
  lemma {:induction false} NoHeaderNoEntry(s: string, current: string, section: string)
    requires Regular(s, current) && |current| <= SECTION_MAX
    requires HeaderAt(s, section) == |s| && !EqualNoCase(current, section)
    ensures forall e :: e in Browse(s, current) ==> !EqualNoCase(e.section, section)
    decreases |s|
  {
    hide ParseLine, LineLen, FirstLine, OtherLines, OpensSection, Browse, IsHeaderOf, EqualNoCase, Current, Regular;
    HeaderAtStep(s, section);
    if s == "" {
      BrowseNothing(s, current);
    } else {
      SectionAfterOther(FirstLine(s), current, section);
      RegularLine(s, current);
      BrowseLine(s, current);
      BehindFirst(s);
      NoHeaderNoEntry(OtherLines(s), SectionAfter(FirstLine(s), current), section);
    }
  }

  lemma BackHasNoEntry(back: string, section: string)
    requires Regular(back, section) && |section| <= SECTION_MAX && (back == "" || OpensSection(FirstLine(back)))
    requires HeaderAt(back, section) == |back|
    ensures forall e :: e in Browse(back, section) ==> !EqualNoCase(e.section, section)
  {
    hide LineLen, FirstLine, OtherLines, Browse, Current, Regular;
    HeaderAtStep(back, section);
    if back == "" {
      BrowseNothing(back, section);
    } else {
      RegularUnfolds(back, section);
      RegularLine(back, section);
      BrowseLine(back, section);
      BehindFirst(back);
      NoHeaderNoEntry(OtherLines(back), SectionAfter(FirstLine(back), section), section);
    }
  }

  lemma EmptyIsNotSection(section: string)
    requires PlainSection(section)
    ensures !EqualNoCase("", section)
  {
  }

  /** There, a section with one header has all its settings behind that. */
  lemma RegularSectionOnce(text: string, section: string)
    requires Regular(text, "") && PlainSection(section)
    requires HeaderAt(Back(text, section), section) == |Back(text, section)|
    ensures SectionOnce(text, section)
  {
    hide Browse, Regular, Front, Back, HeaderAt, EqualNoCase, LastSection, InFront, OpensSection, FirstLine;
    RegularParts(text, section);
    FrontIsClosed(text, section);
    EmptyIsNotSection(section);
    NoHeaderNoEntry(Front(text, section), "", section);
    BackHasNoEntry(Back(text, section), section);
  }

  // ----- such a file stays one ------------------------------------------------------------------

  lemma {:induction false} NewlineKeepsRegular(text: string, section: string)
    requires Regular(text, section) && |section| <= SECTION_MAX
    ensures Regular(text + "\n", section)
    decreases |text|
  {
    hide ParseLine, LineLen, FirstLine, OtherLines, OpensSection;
    BlankLineFirst("");
    assert "\n" + "" == "\n";
    if text == "" {
      assert text + "\n" == "\n";
    } else if IsWhole(FirstLine(text)) {
      WholeLineFirst(text, "\n");
      RegularLine(text, section);
      NewlineKeepsRegular(OtherLines(text), SectionAfter(FirstLine(text), section));
    } else {
      LastLine(text);
      FirstLineIs(text + "\n", text + "\n");
      assert (text + "\n")[|text + "\n"|..] == "";
      ParseLineNewline(text);
      OpensSectionNewline(text);
    }
  }

  lemma PlainKeyOpensNothing(key: string)
    requires PlainKey(key)
    ensures !OpensSection(key)
  {
    LeadingBlanksIs(key, 0);
  }

  lemma RegularKeyLine(section: string, key: string, value: string, rest: string)
    requires PlainKey(key) && OneLine(key) && PlainValue(key, value) && OneLine(value)
    requires |section| <= SECTION_MAX && |KeyLine(key, value)| <= LineRoom(section)
    ensures Regular(KeyLine(key, value) + rest, section) <==> Regular(rest, section)
  {
    hide ParseLine, OpensSection, PlainKey, PlainValue, OneLine, LineLen;
    KeyLineFirst(key, value, rest);
    KeyLineRoundTrip(key, value);
    PlainKeyOpensNothing(key);
    KeyLineOpensNothing(key, value);
    hide KeyLine;
  }

  lemma {:induction false} RegularKeyLines(section: string, keys: seq<string>, values: seq<string>, rest: string)
    requires ReadableSettings(keys, values) && SettingsFit(section, keys, values)
    ensures Regular(KeyLines(keys, values) + "\n" + rest, section) <==> Regular(rest, section)
    decreases |keys|
  {
    hide KeyLine, FirstLine, OtherLines, OpensSection, LineLen, ParseLine, PlainKey, PlainValue;
    if keys == [] {
      assert KeyLines(keys, values) + "\n" + rest == "\n" + rest;
      BlankLineFirst(rest);
    } else {
      var tail := KeyLines(keys[1..], values[1..]) + "\n" + rest;
      assert KeyLines(keys, values) + "\n" + rest == KeyLine(keys[0], values[0]) + tail;
      RegularKeyLine(section, keys[0], values[0], tail);
      RegularKeyLines(section, keys[1..], values[1..], rest);
    }
  }

  lemma RegularBlock(section: string, keys: seq<string>, values: seq<string>, rest: string, current: string)
    requires PlainSection(section) && keys != []
    requires ReadableSettings(keys, values) && SettingsFit(section, keys, values)
    requires |current| <= SECTION_MAX && |section| + 3 <= LineRoom(current)
    ensures Regular(Block(section, keys, values) + rest, current) <==> Regular(rest, section)
  {
    hide KeyLines, LineLen, ParseLine, SettingsFit, FirstLine, OtherLines, OpensSection, PlainKey, PlainValue, Block;
    var line := SectionLine(section);
    var tail := KeyLines(keys, values) + "\n" + rest;
    SectionLineFirst(section, tail);
    SectionLineIsHeader(section);
    hide SectionLine;
    BlockIs(section, keys, values, rest);
    RegularKeyLines(section, keys, values, rest);
  }

  // A text that starts with a header is regular beside one name if it is beside another.
  lemma RegularFromHeader(s: string, a: string, b: string)
    requires Regular(s, a) && (s == "" || OpensSection(FirstLine(s)))
    requires s != "" ==> LineFits(FirstLine(s), b)
    ensures Regular(s, b)
  {
    hide ParseLine, LineLen, FirstLine, OtherLines, OpensSection, LineFits;
  }

  lemma RegularFirst(s: string, section: string)
    requires Regular(s, section)
    ensures s != "" ==> LineFits(FirstLine(s), section)
  {
  }

  // What is left in front and behind is regular.
  lemma RegularParts(text: string, section: string)
    requires Regular(text, "") && |section| <= SECTION_MAX
    ensures Regular(Front(text, section), "") && LastSection(Front(text, section), "") == InFront(text, section)
    ensures Regular(Back(text, section), section)
    ensures Back(text, section) == "" || OpensSection(FirstLine(Back(text, section)))
  {
    hide ParseLine, FirstLine, OtherLines, Closed, ReadsSection, NextSectionAt, HeaderAt, AfterSection, OpensSection;
    hide Current, Regular, LastSection, IsHeaderOf, NameRead, NeedsNewline, LineFits;
    var h := HeaderAt(text, section);
    if h < |text| {
      var front, s := text[..h], text[h..];
      assert text == front + s;
      BeforeHeader(text, section);
      RegularAppend(front, s, "");
      RegularCurrent(front, "");
      RegularReadsSection(s, InFront(text, section), section);
      RegularBack(s, InFront(text, section), section);
    } else {
      NewlineKeepsRegular(text, "");
      assert text + "" == text;
      RegularCurrent(Front(text, section), "");
      RegularNothing(section);
    }
  }

  lemma RegularNothing(section: string)
    ensures Regular("", section)
  {
  }

  lemma RegularBack(s: string, current: string, section: string)
    requires |current| <= SECTION_MAX && ReadsSection(s, current, section)
              && Regular(AfterSection(s), NameRead(s, current))
    ensures Regular(AfterSection(s), section)
    ensures AfterSection(s) == "" || OpensSection(FirstLine(AfterSection(s)))
  {
    hide ParseLine, FirstLine, Chunk, NextSectionAt, OpensSection, Regular, Stays;
    var back := AfterSection(s);
    AfterNextSection(OtherLines(s));
    RegularFirst(back, NameRead(s, current));
    RegularFromHeader(back, NameRead(s, current), section);
  }

  // The line that comes after the name in front of the section fits beside that.
  ghost predicate RoomFor(text: string, section: string, erase: bool) {
    if erase then Back(text, section) != "" ==> LineFits(FirstLine(Back(text, section)), InFront(text, section))
    else |section| + 3 <= LineRoom(InFront(text, section))
  }

  /** And it stays such a file, if what is read beside the name in front of the section fits there. */
  lemma RegularStays(text: string, section: string, keys: seq<string>, values: seq<string>)
    requires Regular(text, "") && PlainSection(section)
    requires ReadableSettings(keys, values) && SettingsFit(section, keys, values)
    requires RoomFor(text, section, keys == [])
    ensures Regular(PutSectionText(text, section, Block(section, keys, values)), "")
  {
    hide Front, Back, PutSectionText, FirstLine, HeaderAt, ReadableSettings, OpensSection;
    hide SettingsFit, Block, Current, Regular, LineFits, LastSection, Closed;
    var front, back, current := Front(text, section), Back(text, section), InFront(text, section);
    var block := Block(section, keys, values);
    PutSectionParts(text, section, block);
    RegularParts(text, section);
    FrontIsClosed(text, section);
    if keys == [] {
      NoBlock(section, values);
      RegularFromHeader(back, section, current);
      assert block + back == back;
    } else {
      RegularBlock(section, keys, values, back, current);
    }
    RegularAppend(front, block + back, "");
    assert front + block + back == front + (block + back);
  }

  // A block alone in its file.
  lemma RegularAlone(section: string, keys: seq<string>, values: seq<string>)
    requires PlainSection(section) && |section| + 3 <= LineRoom("")
    requires ReadableSettings(keys, values) && SettingsFit(section, keys, values)
    ensures Regular(Block(section, keys, values), "")
  {
    hide Block, Regular, ReadableSettings, SettingsFit;
    RegularNothing(section);
    RegularNothing("");
    assert Block(section, keys, values) + "" == Block(section, keys, values);
    if keys == [] { NoBlock(section, values); } else { RegularBlock(section, keys, values, "", ""); }
  }

  lemma NoBlock(section: string, values: seq<string>)
    ensures Block(section, [], values) == ""
  {
  }
}

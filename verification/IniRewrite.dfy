/** What ini_putsection means to a later reader or writer of the file. */
module IniRewrite {
  import opened CText
  import opened IniLines
  import opened IniQuoting
  import opened IniSection

  predicate OneLine(s: string) {
    '\n' !in s
  }

  // Keys and values that stay on their own lines and open no section.
  predicate PlainSettings(keys: seq<string>, values: seq<string>) {
    && (forall k :: k in keys ==> OneLine(k) && !OpensSection(k))
    && (forall v :: v in values ==> OneLine(v))
  }

  predicate PlainSection(section: string) {
    section != "" && |section| < SECTION_ROOM && OneLine(section)
  }

  // ----- the lines of a block -------------------------------------------------------------

  lemma {:induction false} EscapedWithinOneLine(s: string, room: nat)
    requires OneLine(s)
    ensures OneLine(EscapedWithin(s, room))
    decreases |s|
  {
    if s != "" && room != 0 {
      assert OneLine(s[1..]);
      if s[0] != '"' { EscapedWithinOneLine(s[1..], room - 1); }
      else if room > 1 { EscapedWithinOneLine(s[1..], room - 2); }
    }
  }

  // A key line, whatever follows it, is read as a line of its own.
  lemma KeyLineFirst(key: string, value: string, rest: string)
    requires OneLine(key) && OneLine(value)
    ensures FirstLine(KeyLine(key, value) + rest) == KeyLine(key, value)
    ensures OtherLines(KeyLine(key, value) + rest) == rest
  {
    var room := ValueRoom(key);
    if room >= 3 { EscapedWithinOneLine(value, room - 3); }
    var printed := Copied(value, room, CheckEnquote(value));
    assert OneLine(printed);
    var line := KeyLine(key, value);
    assert forall i :: 0 <= i < |line| - 1 ==> line[i] in RenderedKey(key) || line[i] == '=' || line[i] in printed;
    FirstLineIs(line + rest, line);
  }

  lemma SectionLineFirst(section: string, rest: string)
    requires PlainSection(section)
    ensures SectionLine(section) == "[" + section + "]\n"
    ensures FirstLine(SectionLine(section) + rest) == SectionLine(section)
    ensures OtherLines(SectionLine(section) + rest) == rest
  {
    var line := SectionLine(section);
    assert forall i :: 0 <= i < |line| - 1 ==> line[i] == '[' || line[i] in section || line[i] == ']';
    FirstLineIs(line + rest, line);
  }

  lemma SectionLineIsHeader(section: string)
    requires PlainSection(section)
    ensures IsHeaderOf(SectionLine(section), section) && SectionLine(section)[0] == '['
    ensures ParseLine(SectionLine(section)) == Header(section)
  {
    var line := SectionLine(section);
    assert line == "[" + section + "]\n";
    LeadingBlanksIs(line, 0);
    LastIndexOfIs(line, ']', |section| + 1);
    assert line[1..|section| + 1] == section;
  }

  // A key that opens no section does not do so with a value behind it.
  lemma KeyLineOpensNothing(key: string, value: string)
    requires !OpensSection(key)
    ensures !OpensSection(KeyLine(key, value))
  {
    var k := RenderedKey(key);
    var line := KeyLine(key, value);
    var n := LeadingBlanks(key);
    if n < |k| {
      LeadingBlanksIs(line, n);
    } else {
      LeadingBlanksIs(line, |k|);
    }
  }

  lemma {:induction false} SkipKeyLines(keys: seq<string>, values: seq<string>, rest: string)
    requires PlainSettings(keys, values)
    ensures NextSectionAt(KeyLines(keys, values) + "\n" + rest)
         == |KeyLines(keys, values)| + 1 + NextSectionAt(rest)
    decreases |keys|
  {
    hide KeyLine, FirstLine, OtherLines, OpensSection, LineLen;
    if keys == [] || values == [] {
      assert KeyLines(keys, values) + "\n" + rest == "\n" + rest;
      BlankLineFirst(rest);
    } else {
      var tail := KeyLines(keys[1..], values[1..]) + "\n" + rest;
      assert KeyLines(keys, values) + "\n" + rest == KeyLine(keys[0], values[0]) + tail;
      KeyLineFirst(keys[0], values[0], tail);
      KeyLineOpensNothing(keys[0], values[0]);
      SkipKeyLines(keys[1..], values[1..], rest);
    }
  }

  lemma BlankLineFirst(rest: string)
    ensures FirstLine("\n" + rest) == "\n" && OtherLines("\n" + rest) == rest
    ensures !OpensSection("\n") && ParseLine("\n") == Skipped
  {
    FirstLineIs("\n" + rest, "\n");
    LeadingBlanksIs("\n", 1);
  }

  // ----- writing twice ----------------------------------------------------------------------

  // The text in front of the block: it is closed and has no header of the section.
  ghost function Front(text: string, section: string): string {
    var h := HeaderAt(text, section);
    if h == |text| then text + (if NeedsNewline(text) then "\n" else "") else text[..h]
  }

  ghost function Back(text: string, section: string): string {
    var h := HeaderAt(text, section);
    if h == |text| then "" else AfterSection(text[h..])
  }

  lemma PutSectionParts(text: string, section: string, block: string)
    requires section != ""
    ensures PutSectionText(text, section, block) == Front(text, section) + block + Back(text, section)
  {
  }

  // A newline at the end of a line makes it no more and no less a header.
  lemma HeaderWithNewline(line: string, section: string)
    requires line != "" && OneLine(line)
    ensures IsHeaderOf(line + "\n", section) <==> IsHeaderOf(line, section)
  {
    hide LeadingBlanks, LastIndexOf, EqualNoCase;
    var n := LeadingBlanks(line);
    if n == |line| {
      LeadingBlanksIs(line + "\n", |line| + 1);
    } else {
      LeadingBlanksIs(line + "\n", n);
      var s := SkipLeading(line);
      assert SkipLeading(line + "\n") == s + "\n";
      BracketWithNewline(s);
    }
  }

  lemma BracketWithNewline(s: string)
    ensures LastIndexOf(s + "\n", ']') == LastIndexOf(s, ']')
    ensures LastIndexOf(s, ']') >= 1 ==> (s + "\n")[1..LastIndexOf(s, ']')] == s[1..LastIndexOf(s, ']')]
  {
    LastIndexOfIs(s + "\n", ']', LastIndexOf(s, ']'));
  }

  lemma {:induction false} HeaderAtWithNewline(text: string, section: string)
    requires HeaderAt(text, section) == |text|
    ensures HeaderAt(text + "\n", section) == |text| + 1
    decreases |text|
  {
    hide IsHeaderOf, LineLen;
    if text == "" {
      NewlineIsNoHeader(section);
      BlankLineFirst("");
      assert text + "\n" == "\n" + "";
    } else if IsWhole(FirstLine(text)) {
      WholeLineFirst(text, "\n");
      HeaderAtWithNewline(OtherLines(text), section);
    } else {
      LastLine(text);
      HeaderWithNewline(text, section);
      FirstLineIs(text + "\n", text + "\n");
      assert OtherLines(text + "\n") == "";
    }
  }

  lemma NewlineIsNoHeader(section: string)
    ensures !IsHeaderOf("\n", section)
  {
    LeadingBlanksIs("\n", 1);
  }

  // A first line that is not whole is all there is.
  lemma LastLine(text: string)
    requires text != "" && !IsWhole(FirstLine(text))
    ensures FirstLine(text) == text && OtherLines(text) == "" && |text| < ROOM && OneLine(text)
  {
  }

  lemma FrontIsClosed(text: string, section: string)
    ensures Closed(Front(text, section))
    ensures HeaderAt(Front(text, section), section) == |Front(text, section)|
  {
    if HeaderAt(text, section) < |text| {
      BeforeHeader(text, section);
    } else {
      NewlineCloses(Front(text, section));
      HeaderAtWithNewline(text, section);
      assert text + "" == text;
    }
  }

  lemma BackOpensSection(text: string, section: string)
    ensures NextSectionAt(Back(text, section)) == 0
  {
    var h := HeaderAt(text, section);
    if h < |text| {
      AfterNextSection(OtherLines(text[h..]));
    }
  }

  // Where a written block starts and ends in the new file.
  lemma BlockFound(front: string, back: string, section: string, keys: seq<string>, values: seq<string>)
    requires PlainSection(section) && PlainSettings(keys, values) && keys != [] && values != []
    requires Closed(front) && HeaderAt(front, section) == |front|
    requires NextSectionAt(back) == 0
    ensures var text := front + Block(section, keys, values) + back;
            && HeaderAt(text, section) == |front| < |text|
            && text[..|front|] == front
            && text[|front|] == '['
            && AfterSection(text[|front|..]) == back
  {
    hide HeaderAt, AfterSection, Closed, Block, NextSectionAt;
    var rest := Block(section, keys, values) + back;
    var text := front + Block(section, keys, values) + back;
    assert text == front + rest;
    BlockRead(back, section, keys, values);
    HeaderAtAppend(front, rest, section);
    PrefixIs(text, front, rest);
  }

  lemma BlockRead(back: string, section: string, keys: seq<string>, values: seq<string>)
    requires PlainSection(section) && PlainSettings(keys, values) && keys != [] && values != []
    requires NextSectionAt(back) == 0
    ensures var rest := Block(section, keys, values) + back;
            && HeaderAt(rest, section) == 0
            && rest != "" && rest[0] == '['
            && AfterSection(rest) == back
  {
    hide SectionLine, KeyLines, IsHeaderOf, HeaderAt, NextSectionAt, FirstLine, OtherLines, Block;
    var line, body := SectionLine(section), KeyLines(keys, values) + "\n";
    BlockIs(section, keys, values, back);
    SectionLineIsHeader(section);
    SectionLineFirst(section, body + back);
    HeaderAtStep(line + (body + back), section);
    SkipKeyLines(keys, values, back);
    PrefixIs(body + back, body, back);
  }

  lemma BlockIs(section: string, keys: seq<string>, values: seq<string>, back: string)
    requires keys != [] && values != []
    ensures Block(section, keys, values) + back == SectionLine(section) + ((KeyLines(keys, values) + "\n") + back)
  {
    hide SectionLine, KeyLines;
  }

  /** Writing a section with some settings and then writing it again is the same as writing
      it the second time only, byte for byte. */
  lemma PutSectionTwice(text: string, section: string, keys: seq<string>, values: seq<string>, block: string)
    requires PlainSection(section) && PlainSettings(keys, values) && keys != [] && values != []
    ensures PutSectionText(PutSectionText(text, section, Block(section, keys, values)), section, block)
         == PutSectionText(text, section, block)
    ensures !PutSectionHangs(PutSectionText(text, section, Block(section, keys, values)), section, block)
  {
    hide HeaderAt, NextSectionAt, AfterSection, Block, NeedsNewline, Front, Back, Closed;
    var first := Block(section, keys, values);
    PutSectionParts(text, section, first);
    PutSectionParts(text, section, block);
    FrontIsClosed(text, section);
    BackOpensSection(text, section);
    BlockFound(Front(text, section), Back(text, section), section, keys, values);
  }

  /** A file with an indented header at its very end, and settings to write: ini_putsection
      does not return. */
  lemma PutSectionCanHang(keys: seq<string>, values: seq<string>)
    requires keys != [] && values != []
    ensures PutSectionHangs(" [a]", "a", Block("a", keys, values))
  {
    var line := " [a]";
    FirstLineIs(line, line);
    LeadingBlanksIs(line, 1);
    LastIndexOfIs("[a]", ']', 2);
    assert SkipLeading(line) == "[a]";
    assert "[a]"[1..2] == "a";
    assert IsHeaderOf(line, "a");
    assert line[0..] == line;
  }
}

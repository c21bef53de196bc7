/** Browsing a file after ini_putsection: the section has exactly the settings written, and
    the settings of all other sections are what they were. */
module IniRoundTrip {
  import opened CText
  import opened IniLines
  import opened IniQuoting
  import opened IniSection
  import opened IniRewrite
  import opened IniBrowse

  // ----- reading on from a newline -----------------------------------------------------------

  function SectionAfter(line: string, section: string): string {
    if ParseLine(line).Header? then ParseLine(line).name else section
  }

  // What ini_browse reads at a time.
  function Chunk(text: string, section: string): (line: string)
    requires |section| <= SECTION_MAX
    ensures line <= text && |line| <= LineRoom(section)
    ensures text != "" ==> line != ""
  {
    text[..LineLen(text, LineRoom(section))]
  }

  // The section that ini_browse is in at the end of the text.
  function Current(text: string, section: string): (r: string)
    requires |section| <= SECTION_MAX
    ensures |r| <= SECTION_MAX
    decreases |text|
  {
    if text == "" then section
    else
      var line := Chunk(text, section);
      ParsedHeaderLength(line);
      Current(text[|line|..], SectionAfter(line, section))
  }

  // ini_browse meets no header in the text.
  predicate Stays(text: string, section: string)
    requires |section| <= SECTION_MAX
    decreases |text|
  {
    text == "" ||
    var line := Chunk(text, section);
    !ParseLine(line).Header? && Stays(text[|line|..], section)
  }

  // Nothing, or whole lines.
  predicate EndsLine(s: string) {
    s != "" ==> s[|s| - 1] == '\n'
  }

  function EntryOf(line: string, section: string): seq<Entry> {
    match ParseLine(line)
    case Pair(key, value) => [Entry(section, key, value)]
    case _ => []
  }

  // What ini_browse reads next is the line.
  lemma BrowseChunk(text: string, section: string, line: string)
    requires |section| <= SECTION_MAX && text != "" && line == Chunk(text, section)
    ensures |SectionAfter(line, section)| <= SECTION_MAX
    ensures Browse(text, section) == EntryOf(line, section) + Browse(text[|line|..], SectionAfter(line, section))
    ensures Current(text, section) == Current(text[|line|..], SectionAfter(line, section))
    ensures Stays(text, section) <==> !ParseLine(line).Header? && Stays(text[|line|..], section)
  {
    hide ParseLine;
    ParsedHeaderLength(line);
    BrowseStep(text, section, |line|, line);
  }

  lemma BrowseLine(text: string, section: string)
    requires text != "" && |section| <= SECTION_MAX && |FirstLine(text)| <= LineRoom(section)
    ensures |SectionAfter(FirstLine(text), section)| <= SECTION_MAX
    ensures Browse(text, section)
         == EntryOf(FirstLine(text), section) + Browse(OtherLines(text), SectionAfter(FirstLine(text), section))
    ensures Current(text, section) == Current(OtherLines(text), SectionAfter(FirstLine(text), section))
    ensures Stays(text, section) <==> !ParseLine(FirstLine(text)).Header? && Stays(OtherLines(text), section)
    ensures Chunk(text, section) == FirstLine(text)
  {
    hide ParseLine, Browse, Current, Stays;
    LineLenShrink(text, ROOM, LineRoom(section));
    BrowseChunk(text, section, FirstLine(text));
  }

  lemma AppendAssoc<T>(a: seq<T>, b: seq<T>, c: seq<T>)
    ensures a + (b + c) == (a + b) + c
  {
  }

  // A piece read from whole lines is the same whatever follows them.
  lemma ChunkOfFront(a: string, b: string, section: string)
    requires a != "" && EndsLine(a) && |section| <= SECTION_MAX
    ensures var line := Chunk(a, section);
            && Chunk(a + b, section) == line && (a + b)[|line|..] == a[|line|..] + b && EndsLine(a[|line|..])
  {
    LineLenIs(a + b, LineRoom(section), LineLen(a, LineRoom(section)));
  }

  lemma {:induction false} BrowseAppend(a: string, b: string, section: string)
    requires EndsLine(a) && |section| <= SECTION_MAX
    ensures Browse(a + b, section) == Browse(a, section) + Browse(b, Current(a, section))
    decreases |a|
  {
    hide ParseLine, Chunk, EntryOf, SectionAfter, Browse, EndsLine;
    if a == "" {
      assert a + b == b;
      BrowseNothing(a, section);
      assert [] + Browse(b, section) == Browse(b, section);
    } else {
      ChunkOfFront(a, b, section);
      var line := Chunk(a, section);
      var rest, next := a[|line|..], SectionAfter(line, section);
      BrowseChunk(a, section, line);
      BrowseChunk(a + b, section, line);
      BrowseAppend(rest, b, next);
      AppendAssoc(EntryOf(line, section), Browse(rest, next), Browse(b, Current(rest, next)));
    }
  }

  // Without a header all settings are the current section's.
  lemma {:induction false} StaysInSection(text: string, section: string)
    requires |section| <= SECTION_MAX && Stays(text, section)
    ensures Current(text, section) == section
    ensures forall e :: e in Browse(text, section) ==> e.section == section
    decreases |text|
  {
    hide ParseLine, Chunk, Browse;
    if text == "" {
      BrowseNothing(text, section);
    } else {
      var line := Chunk(text, section);
      BrowseChunk(text, section, line);
      StaysInSection(text[|line|..], section);
    }
  }

  // ----- a newline at the end changes nothing -----------------------------------------------

  lemma {:induction false} CommentAtNewlineAppended(s: string, inString: bool)
    ensures CommentAt(s + "\n", inString) == if CommentAt(s, inString) == |s| then |s| + 1 else CommentAt(s, inString)
    decreases |s|
  {
    var t := s + "\n";
    if s == "" {
      CommentAtNewline(t, inString);
    } else {
      assert t[1..] == s[1..] + "\n";
      assert |s| > 1 ==> t[2..] == s[2..] + "\n";
      if s[0] == '"' {
        if |s| > 1 && s[1] == '"' {
          CommentAtNewlineAppended(s[2..], inString);
        } else {
          CommentAtNewlineAppended(s[1..], !inString);
        }
      } else if s[0] == '\\' && |s| > 1 && s[1] == '"' {
        CommentAtNewlineAppended(s[2..], inString);
      } else {
        CommentAtNewlineAppended(s[1..], inString);
      }
    }
  }

  lemma CleanedNewline(s: string)
    ensures Cleaned(SkipLeading(s + "\n")) == Cleaned(SkipLeading(s))
  {
    hide CommentAt, IsQuoted, StripTrailing;
    var n := LeadingBlanks(s);
    if n == |s| {
      LeadingBlanksIs(s + "\n", |s| + 1);
      assert SkipLeading(s) == SkipLeading(s + "\n") == "";
    } else {
      LeadingBlanksIs(s + "\n", n);
      UncommentedNewline(SkipLeading(s));
      assert SkipLeading(s + "\n") == SkipLeading(s) + "\n";
    }
  }

  lemma UncommentedNewline(s: string)
    ensures Uncommented(s + "\n") == Uncommented(s)
  {
    hide CommentAt;
    CommentAtNewlineAppended(s, false);
    var k := CommentAt(s, false);
    if k == |s| {
      var r := StripTrailing(s);
      assert (s + "\n")[..|s| + 1] == s + "\n" && s[..k] == s;
      StripTrailingIs(s + "\n", r);
    } else {
      assert (s + "\n")[..k] == s[..k];
    }
  }

  lemma ReadValueNewline(s: string)
    ensures ReadValue(s + "\n") == ReadValue(s)
  {
    hide Cleaned, Unescaped, LeadingBlanks;
    CleanedNewline(s);
  }

  lemma SplitAtNewline(s: string)
    ensures SplitAt(s) < |s| ==> SplitAt(s + "\n") == SplitAt(s)
    ensures SplitAt(s) == |s| ==> SplitAt(s + "\n") == |s + "\n"|
  {
    var e, f := IndexOf(s, '='), IndexOf(s, ':');
    IndexOfIs(s + "\n", '=', if e < |s| then e else |s| + 1);
    IndexOfIs(s + "\n", ':', if f < |s| then f else |s| + 1);
  }

  lemma SplitNewline(s: string)
    requires SplitAt(s) < |s|
    ensures SplitAt(s + "\n") == SplitAt(s) && (s + "\n")[..SplitAt(s)] == s[..SplitAt(s)]
    ensures ReadValue((s + "\n")[SplitAt(s) + 1..]) == ReadValue(s[SplitAt(s) + 1..])
  {
    hide ReadValue;
    var e := SplitAt(s);
    SplitAtNewline(s);
    ReadValueNewline(s[e + 1..]);
    assert (s + "\n")[e + 1..] == s[e + 1..] + "\n";
  }

  lemma ParseLineNewline(line: string)
    ensures ParseLine(line + "\n") == ParseLine(line)
  {
    hide ReadValue, SplitAt, StripTrailing, LastIndexOf;
    var n := LeadingBlanks(line);
    if n == |line| {
      LeadingBlanksIs(line + "\n", |line| + 1);
    } else {
      LeadingBlanksIs(line + "\n", n);
      var s := SkipLeading(line);
      assert SkipLeading(line + "\n") == s + "\n";
      BracketWithNewline(s);
      SplitAtNewline(s);
      if SplitAt(s) < |s| { SplitNewline(s); }
    }
  }

  lemma OpensSectionNewline(line: string)
    ensures OpensSection(line + "\n") == OpensSection(line)
  {
    var n := LeadingBlanks(line);
    LeadingBlanksIs(line + "\n", if n == |line| then n + 1 else n);
  }

  // A piece read from a text with a newline behind it: the same, or the newline is read with it.
  lemma ChunkWithNewline(text: string, room: nat)
    requires text != "" && room >= 1
    ensures var n := LineLen(text, room);
            if n < |text| || n == room || text[n - 1] == '\n' then
              && LineLen(text + "\n", room) == n && (text + "\n")[..n] == text[..n]
              && (text + "\n")[n..] == text[n..] + "\n"
            else n == |text| && LineLen(text + "\n", room) == n + 1
  {
    var n := LineLen(text, room);
    LineLenIs(text + "\n", room, if n < |text| || n == room || text[n - 1] == '\n' then n else n + 1);
  }

  lemma BrowseNewlineAlone(section: string)
    requires |section| <= SECTION_MAX
    ensures Browse("\n", section) == [] && Current("\n", section) == section
  {
    BlankLineFirst("");
    assert "\n" + "" == "\n";
    hide ParseLine, Browse;
    BrowseLine("\n", section);
    BrowseNothing("", section);
  }

  lemma {:induction false} NewlineChangesNothing(text: string, section: string)
    requires |section| <= SECTION_MAX
    ensures Browse(text + "\n", section) == Browse(text, section)
    ensures Current(text + "\n", section) == Current(text, section)
    decreases |text|
  {
    hide ParseLine, LineLen, EntryOf, Browse, Current;
    if text == "" {
      assert text + "\n" == "\n";
      BrowseNewlineAlone(section);
      BrowseNothing(text, section);
      CurrentOfNothing(section);
    } else {
      var n := LineLen(text, LineRoom(section));
      ChunkWithNewline(text, LineRoom(section));
      BrowseChunk(text, section, text[..n]);
      if n < |text| || n == LineRoom(section) || text[n - 1] == '\n' {
        BrowseChunk(text + "\n", section, text[..n]);
        NewlineChangesNothing(text[n..], SectionAfter(text[..n], section));
      } else {
        LastChunk(text, section);
      }
    }
  }

  lemma CurrentOfNothing(section: string)
    requires |section| <= SECTION_MAX
    ensures Current("", section) == section
  {
  }

  // The last piece of a text, with and without a newline.
  lemma LastChunk(text: string, section: string)
    requires |section| <= SECTION_MAX && text != ""
    requires LineLen(text, LineRoom(section)) == |text| && LineLen(text + "\n", LineRoom(section)) == |text| + 1
    ensures Browse(text + "\n", section) == Browse(text, section)
    ensures Current(text + "\n", section) == Current(text, section)
  {
    hide ParseLine, LineLen, Browse, Current;
    var ended := text + "\n";
    assert text[..|text|] == text && ended[..|ended|] == ended;
    assert text[|text|..] == ended[|ended|..] == "";
    ParseLineNewline(text);
    BrowseChunk(text, section, text);
    BrowseChunk(ended, section, ended);
  }

  // ----- the block ----------------------------------------------------------------------------

  // Settings that can be read back one by one.
  predicate ReadableSettings(keys: seq<string>, values: seq<string>) {
    && |keys| == |values|
    && forall i :: 0 <= i < |keys| ==>
         && PlainKey(keys[i]) && OneLine(keys[i])
         && PlainValue(keys[i], values[i]) && OneLine(values[i])
  }

  predicate SettingsFit(section: string, keys: seq<string>, values: seq<string>)
    requires |keys| == |values|
  {
    && |section| <= SECTION_MAX
    && forall i :: 0 <= i < |keys| ==> |KeyLine(keys[i], values[i])| <= LineRoom(section)
  }

  function Settings(section: string, keys: seq<string>, values: seq<string>): seq<Entry>
    requires |keys| == |values|
  {
    if keys == [] then [] else [Entry(section, keys[0], values[0])] + Settings(section, keys[1..], values[1..])
  }

  // One key line is read as its setting.
  lemma BrowseKeyLine(section: string, key: string, value: string, rest: string)
    requires PlainKey(key) && OneLine(key) && PlainValue(key, value) && OneLine(value)
    requires |section| <= SECTION_MAX && |KeyLine(key, value)| <= LineRoom(section)
    ensures Browse(KeyLine(key, value) + rest, section) == [Entry(section, key, value)] + Browse(rest, section)
  {
    hide ParseLine, OpensSection, PlainKey, PlainValue, OneLine, Browse, LineLen, Current;
    KeyLineFirst(key, value, rest);
    KeyLineRoundTrip(key, value);
    hide KeyLine;
    BrowseLine(KeyLine(key, value) + rest, section);
  }

  lemma {:induction false} BrowseKeyLines(section: string, keys: seq<string>, values: seq<string>, rest: string)
    requires ReadableSettings(keys, values) && SettingsFit(section, keys, values)
    ensures Browse(KeyLines(keys, values) + "\n" + rest, section)
         == Settings(section, keys, values) + Browse(rest, section)
    decreases |keys|
  {
    hide KeyLine, FirstLine, OtherLines, OpensSection, LineLen, ParseLine, Browse, PlainKey, PlainValue, Current;
    if keys == [] {
      assert KeyLines(keys, values) + "\n" + rest == "\n" + rest;
      BlankLineFirst(rest);
      BrowseLine("\n" + rest, section);
      assert [] + Browse(rest, section) == Browse(rest, section);
    } else {
      var tail := KeyLines(keys[1..], values[1..]) + "\n" + rest;
      assert KeyLines(keys, values) + "\n" + rest == KeyLine(keys[0], values[0]) + tail;
      BrowseKeyLine(section, keys[0], values[0], tail);
      BrowseKeyLines(section, keys[1..], values[1..], rest);
    }
  }

  // The header of a block, with or without its newline, is read as a header.
  lemma BrowseSectionLine(section: string, rest: string, current: string)
    requires PlainSection(section) && |current| <= SECTION_MAX && |section| + 2 <= LineRoom(current)
    requires |section| <= SECTION_MAX
    ensures Browse(SectionLine(section) + rest, current) == Browse(rest, section)
  {
    hide ParseLine, Browse, Current, Stays;
    var line := SectionLine(section);
    var text := line + rest;
    SectionLineFirst(section, rest);
    SectionLineIsHeader(section);
    if |line| <= LineRoom(current) {
      hide SectionLine, FirstLine, OtherLines;
      BrowseLine(text, current);
      assert [] + Browse(rest, section) == Browse(rest, section);
    } else {
      var header := "[" + section + "]";
      assert text == header + ("\n" + rest);
      LineLenIs(text, LineRoom(current), |header|);
      ParseLineNewline(header);
      assert header + "\n" == line;
      BrowseChunk(text, current, header);
      BlankLineFirst(rest);
      BrowseLine("\n" + rest, section);
      assert text[|header|..] == "\n" + rest;
      assert [] + ([] + Browse(rest, section)) == Browse(rest, section);
    }
  }

  lemma BrowseBlock(section: string, keys: seq<string>, values: seq<string>, rest: string, current: string)
    requires PlainSection(section) && keys != []
    requires ReadableSettings(keys, values) && SettingsFit(section, keys, values)
    requires |current| <= SECTION_MAX && |section| + 2 <= LineRoom(current)
    ensures Browse(Block(section, keys, values) + rest, current)
         == Settings(section, keys, values) + Browse(rest, section)
  {
    hide KeyLines, Browse, Settings, SectionLine, PlainKey, PlainValue, OneLine, Block, LineRoom;
    var tail := KeyLines(keys, values) + "\n" + rest;
    BlockIs(section, keys, values, rest);
    BrowseKeyLines(section, keys, values, rest);
    BrowseSectionLine(section, tail, current);
  }

  // ----- where a section can be replaced --------------------------------------------------------

  // What ini_browse reads first is a header; or there is nothing.
  predicate StartsWithHeader(s: string, section: string)
    requires |section| <= SECTION_MAX
  {
    s == "" || ParseLine(Chunk(s, section)).Header?
  }

  // A text that begins with a header does not depend on the section before it.
  lemma BrowseFromHeader(s: string, a: string, b: string)
    requires |a| <= SECTION_MAX && |b| <= SECTION_MAX
    requires StartsWithHeader(s, a) && Chunk(s, a) == Chunk(s, b)
    ensures Browse(s, a) == Browse(s, b)
  {
    hide ParseLine, Chunk, Browse, Current, Stays;
    if s == "" {
      BrowseNothing(s, a);
      BrowseNothing(s, b);
    } else {
      BrowseChunk(s, a, Chunk(s, a));
      BrowseChunk(s, b, Chunk(s, b));
    }
  }

  // The name in the header that ini_browse reads first.
  function NameRead(s: string, current: string): string
    requires |current| <= SECTION_MAX
  {
    SectionAfter(Chunk(s, current), "")
  }

  // What ini_browse reads between that header and the next section.
  function BodyRead(s: string, current: string): string
    requires |current| <= SECTION_MAX && |Chunk(s, current)| + |AfterSection(s)| <= |s|
  {
    s[|Chunk(s, current)|..|s| - |AfterSection(s)|]
  }

  // ini_browse takes the old section for what ini_putsection takes it: it reads the header, and up
  // to the next section no other.
  ghost predicate ReadsSection(s: string, current: string, section: string)
    requires |current| <= SECTION_MAX
  {
    && ParseLine(Chunk(s, current)).Header? && |Chunk(s, current)| + |AfterSection(s)| <= |s|
    && EqualNoCase(NameRead(s, current), section) && |section| <= SECTION_MAX
    && Stays(BodyRead(s, current), NameRead(s, current))
    && (AfterSection(s) != "" ==> EndsLine(BodyRead(s, current)))
  }

  // The name that is current where the section is replaced.
  ghost function InFront(text: string, section: string): (r: string)
    ensures |r| <= SECTION_MAX
  {
    Current(Front(text, section), "")
  }

  /** Where a section can be replaced so that ini_browse notices nothing else: the old section
      starts on a line of its own and reads as one, and a header reads as one behind it. */
  ghost predicate Replaceable(text: string, section: string)
    requires |section| <= SECTION_MAX
  {
    var h := HeaderAt(text, section);
    && (h < |text| ==> EndsLine(text[..h]) && ReadsSection(text[h..], InFront(text, section), section))
    && StartsWithHeader(Back(text, section), section)
  }

  // What changes in front of a header is read beside the name that was in front of the section:
  // the new section's header, or the next one when the section is erased.
  ghost predicate HeaderFits(text: string, section: string, erase: bool)
    requires |section| <= SECTION_MAX
  {
    if erase then Chunk(Back(text, section), InFront(text, section)) == Chunk(Back(text, section), section)
    else |section| + 2 <= LineRoom(InFront(text, section))
  }

  // ----- browsing the new file ---------------------------------------------------------------------

  ghost function Before(text: string, section: string): seq<Entry> {
    Browse(Front(text, section), "")
  }

  ghost function Replaced(text: string, section: string): seq<Entry>
    requires |section| <= SECTION_MAX && Replaceable(text, section)
  {
    var h := HeaderAt(text, section);
    if h == |text| then []
    else Browse(BodyRead(text[h..], InFront(text, section)), NameRead(text[h..], InFront(text, section)))
  }

  ghost function After(text: string, section: string): seq<Entry>
    requires |section| <= SECTION_MAX
  {
    Browse(Back(text, section), section)
  }

  lemma FrontEndsLine(text: string, section: string)
    requires HeaderAt(text, section) == |text|
    ensures EndsLine(Front(text, section))
    ensures Browse(Front(text, section), "") == Browse(text, "")
  {
    hide Browse, HeaderAt, LastGroup;
    NewlineChangesNothing(text, "");
    assert text + "" == text;
  }

  // The old file, taken apart.
  lemma BrowseOld(text: string, section: string)
    requires PlainSection(section) && Replaceable(text, section)
    ensures Browse(text, "") == Before(text, section) + Replaced(text, section) + After(text, section)
    ensures forall e :: e in Replaced(text, section) ==> EqualNoCase(e.section, section)
    ensures EndsLine(Front(text, section))
  {
    hide ParseLine, AfterSection, OpensSection, Browse, HeaderAt, NeedsNewline, ReadsSection;
    hide EqualNoCase, Stays, EndsLine, BodyRead, NameRead, StartsWithHeader, Current;
    var h := HeaderAt(text, section);
    if h == |text| {
      FrontEndsLine(text, section);
      BrowseNothing("", section);
      assert Before(text, section) + [] + [] == Before(text, section);
    } else {
      var front, s := text[..h], text[h..];
      assert text == front + s;
      BrowseAppend(front, s, "");
      BrowseOldSection(s, Current(front, ""), section);
      AppendAssoc(Before(text, section), Replaced(text, section), After(text, section));
    }
  }

  lemma BrowseOldSection(s: string, current: string, section: string)
    requires s != "" && |current| <= SECTION_MAX && ReadsSection(s, current, section)
    requires StartsWithHeader(AfterSection(s), section)
    ensures var body, name := BodyRead(s, current), NameRead(s, current);
            && Browse(s, current) == Browse(body, name) + Browse(AfterSection(s), section)
            && forall e :: e in Browse(body, name) ==> EqualNoCase(e.section, section)
  {
    hide ParseLine, AfterSection, Chunk, Browse, Stays, Current;
    var line, body, back, name := Chunk(s, current), BodyRead(s, current), AfterSection(s), NameRead(s, current);
    BrowseChunk(s, current, line);
    AfterSectionIsEnd(s);
    assert s[|line|..] == body + back;
    assert [] + Browse(body + back, name) == Browse(body + back, name);
    StaysInSection(body, name);
    if back == "" {
      assert body + back == body;
      BrowseNothing(back, section);
    } else {
      BrowseAppend(body, back, name);
      SameRoom(back, name, section);
      BrowseFromHeader(back, section, name);
    }
  }

  lemma AfterSectionIsEnd(s: string)
    ensures var back := AfterSection(s); |back| <= |s| && back == s[|s| - |back|..]
  {
  }

  lemma SameRoom(s: string, a: string, b: string)
    requires |a| == |b| <= SECTION_MAX
    ensures Chunk(s, a) == Chunk(s, b)
  {
  }

  // The new file, put together.
  lemma BrowseSpliced(text: string, section: string, block: string, entries: seq<Entry>)
    requires PlainSection(section) && Replaceable(text, section)
    requires Browse(block + Back(text, section), InFront(text, section)) == entries + After(text, section)
    ensures Browse(PutSectionText(text, section, block), "") == Before(text, section) + entries + After(text, section)
  {
    hide Browse, Front, Back, PutSectionText, Replaceable, Current, EndsLine;
    var front, back := Front(text, section), Back(text, section);
    PutSectionParts(text, section, block);
    BrowseOld(text, section);
    BrowseAppend(front, block + back, "");
    assert front + block + back == front + (block + back);
    AppendAssoc(Before(text, section), entries, After(text, section));
  }

  lemma BrowseNew(text: string, section: string, keys: seq<string>, values: seq<string>)
    requires PlainSection(section) && Replaceable(text, section) && HeaderFits(text, section, keys == [])
    requires ReadableSettings(keys, values) && SettingsFit(section, keys, values)
    ensures Browse(PutSectionText(text, section, Block(section, keys, values)), "")
         == Before(text, section) + Settings(section, keys, values) + After(text, section)
  {
    hide Browse, Front, Back, PutSectionText, ReadsSection, Chunk, SettingsFit, Block, StartsWithHeader, InFront;
    BrowseTail(Back(text, section), InFront(text, section), section, keys, values);
    BrowseSpliced(text, section, Block(section, keys, values), Settings(section, keys, values));
  }

  lemma BrowseTail(back: string, current: string, section: string, keys: seq<string>, values: seq<string>)
    requires PlainSection(section) && |current| <= SECTION_MAX && StartsWithHeader(back, section)
    requires ReadableSettings(keys, values) && SettingsFit(section, keys, values)
    requires if keys == [] then Chunk(back, current) == Chunk(back, section) else |section| + 2 <= LineRoom(current)
    ensures Browse(Block(section, keys, values) + back, current)
         == Settings(section, keys, values) + Browse(back, section)
  {
    hide Browse, Chunk, StartsWithHeader;
    if keys == [] {
      assert Block(section, keys, values) + back == back;
      BrowseFromHeader(back, section, current);
      assert [] + Browse(back, section) == Browse(back, section);
    } else {
      BrowseBlock(section, keys, values, back, current);
    }
  }

  // ----- the settings of the section and of all others ---------------------------------------

  ghost function InSection(entries: seq<Entry>, section: string): seq<Entry> {
    if entries == [] then []
    else (if EqualNoCase(entries[0].section, section) then [entries[0]] else []) + InSection(entries[1..], section)
  }

  ghost function OutsideSection(entries: seq<Entry>, section: string): seq<Entry> {
    if entries == [] then []
    else (if EqualNoCase(entries[0].section, section) then [] else [entries[0]]) + OutsideSection(entries[1..], section)
  }

  lemma {:induction false} FilterAppend(a: seq<Entry>, b: seq<Entry>, section: string)
    ensures InSection(a + b, section) == InSection(a, section) + InSection(b, section)
    ensures OutsideSection(a + b, section) == OutsideSection(a, section) + OutsideSection(b, section)
    decreases |a|
  {
    hide EqualNoCase;
    if a == [] {
      assert a + b == b;
      assert InSection(a, section) == OutsideSection(a, section) == [];
    } else {
      var rest := a[1..];
      assert (a + b)[1..] == rest + b && (a + b)[0] == a[0];
      FilterAppend(rest, b, section);
      var same := EqualNoCase(a[0].section, section);
      AppendAssoc(if same then [a[0]] else [], InSection(rest, section), InSection(b, section));
      AppendAssoc(if same then [] else [a[0]], OutsideSection(rest, section), OutsideSection(b, section));
    }
  }

  lemma {:induction false} FilterAll(a: seq<Entry>, section: string)
    requires forall e :: e in a ==> EqualNoCase(e.section, section)
    ensures InSection(a, section) == a && OutsideSection(a, section) == []
    decreases |a|
  {
    if a != [] { FilterAll(a[1..], section); }
  }

  lemma {:induction false} FilterNone(a: seq<Entry>, section: string)
    requires forall e :: e in a ==> !EqualNoCase(e.section, section)
    ensures InSection(a, section) == [] && OutsideSection(a, section) == a
    decreases |a|
  {
    if a != [] { FilterNone(a[1..], section); }
  }

  lemma {:induction false} SettingsInSection(section: string, keys: seq<string>, values: seq<string>)
    requires |keys| == |values|
    ensures forall e :: e in Settings(section, keys, values) ==> e.section == section
    decreases |keys|
  {
    if keys != [] { SettingsInSection(section, keys[1..], values[1..]); }
  }

  // ini_browse reports nothing of the section from in front of it or from behind it.
  ghost predicate SectionOnce(text: string, section: string)
    requires |section| <= SECTION_MAX
  {
    forall e :: e in Before(text, section) || e in After(text, section) ==> !EqualNoCase(e.section, section)
  }

  /** After ini_putsection on a file that names the section at most once, ini_browse reports
      for the section exactly the settings that were written, in their order, and for all
      other sections what it reported before. */
  lemma PutSectionThenBrowse(text: string, section: string, keys: seq<string>, values: seq<string>)
    requires PlainSection(section) && Replaceable(text, section) && HeaderFits(text, section, keys == [])
    requires SectionOnce(text, section)
    requires ReadableSettings(keys, values) && SettingsFit(section, keys, values)
    ensures var now := Browse(PutSectionText(text, section, Block(section, keys, values)), "");
            && InSection(now, section) == Settings(section, keys, values)
            && OutsideSection(now, section) == OutsideSection(Browse(text, ""), section)
  {
    hide Browse, PutSectionText, Replaced, Settings, SettingsFit, Before, After, Replaceable, HeaderFits;
    hide Block, InSection, OutsideSection, EqualNoCase;
    var before, replaced, after := Before(text, section), Replaced(text, section), After(text, section);
    var settings := Settings(section, keys, values);
    BrowseNew(text, section, keys, values);
    BrowseOld(text, section);
    SettingsInSection(section, keys, values);
    SameSection(section);
    FilterThree(before, settings, after, section);
    FilterThree(before, replaced, after, section);
  }

  // ----- a header that does not fit -------------------------------------------------------------

  // No character that means anything in a line but a closing bracket.
  predicate Meaningless(s: string) {
    forall i :: 0 <= i < |s| ==> s[i] != '[' && s[i] != '=' && s[i] != ':'
  }

  // A name in which no piece of its header means anything.
  predicate PlainName(section: string) {
    Meaningless(section) && ']' !in section
  }

  lemma MeaninglessIsSkipped(line: string)
    requires Meaningless(line)
    ensures ParseLine(line) == Skipped
  {
  }

  lemma {:induction false} BrowseMeaningless(a: string, rest: string, current: string)
    requires Meaningless(a) && EndsLine(a) && |current| <= SECTION_MAX
    ensures Browse(a + rest, current) == Browse(rest, current)
    decreases |a|
  {
    hide ParseLine, Chunk, Browse;
    if a == "" {
      assert a + rest == rest;
    } else {
      var line := Chunk(a, current);
      ChunkOfFront(a, rest, current);
      MeaninglessIsSkipped(line);
      BrowseChunk(a + rest, current, line);
      BrowseMeaningless(a[|line|..], rest, current);
      assert [] + Browse(rest, current) == Browse(rest, current);
    }
  }

  // Cut before its bracket, a header is no line to ini_browse.
  lemma CutHeaderIsSkipped(line: string)
    requires line != "" && line[0] == '[' && Meaningless(line[1..]) && ']' !in line
    ensures ParseLine(line) == Skipped
  {
    LeadingBlanksIs(line, 0);
    LastIndexOfIs(line, ']', -1);
    IndexOfIs(line, '=', |line|);
    IndexOfIs(line, ':', |line|);
    assert forall i :: 0 < i < |line| ==> line[i] == line[1..][i - 1];
  }

  // What is read of a header that does not fit, and what is left of its line.
  lemma HeaderIsCut(section: string, rest: string, current: string)
    requires PlainSection(section) && |current| <= SECTION_MAX && LineRoom(current) < |section| + 2
    ensures var n := LineRoom(current) - 1;
            var line := "[" + section[..n];
            && Chunk(SectionLine(section) + rest, current) == line
            && SectionLine(section) + rest == line + (section[n..] + "]\n" + rest)
  {
    SectionLineFirst(section, rest);
    hide SectionLine, LineLen;
    var n := LineRoom(current) - 1;
    var line, left := "[" + section[..n], section[n..] + "]\n" + rest;
    var text := line + left;
    assert section == section[..n] + section[n..];
    assert text == SectionLine(section) + rest;
    forall i | 0 <= i < n ensures text[i] != '\n' { assert i > 0 ==> text[i] == section[i - 1]; }
    LineLenIs(text, n + 1, n + 1);
    assert text[..n + 1] == line;
  }

  lemma BrowseCutHeader(section: string, rest: string, current: string)
    requires PlainSection(section) && PlainName(section)
    requires |current| <= SECTION_MAX && LineRoom(current) < |section| + 2
    ensures Browse(SectionLine(section) + rest, current) == Browse(rest, current)
  {
    hide ParseLine, Browse, SectionLine, Chunk;
    var n := LineRoom(current) - 1;
    var line, left := "[" + section[..n], section[n..] + "]\n";
    HeaderIsCut(section, rest, current);
    assert line[1..] == section[..n];
    CutHeaderIsSkipped(line);
    BrowseChunk(SectionLine(section) + rest, current, line);
    assert (line + (left + rest))[|line|..] == left + rest;
    BrowseMeaningless(left, rest, current);
    assert [] + Browse(rest, current) == Browse(rest, current);
  }

  /** That the header fits beside the name in front is needed: for a section whose name holds
      none of "[]=:", and settings and a next header that would be read beside the old name as
      well, the new settings are reported for the section if and only if its header fits. */
  lemma HeaderMustFit(text: string, section: string, keys: seq<string>, values: seq<string>)
    requires PlainSection(section) && PlainName(section) && keys != [] && |keys| == |values|
    requires Replaceable(text, section) && HeaderFits(text, section, true) && SectionOnce(text, section)
    requires ReadableSettings(keys, values) && SettingsFit(section, keys, values)
    requires SettingsFit(InFront(text, section), keys, values) && !EqualNoCase(InFront(text, section), section)
    ensures var now := Browse(PutSectionText(text, section, Block(section, keys, values)), "");
            InSection(now, section) == Settings(section, keys, values) <==> HeaderFits(text, section, false)
  {
    hide Browse, PutSectionText, Replaced, Settings, SettingsFit, Before, After, Replaceable;
    hide Block, InSection, OutsideSection, EqualNoCase, InFront, LineRoom, ReadableSettings, PlainName;
    if HeaderFits(text, section, false) {
      PutSectionThenBrowse(text, section, keys, values);
    } else {
      var current := InFront(text, section);
      BrowseUnfit(text, section, keys, values);
      SettingsInSection(current, keys, values);
      FilterOutside(Before(text, section), Settings(current, keys, values), After(text, section), section);
      SomeSettings(section, keys, values);
    }
  }

  lemma SomeSettings(section: string, keys: seq<string>, values: seq<string>)
    requires |keys| == |values| && keys != []
    ensures Settings(section, keys, values) != []
  {
  }

  lemma FilterOutside(a: seq<Entry>, b: seq<Entry>, c: seq<Entry>, section: string)
    requires forall e :: e in a || e in b || e in c ==> !EqualNoCase(e.section, section)
    ensures InSection(a + b + c, section) == []
  {
    hide EqualNoCase;
    FilterNone(a + b + c, section);
  }

  // The settings are read as the old section's.
  lemma BrowseUnfit(text: string, section: string, keys: seq<string>, values: seq<string>)
    requires PlainSection(section) && PlainName(section) && keys != [] && |keys| == |values|
    requires Replaceable(text, section) && HeaderFits(text, section, true) && !HeaderFits(text, section, false)
    requires ReadableSettings(keys, values) && SettingsFit(InFront(text, section), keys, values)
    ensures Browse(PutSectionText(text, section, Block(section, keys, values)), "")
         == Before(text, section) + Settings(InFront(text, section), keys, values) + After(text, section)
  {
    hide Browse, Front, Back, PutSectionText, ReadsSection, Chunk, SettingsFit, Block, StartsWithHeader, InFront,
         Settings;
    hide PlainName, ReadableSettings;
    BrowseUnfitBlock(section, keys, values, Back(text, section), InFront(text, section));
    BrowseSpliced(text, section, Block(section, keys, values), Settings(InFront(text, section), keys, values));
  }

  lemma BrowseUnfitBlock(section: string, keys: seq<string>, values: seq<string>, back: string, current: string)
    requires PlainSection(section) && PlainName(section) && keys != [] && |keys| == |values|
    requires |current| <= SECTION_MAX && LineRoom(current) < |section| + 2
    requires |section| <= SECTION_MAX && StartsWithHeader(back, section) && Chunk(back, current) == Chunk(back, section)
    requires ReadableSettings(keys, values) && SettingsFit(current, keys, values)
    ensures Browse(Block(section, keys, values) + back, current)
         == Settings(current, keys, values) + Browse(back, section)
  {
    hide Browse, KeyLines, SectionLine, Block, SettingsFit, Chunk, StartsWithHeader, PlainName, ReadableSettings;
    BlockIs(section, keys, values, back);
    BrowseCutHeader(section, KeyLines(keys, values) + "\n" + back, current);
    BrowseKeyLines(current, keys, values, back);
    BrowseFromHeader(back, section, current);
  }

  // A file that is one header.
  lemma OneHeaderOnly(name: string, section: string)
    requires PlainSection(name) && PlainSection(section) && |name| + 2 <= LineRoom("") && !EqualNoCase(name, section)
    ensures var text := SectionLine(name);
            && HeaderAt(text, section) == |text| && Front(text, section) == text && Back(text, section) == ""
            && InFront(text, section) == name && Browse(text, "") == []
  {
    var text := SectionLine(name);
    SectionLineFirst(name, "");
    SectionLineIsHeader(name);
    hide SectionLine, ParseLine, Current, Browse, IsHeaderOf, EqualNoCase;
    assert text + "" == text;
    OtherHeader(text, name, section);
    HeaderAtStep(text, section);
    LastGroupOfOne(text);
    OneHeaderRead(name);
  }

  lemma OneHeaderRead(name: string)
    requires PlainSection(name) && |name| + 2 <= LineRoom("")
    ensures Browse(SectionLine(name), "") == [] && Current(SectionLine(name), "") == name
  {
    var text := SectionLine(name);
    SectionLineFirst(name, "");
    SectionLineIsHeader(name);
    hide SectionLine, ParseLine, Current, Browse;
    assert text + "" == text;
    BrowseLine(text, "");
    BrowseNothing("", name);
    CurrentOfNothing(name);
  }

  lemma OtherHeader(line: string, name: string, section: string)
    requires ParseLine(line) == Header(name) && IsHeaderOf(line, name) && !EqualNoCase(name, section)
    ensures !IsHeaderOf(line, section)
  {
  }

  lemma LastGroupOfOne(line: string)
    requires |line| > 1 && FirstLine(line) == line && OtherLines(line) == "" && line[|line| - 1] == '\n'
    ensures !NeedsNewline(line)
  {
    hide FirstLine, OtherLines;
    BehindFirst(line);
    assert LastGroup("", |line|) == |line|;
  }

  /** Such a file: after a section with a name of 480 letters, one with a name of 40 letters and a
      setting in it is added, and ini_browse reports the setting for the section before it. */
  lemma LongNameTakesSettings()
    ensures var a, b := seq(480, _ => 'a'), seq(40, _ => 'b');
            Browse(PutSectionText(SectionLine(a), b, Block(b, ["k"], ["v"])), "") == [Entry(a, "k", "v")]
  {
    var a, b := seq(480, _ => 'a'), seq(40, _ => 'b');
    LettersAreNames(a, b);
    KeyOfOneLetter();
    hide SectionLine, Browse, PutSectionText, Block, HeaderAt, Front, Back, EqualNoCase, ReadableSettings, KeyLine;
    OneHeaderOnly(a, b);
    BrowseUnfit(SectionLine(a), b, ["k"], ["v"]);
    BrowseNothing("", b);
    assert Settings(a, ["k"], ["v"]) == [Entry(a, "k", "v")];
    assert [] + [Entry(a, "k", "v")] + [] == [Entry(a, "k", "v")];
  }

  lemma LettersAreNames(a: string, b: string)
    requires |a| == 480 && |b| == 40
    requires (forall c :: c in a ==> c == 'a') && (forall c :: c in b ==> c == 'b')
    ensures PlainSection(a) && PlainSection(b) && PlainName(b) && !EqualNoCase(a, b)
  {
    forall i | 0 <= i < |b| ensures b[i] == 'b' { assert b[i] in b; }
  }

  lemma KeyOfOneLetter()
    ensures ReadableSettings(["k"], ["v"]) && |KeyLine("k", "v")| <= 30
  {
    assert CheckEnquote("v") == QuoteNone;
  }

  lemma SameSection(section: string)
    ensures EqualNoCase(section, section)
  {
  }

  lemma FilterThree(a: seq<Entry>, b: seq<Entry>, c: seq<Entry>, section: string)
    requires forall e :: e in a ==> !EqualNoCase(e.section, section)
    requires forall e :: e in b ==> EqualNoCase(e.section, section)
    requires forall e :: e in c ==> !EqualNoCase(e.section, section)
    ensures InSection(a + b + c, section) == b && OutsideSection(a + b + c, section) == a + c
  {
    hide InSection, OutsideSection, EqualNoCase;
    FilterAppend(a + b, c, section);
    FilterAppend(a, b, section);
    FilterNone(a, section);
    FilterAll(b, section);
    FilterNone(c, section);
    assert [] + b + [] == b && a + [] + c == a + c;
  }
}

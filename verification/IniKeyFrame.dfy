/** What ini_puts leaves alone: every other key of the file reads as before. */
module IniKeyFrame {
  import opened Basics
  import opened CText
  import opened IniLines
  import opened IniQuoting
  import opened IniSection
  import opened IniRewrite
  import opened IniRoundTrip
  import opened IniKey
  import opened IniKeyRead

  // ----- reading a key in one pass ------------------------------------------------------------

  // Before the section, in it, or done with it.
  datatype Scan = Seeking | Inside | Over(value: Option<string>)

  ghost function ScanLine(st: Scan, line: string, section: string, key: string): Scan {
    match st
    case Seeking => if IsHeaderOf(line, section) then Inside else Seeking
    case Inside =>
      if OpensSection(line) then Over(None)
      else if IsEntryOf(line, key) && !IsComment(line) then Over(Some(ValueOn(line)))
      else Inside
    case Over(_) => st
  }

  ghost function ScanText(st: Scan, text: string, section: string, key: string): Scan
    decreases |text|
  {
    if text == "" then st
    else ScanText(ScanLine(st, FirstLine(text), section, key), OtherLines(text), section, key)
  }

  function StartIn(section: string): Scan {
    if section == "" then Inside else Seeking
  }

  function Result(st: Scan): Option<string> {
    if st.Over? then st.value else None
  }

  lemma {:induction false} OverStays(v: Option<string>, text: string, section: string, key: string)
    ensures ScanText(Over(v), text, section, key) == Over(v)
    decreases |text|
  {
    if text != "" { OverStays(v, OtherLines(text), section, key); }
  }

  lemma {:induction false} ScanInside(body: string, section: string, key: string)
    ensures Result(ScanText(Inside, body, section, key)) == GetInBody(body, key)
    decreases |body|
  {
    hide FirstLine, OtherLines, OpensSection, IsEntryOf, IsComment, ValueOn;
    StopAtStep(body, key, false);
    if body != "" {
      var line := FirstLine(body);
      if Stops(line, key, false) {
        assert body[0..] == body;
        OverStays(None, OtherLines(body), section, key);
        OverStays(Some(ValueOn(line)), OtherLines(body), section, key);
      } else {
        ScanInside(OtherLines(body), section, key);
        GetBehind(body, key);
      }
    }
  }

  lemma GetBehind(body: string, key: string)
    requires body != "" && !Stops(FirstLine(body), key, false)
    ensures GetInBody(body, key) == GetInBody(OtherLines(body), key)
  {
    hide Stops, OpensSection, ValueOn, FirstLine, OtherLines, StopAt;
    StopAtStep(body, key, false);
    BehindFirst(body);
    DropDrop(body, |FirstLine(body)|, StopAt(OtherLines(body), key, false));
  }

  lemma {:induction false} ScanSeeking(text: string, section: string, key: string)
    requires section != ""
    ensures Result(ScanText(Seeking, text, section, key)) == GetKey(text, section, key)
    decreases |text|
  {
    hide FirstLine, OtherLines, IsHeaderOf, GetInBody;
    HeaderAtStep(text, section);
    if text != "" {
      assert text[0..] == text;
      if IsHeaderOf(FirstLine(text), section) {
        ScanInside(OtherLines(text), section, key);
        BehindFirst(text);
      } else {
        ScanSeeking(OtherLines(text), section, key);
        SeekBehind(text, section, key);
      }
    }
  }

  lemma SeekBehind(text: string, section: string, key: string)
    requires section != "" && text != "" && !IsHeaderOf(FirstLine(text), section)
    ensures GetKey(text, section, key) == GetKey(OtherLines(text), section, key)
  {
    hide IsHeaderOf, GetInBody, HeaderAt, FirstLine, OtherLines;
    var rest := OtherLines(text);
    var n := |FirstLine(text)|;
    HeaderAtStep(text, section);
    BehindFirst(text);
    DropDrop(text, n, HeaderAt(rest, section));
    DropDrop(text, n, BodyAt(rest, section));
  }

  // Reading a key is the one pass.
  lemma GetIsScan(text: string, section: string, key: string)
    ensures GetKey(text, section, key) == Result(ScanText(StartIn(section), text, section, key))
  {
    hide GetInBody, ScanText;
    if section == "" {
      ScanInside(text, section, key);
      assert text[0..] == text;
    } else {
      ScanSeeking(text, section, key);
    }
  }

  lemma {:induction false} ScanAppend(st: Scan, a: string, b: string, section: string, key: string)
    requires Closed(a)
    ensures ScanText(st, a + b, section, key) == ScanText(ScanText(st, a, section, key), b, section, key)
    decreases |a|
  {
    hide ScanLine;
    if a == "" {
      assert a + b == b;
    } else {
      WholeLineFirst(a, b);
      ScanAppend(ScanLine(st, FirstLine(a), section, key), OtherLines(a), b, section, key);
    }
  }

  // ----- a newline at the end -------------------------------------------------------------------

  lemma BehindSignNewline(s: string)
    ensures SplitAt(s) == |s| ==> SplitAt(s + "\n") == |s + "\n"|
    ensures SplitAt(s) < |s| ==>
              SplitAt(s + "\n") == SplitAt(s) && (s + "\n")[SplitAt(s) + 1..] == s[SplitAt(s) + 1..] + "\n"
  {
    SplitAtNewline(s);
  }

  lemma ValueOfNewline(s: string)
    ensures ValueOf(s + "\n") == ValueOf(s)
  {
    hide Cleaned, Copied, SplitAt, LeadingBlanks;
    BehindSignNewline(s);
    if SplitAt(s) < |s| { CleanedNewline(s[SplitAt(s) + 1..]); }
  }

  lemma ValueOnNewline(line: string)
    ensures ValueOn(line + "\n") == ValueOn(line)
  {
    hide ValueOf, LeadingBlanks;
    var n := LeadingBlanks(line);
    if n == |line| {
      LeadingBlanksIs(line + "\n", |line| + 1);
    } else {
      LeadingBlanksIs(line + "\n", n);
      ValueOfNewline(SkipLeading(line));
      assert SkipLeading(line + "\n") == SkipLeading(line) + "\n";
    }
  }

  lemma ScanLineNewline(st: Scan, line: string, section: string, key: string)
    requires line != "" && OneLine(line)
    ensures ScanLine(st, line + "\n", section, key) == ScanLine(st, line, section, key)
  {
    hide IsHeaderOf, OpensSection, IsEntryOf, IsComment, ValueOn;
    HeaderWithNewline(line, section);
    OpensSectionNewline(line);
    EntryNewline(line, key);
    ValueOnNewline(line);
  }

  lemma ScanBlankLine(st: Scan, section: string, key: string)
    ensures ScanLine(st, "\n", section, key) == st
  {
    LeadingBlanksIs("\n", 1);
  }

  lemma {:induction false} ScanNewline(st: Scan, text: string, section: string, key: string)
    ensures ScanText(st, text + "\n", section, key) == ScanText(st, text, section, key)
    decreases |text|
  {
    hide ScanLine, LineLen;
    if text == "" {
      BlankLineFirst("");
      ScanBlankLine(st, section, key);
      assert text + "\n" == "\n" == "\n" + "";
    } else if IsWhole(FirstLine(text)) {
      WholeLineFirst(text, "\n");
      ScanNewline(ScanLine(st, FirstLine(text), section, key), OtherLines(text), section, key);
    } else {
      LastLine(text);
      ScanLineNewline(st, text, section, key);
      FirstLineIs(text + "\n", text + "\n");
      assert OtherLines(text + "\n") == "";
    }
  }

  lemma ScanNewlineFor(st: Scan, text: string, s: string, section: string, key: string)
    ensures ScanText(st, text + NewlineFor(s), section, key) == ScanText(st, text, section, key)
  {
    ScanNewline(st, text, section, key);
    assert text + "" == text;
  }

  // ----- where the scan for another key is --------------------------------------------------------

  // Another section, or another key.
  ghost predicate Other(section: string, key: string, section2: string, key2: string) {
    !EqualNoCase(section, section2) || !EqualNoCase(key, key2)
  }

  // Lines that open no section move no scan that is not in its section.
  lemma {:induction false} PlainLinesKeep(st: Scan, body: string, key: string, section2: string, key2: string)
    requires StopAt(body, key, true) == |body| && st != Inside
    ensures ScanText(st, body, section2, key2) == st
    decreases |body|
  {
    hide IsHeaderOf, IsEntryOf, IsComment, LineLen;
    if body != "" {
      assert !OpensSection(FirstLine(body));
      NoHeader(FirstLine(body), section2);
      PlainLinesKeep(st, OtherLines(body), key, section2, key2);
    }
  }

  lemma NoHeader(line: string, section: string)
    requires !OpensSection(line)
    ensures !IsHeaderOf(line, section)
  {
  }

  // A line that sets the key leaves the scan for another where it is.
  lemma EntryKeeps(st: Scan, line: string, section: string, key: string, section2: string, key2: string)
    requires IsEntryOf(line, key) && !OpensSection(line)
    requires st == Inside ==> !EqualNoCase(key, key2)
    ensures ScanLine(st, line, section2, key2) == st
  {
    NoHeader(line, section2);
    if IsEntryOf(line, key2) { OneName(line, key, key2); }
  }

  lemma OneName(line: string, key: string, key2: string)
    requires IsEntryOf(line, key) && IsEntryOf(line, key2)
    ensures EqualNoCase(key, key2)
  {
    var s := SkipLeading(line);
    SameName(StripTrailing(s[..SplitAt(s)]), key, key2);
  }

  lemma SameName(name: string, key: string, key2: string)
    requires EqualNoCase(name, key)
    ensures EqualNoCase(name, key2) <==> EqualNoCase(key, key2)
  {
  }

  lemma KeyLineKeeps(st: Scan, section: string, key: string, value: Option<string>, rest: string, section2: string,
      key2: string)
    requires key != "" && PlainKey(key) && OneLine(key) && (value.Some? ==> OneLine(value.value))
    requires st == Inside ==> !EqualNoCase(key, key2)
    ensures ScanText(st, Printed(key, value) + rest, section2, key2) == ScanText(st, rest, section2, key2)
  {
    hide KeyLine, IsEntryOf, OpensSection, ScanLine, PlainKey, FirstLine, OtherLines;
    match value
    case None =>
      assert "" + rest == rest;
    case Some(v) =>
      KeyLineIsEntry(key, v);
      KeyLineFirst(key, v, rest);
      EntryKeeps(st, KeyLine(key, v), section, key, section2, key2);
  }

  lemma KeyLineIsEntry(key: string, value: string)
    requires PlainKey(key) && key != ""
    ensures IsEntryOf(KeyLine(key, value), key) && !OpensSection(KeyLine(key, value)) && KeyLine(key, value) != ""
  {
    hide KeyLine, Copied, CheckEnquote, ValueRoom;
    KeyLineSplit(key, value);
    StripTrailingIs(key, key);
  }

  // The header of a section ends any other section.
  lemma HeaderLeaves(st: Scan, line: string, section: string, section2: string, key2: string)
    requires IsHeaderOf(line, section) && !EqualNoCase(section, section2)
    ensures ScanLine(st, line, section2, key2) != Inside
  {
    var s := SkipLeading(line);
    if IsHeaderOf(line, section2) { SameName(s[1..LastIndexOf(s, ']')], section, section2); }
  }

  // Between the start of the section's lines and the key's place, the scan for another section
  // is not in its section.
  lemma NotInside(text: string, section: string, key: string, e: nat, section2: string, key2: string)
    requires HasSection(text, section) && !EqualNoCase(section, section2)
    requires e == StopAt(text[BodyAt(text, section)..], key, true)
    ensures ScanText(StartIn(section2), text[..BodyAt(text, section) + e], section2, key2) != Inside
  {
    hide StopAt, ScanText, HeaderAt, FirstLine, OtherLines, IsHeaderOf, ScanLine, IsWhole;
    var p := BodyAt(text, section);
    var body := text[p..];
    var start := StartIn(section2);
    LinesBefore(body, key);
    SlicesAt(text, p, e);
    if section == "" {
      assert text[..0] + body[..e] == body[..e];
      PlainLinesKeep(start, body[..e], key, section2, key2);
    } else {
      var h := HeaderAt(text, section);
      BeforeHeader(text, section);
      var line := FirstLine(text[h..]);
      HeaderThenBody(text, h, e);
      ScanAppend(start, text[..h], line + body[..e], section2, key2);
      var st := ScanText(start, text[..h], section2, key2);
      ScanFirst(st, line, body[..e], section2, key2);
      HeaderLeaves(st, line, section, section2, key2);
      PlainLinesKeep(ScanLine(st, line, section2, key2), body[..e], key, section2, key2);
    }
  }

  lemma LinesBefore(body: string, key: string)
    ensures StopAt(body[..StopAt(body, key, true)], key, true) == StopAt(body, key, true)
  {
    hide StopAt;
    if StopAt(body, key, true) < |body| {
      BeforeStop(body, key, true);
    } else {
      assert body[..|body|] == body;
    }
  }

  lemma HeaderThenBody(text: string, h: nat, e: nat)
    requires h < |text|
    requires var line := FirstLine(text[h..]); h + |line| + e <= |text|
    ensures var line := FirstLine(text[h..]);
            var part := text[h + |line|..][..e];
            && text[..h + |line| + e] == text[..h] + (line + part)
            && line != "" && FirstLine(line + part) == line && OtherLines(line + part) == part
  {
    hide FirstLine, OtherLines, LineLen;
    var s := text[h..];
    var line := FirstLine(s);
    BehindFirst(s);
    FirstLineTwice(s);
    DropDrop(text, h, |line|);
    PrefixOfDrop(text, h, line);
    var part := OtherLines(s)[..e];
    assert text[..h + |line| + e] == text[..h] + (line + part);
    if OtherLines(s) == "" {
      assert part == "" && line + part == line;
      BehindFirst(line);
    } else {
      LineBefore(s, part);
    }
  }

  lemma ScanFirst(st: Scan, line: string, rest: string, section: string, key: string)
    requires line != "" && FirstLine(line + rest) == line && OtherLines(line + rest) == rest
    ensures ScanText(st, line + rest, section, key) == ScanText(ScanLine(st, line, section, key), rest, section, key)
  {
    hide ScanLine, FirstLine, OtherLines;
  }

  // ----- the frame ------------------------------------------------------------------------------

  // The text in front of the key's place: its scan, and that it is closed if a line follows.
  lemma ClosedBefore(text: string, section: string, key: string, e: nat)
    requires HasSection(text, section) && e == StopAt(text[BodyAt(text, section)..], key, true)
    requires BodyAt(text, section) + e < |text|
    ensures Closed(text[..BodyAt(text, section) + e])
  {
    hide StopAt, Closed, HeaderAt, FirstLine, OtherLines, IsHeaderOf;
    var p := BodyAt(text, section);
    BeforeStop(text[p..], key, true);
    SlicesAt(text, p, e);
    ClosedHeader(text, section);
    ClosedAppend(text[..p], text[p..][..e]);
  }

  lemma ClosedHeader(text: string, section: string)
    requires HasSection(text, section) && BodyAt(text, section) < |text|
    ensures Closed(text[..BodyAt(text, section)])
  {
    hide HeaderAt, FirstLine, OtherLines, IsHeaderOf, Closed;
    if section == "" {
      NewlineCloses("");
      assert text[..0] == "";
    } else {
      var h := HeaderAt(text, section);
      BeforeHeader(text, section);
      var s := text[h..];
      var line := FirstLine(s);
      BehindFirst(s);
      DropDrop(text, h, |line|);
      LineBefore(s, "");
      HeaderThenBody(text, h, 0);
      assert line + "" == line;
      WholeCloses(line);
      ClosedAppend(text[..h], line);
      assert text[h + |line|..][..0] == "";
    }
  }

  lemma WholeCloses(line: string)
    requires IsWhole(line) && FirstLine(line) == line && OtherLines(line) == ""
    ensures Closed(line)
  {
  }

  lemma KeepsInBody(text: string, section: string, key: string, value: Option<string>, section2: string, key2: string)
    requires key != "" && PlainKey(key) && OneLine(key) && (value.Some? ==> OneLine(value.value))
    requires Other(section, key, section2, key2) && HasSection(text, section)
    ensures ScanText(StartIn(section2), PutKeyText(text, section, key, value), section2, key2)
         == ScanText(StartIn(section2), text, section2, key2)
  {
    hide StopAt, ScanText, BodyAt, HasSection, PlainKey, PutInBody, Printed, OneLine, EqualNoCase;
    var p := BodyAt(text, section);
    var body := text[p..];
    var e := StopAt(body, key, true);
    if !EqualNoCase(section, section2) { NotInside(text, section, key, e, section2, key2); }
    if e == |body| {
      KeepsAtEnd(text, p, section, key, value, section2, key2);
    } else {
      ClosedBefore(text, section, key, e);
      KeepsAtLine(text, p, e, section, key, value, section2, key2);
    }
  }

  lemma KeepsAtEnd(text: string, p: nat, section: string, key: string, value: Option<string>, section2: string,
      key2: string)
    requires p <= |text| && StopAt(text[p..], key, true) == |text| - p
    requires key != "" && PlainKey(key) && OneLine(key) && (value.Some? ==> OneLine(value.value))
    requires ScanText(StartIn(section2), text[..|text|], section2, key2) == Inside ==> !EqualNoCase(key, key2)
    ensures ScanText(StartIn(section2), text[..p] + PutInBody(text[p..], key, value), section2, key2)
         == ScanText(StartIn(section2), text, section2, key2)
  {
    hide StopAt, ScanText, PlainKey, KeyLine, NeedsNewline, Closed;
    var start, body := StartIn(section2), text[p..];
    assert text[..|text|] == text && text[..p] + body == text;
    if value == None {
      assert body + "" == body;
    } else {
      var line := Printed(key, value);
      var t := text + NewlineFor(body);
      assert text[..p] + (body + (NewlineFor(body) + line)) == t + (line + "");
      ClosedWithNewline(text, p);
      ScanAppend(start, t, line + "", section2, key2);
      ScanNewlineFor(start, text, body, section2, key2);
      var st := ScanText(start, text, section2, key2);
      KeyLineKeeps(st, section, key, value, "", section2, key2);
      ScanNothing(st, section2, key2);
    }
  }

  lemma ScanNothing(st: Scan, section: string, key: string)
    ensures ScanText(st, "", section, key) == st
  {
  }

  lemma ClosedWithNewline(text: string, p: nat)
    requires p <= |text|
    ensures Closed(text + NewlineFor(text[p..]))
  {
    NewlineCloses(text + NewlineFor(text[p..]));
  }

  lemma KeepsAtLine(text: string, p: nat, e: nat, section: string, key: string, value: Option<string>,
      section2: string, key2: string)
    requires p <= |text| && e == StopAt(text[p..], key, true) < |text| - p && Closed(text[..p + e])
    requires key != "" && PlainKey(key) && OneLine(key) && (value.Some? ==> OneLine(value.value))
    requires ScanText(StartIn(section2), text[..p + e], section2, key2) == Inside ==> !EqualNoCase(key, key2)
    ensures ScanText(StartIn(section2), text[..p] + PutInBody(text[p..], key, value), section2, key2)
         == ScanText(StartIn(section2), text, section2, key2)
  {
    hide StopAt, ScanText, PlainKey, Closed, OpensSection, FirstLine, OtherLines, IsEntryOf, Printed, ScanLine;
    var start, body := StartIn(section2), text[p..];
    var front, rest := text[..p + e], body[e..];
    var st := ScanText(start, front, section2, key2);
    SlicesAt(text, p, e);
    assert front + rest == text;
    ScanAppend(start, front, rest, section2, key2);
    BeforeStop(body, key, true);
    var line := FirstLine(rest);
    var after := if OpensSection(line) then rest else OtherLines(rest);
    JoinFour(text[..p], body[..e], Printed(key, value), after);
    JoinTwo(front, Printed(key, value), after);
    ScanAppend(start, front, Printed(key, value) + after, section2, key2);
    KeyLineKeeps(st, section, key, value, after, section2, key2);
    if !OpensSection(line) {
      EntryKeeps(st, line, section, key, section2, key2);
      ScanRest(st, rest, section2, key2);
    }
  }

  lemma JoinTwo(a: string, b: string, c: string)
    ensures a + b + c == a + (b + c)
  {
  }

  lemma ScanRest(st: Scan, rest: string, section: string, key: string)
    requires rest != ""
    ensures ScanText(st, rest, section, key)
              == ScanText(ScanLine(st, FirstLine(rest), section, key), OtherLines(rest), section, key)
  {
    hide ScanLine, FirstLine, OtherLines;
  }

  // A section added at the end, with the key in it.
  lemma KeepsBeforeNewSection(text: string, section: string, key: string, value: string, section2: string, key2: string)
    requires key != "" && PlainKey(key) && OneLine(key) && OneLine(value) && PlainSection(section)
    requires Other(section, key, section2, key2)
    ensures Result(ScanText(StartIn(section2), text + (NewlineFor(text) + SectionLine(section) + KeyLine(key, value)),
              section2, key2))
         == Result(ScanText(StartIn(section2), text, section2, key2))
  {
    hide ScanText, PlainKey, Closed, FirstLine, OtherLines, SectionLine, KeyLine, NeedsNewline, ScanLine, IsHeaderOf,
         EqualNoCase;
    var start, line, entry := StartIn(section2), SectionLine(section), KeyLine(key, value);
    var front := text + NewlineFor(text);
    JoinThree(text, NewlineFor(text), line, entry);
    JoinTwo(front, line, entry);
    NewlineForCloses(text);
    ScanAppend(start, front, line + entry, section2, key2);
    ScanNewlineFor(start, text, text, section2, key2);
    var st := ScanText(start, text, section2, key2);
    SectionLineIsHeader(section);
    SectionLineFirst(section, entry);
    SectionLineWhole(section);
    ScanFirst(st, line, entry, section2, key2);
    NewHeaderKeeps(st, line, section, section2, key2);
    var next := ScanLine(st, line, section2, key2);
    assert entry + "" == entry && Printed(key, Some(value)) == entry;
    KeyLineKeeps(next, section, key, Some(value), "", section2, key2);
    ScanNothing(next, section2, key2);
  }

  // A header read by a scan changes no result; and afterwards the scan is in its section only
  // if the header is its own.
  lemma NewHeaderKeeps(st: Scan, line: string, section: string, section2: string, key2: string)
    requires IsHeaderOf(line, section)
    ensures Result(ScanLine(st, line, section2, key2)) == Result(st)
    ensures ScanLine(st, line, section2, key2) == Inside ==> EqualNoCase(section, section2)
  {
    hide EqualNoCase;
    if !EqualNoCase(section, section2) { HeaderLeaves(st, line, section, section2, key2); }
  }

  /** Writing or erasing a key, by whichever path, leaves every other key of the file as it was,
      in this section and in all others. */
  lemma PutKeepsOthers(text: string, section: string, key: string, value: Option<string>, section2: string,
      key2: string)
    requires key != "" && PlainKey(key) && OneLine(key) && (value.Some? ==> OneLine(value.value))
    requires HasSection(text, section) || PlainSection(section)
    requires Other(section, key, section2, key2)
    ensures GetKey(PutKeyText(text, section, key, value), section2, key2) == GetKey(text, section2, key2)
    ensures value.Some? ==>
              GetKey(PutText(text, section, key, value.value), section2, key2) == GetKey(text, section2, key2)
  {
    hide GetKey, ScanText, HasSection, PlainKey, Other, SectionLine, KeyLine, Overwritten, SameLength, NewlineFor,
         PutInBody;
    var after := PutKeyText(text, section, key, value);
    GetIsScan(text, section2, key2);
    GetIsScan(after, section2, key2);
    if HasSection(text, section) {
      KeepsInBody(text, section, key, value, section2, key2);
    } else if value.Some? {
      KeepsBeforeNewSection(text, section, key, value.value, section2, key2);
    } else {
      assert text + "" == text;
    }
    if value.Some? && GetKey(text, section, key).Some? { ShortcutIsCopy(text, section, key, value.value); }
  }

  // ----- erasing a section ------------------------------------------------------------------------

  // A text whose first line opens a section ends every other section at once.
  lemma EndsInside(text: string, section: string, key: string)
    requires text == "" || OpensSection(FirstLine(text))
    ensures Result(ScanText(Inside, text, section, key)) == None
  {
    hide OpensSection, FirstLine, OtherLines;
    if text != "" { OverStays(None, OtherLines(text), section, key); }
  }

  // Skipping to the next section moves no scan that is not in its section.
  lemma {:induction false} SkippingKeeps(st: Scan, body: string, section2: string, key2: string)
    requires st != Inside
    ensures ScanText(st, body, section2, key2) == ScanText(st, body[NextSectionAt(body)..], section2, key2)
    decreases |body|
  {
    hide OpensSection, FirstLine, OtherLines, IsHeaderOf, IsEntryOf;
    NextSectionAtStep(body);
    if body == "" || OpensSection(FirstLine(body)) {
      assert body[0..] == body;
    } else {
      NoHeader(FirstLine(body), section2);
      SkippingKeeps(st, OtherLines(body), section2, key2);
      BehindFirst(body);
      DropDrop(body, |FirstLine(body)|, NextSectionAt(OtherLines(body)));
    }
  }

  lemma ErasedKeeps(st: Scan, text: string, section: string, section2: string, key2: string)
    requires text != "" && IsHeaderOf(FirstLine(text), section) && !EqualNoCase(section, section2)
    ensures Result(ScanText(st, AfterSection(text), section2, key2)) == Result(ScanText(st, text, section2, key2))
  {
    hide IsHeaderOf, FirstLine, OtherLines, ScanText, NextSectionAt, OpensSection, EqualNoCase;
    var line, body := FirstLine(text), OtherLines(text);
    ScanRest(st, text, section2, key2);
    HeaderLeaves(st, line, section, section2, key2);
    var next := ScanLine(st, line, section2, key2);
    SkippingKeeps(next, body, section2, key2);
    HeaderOpensLine(line, section);
    if st == Inside {
      AfterNextSection(body);
      EndsInside(AfterSection(text), section2, key2);
      OverStays(None, AfterSection(text), section2, key2);
    }
  }

  lemma HeaderOpensLine(line: string, section: string)
    requires IsHeaderOf(line, section)
    ensures OpensSection(line)
  {
  }

  /** Erasing a named section leaves every other section as it was. */
  lemma EraseKeepsOthers(text: string, section: string, section2: string, key2: string)
    requires section != "" && !EqualNoCase(section, section2)
    ensures GetKey(EraseText(text, section), section2, key2) == GetKey(text, section2, key2)
  {
    hide GetKey, ScanText, HeaderAt, AfterSection, IsHeaderOf, FirstLine, Closed, EqualNoCase;
    var h := HeaderAt(text, section);
    GetIsScan(text, section2, key2);
    GetIsScan(EraseText(text, section), section2, key2);
    if h < |text| {
      var front, rest := text[..h], text[h..];
      BeforeHeader(text, section);
      assert text == front + rest;
      ScanAppend(StartIn(section2), front, rest, section2, key2);
      ScanAppend(StartIn(section2), front, AfterSection(rest), section2, key2);
      ErasedKeeps(ScanText(StartIn(section2), front, section2, key2), rest, section, section2, key2);
    }
  }

  // No second header of the section follows its first one.
  ghost predicate OneHeader(text: string, section: string) {
    var rest := OtherLines(text[HeaderAt(text, section)..]);
    HeaderAt(rest, section) == |rest|
  }

  /** Erasing without a section name drops the first line of the file, whatever it is, and the
      lines up to the next section.  A named section reads afterwards as it does behind the first
      line: so it is as it was if that line is not its header; and a key that was there, in a
      section with one header, is still there if and only if that line is not its header. */
  lemma EraseWithoutNameKeepsIff(text: string, section2: string, key2: string)
    requires section2 != "" && text != ""
    ensures GetKey(EraseText(text, ""), section2, key2) == GetKey(OtherLines(text), section2, key2)
    ensures !IsHeaderOf(FirstLine(text), section2) ==>
              GetKey(EraseText(text, ""), section2, key2) == GetKey(text, section2, key2)
    ensures GetKey(text, section2, key2).Some? && OneHeader(text, section2) ==>
              (GetKey(EraseText(text, ""), section2, key2) == GetKey(text, section2, key2)
               <==> !IsHeaderOf(FirstLine(text), section2))
  {
    hide GetKey, ScanText, NextSectionAt, IsHeaderOf, FirstLine, OtherLines, HeaderAt;
    var rest := OtherLines(text);
    GetIsScan(EraseText(text, ""), section2, key2);
    GetIsScan(rest, section2, key2);
    SkippingKeeps(Seeking, rest, section2, key2);
    if IsHeaderOf(FirstLine(text), section2) {
      HeaderAtStep(text, section2);
      assert text[0..] == text;
      if HeaderAt(rest, section2) == |rest| { NoHeaderNoKey(rest, section2, key2); }
    } else {
      SeekBehind(text, section2, key2);
    }
  }

  lemma NoHeaderNoKey(text: string, section: string, key: string)
    requires section != "" && HeaderAt(text, section) == |text|
    ensures GetKey(text, section, key) == None
  {
  }

  /** Without a section name ini_puts drops the first line of the file even when that is the
      header of another section, and that section's keys with it. */
  lemma EraseWithoutNameLoses(section: string, key: string, value: string)
    requires PlainSection(section) && Storable(key, value)
    ensures var text := SectionLine(section) + KeyLine(key, value);
            && GetKey(text, section, key) == Some(ReadBack(key, value))
            && EraseText(text, "") == ""
            && GetKey(EraseText(text, ""), section, key) == None
  {
    WrittenAlone(section, key, value);
    hide KeyLine, SectionLine, NextSectionAt, FirstLine, OtherLines, OpensSection, PlainKey, GetKey, ValueFits;
    var line, entry := SectionLine(section), KeyLine(key, value);
    SectionLineFirst(section, entry);
    KeyLineFirst(key, value, "");
    assert entry + "" == entry;
    KeyLineStops(key, value, true);
    NextSectionAtStep(entry);
    NextSectionAtStep("");
    NothingThere(section, key);
  }

  lemma NothingThere(section: string, key: string)
    requires section != ""
    ensures GetKey("", section, key) == None && HeaderAt("", section) == 0
  {
  }

  lemma WrittenAlone(section: string, key: string, value: string)
    requires PlainSection(section) && Storable(key, value)
    ensures GetKey(SectionLine(section) + KeyLine(key, value), section, key) == Some(ReadBack(key, value))
  {
    hide KeyLine, SectionLine, PlainKey, ValueFits, BodyAt, GetInBody, HeaderAt, StopAt, ReadBack, HasSection;
    var entry := KeyLine(key, value);
    NothingThere(section, key);
    NothingClosed(key);
    NewSectionFound("", section, entry);
    assert "" + SectionLine(section) + entry == SectionLine(section) + entry;
    WrittenIsFound("", "", key, value);
    assert "" + entry + "" == entry;
  }
}

/** Reading a key after ini_puts has written it. */
module IniKeyRead {
  import opened Basics
  import opened CText
  import opened IniLines
  import opened IniQuoting
  import opened IniSection
  import opened IniRewrite
  import opened IniRoundTrip
  import opened IniKey

  // ----- searching for a key ------------------------------------------------------------------

  lemma StopAtStep(s: string, key: string, comments: bool)
    ensures s == "" ==> StopAt(s, key, comments) == 0
    ensures s != "" && Stops(FirstLine(s), key, comments) ==> StopAt(s, key, comments) == 0
    ensures s != "" && !Stops(FirstLine(s), key, comments) ==>
              StopAt(s, key, comments) == |FirstLine(s)| + StopAt(OtherLines(s), key, comments)
  {
  }

  // The search steps over a closed text in which it does not stop.
  lemma {:induction false} StopAtAppend(a: string, b: string, key: string, comments: bool)
    requires Closed(a) && StopAt(a, key, comments) == |a|
    ensures StopAt(a + b, key, comments) == |a| + StopAt(b, key, comments)
    decreases |a|
  {
    hide Stops;
    if a == "" {
      assert a + b == b;
    } else {
      WholeLineFirst(a, b);
      StopAtAppend(OtherLines(a), b, key, comments);
    }
  }

  // What precedes the line where the search stops is closed, and the search does not stop in it.
  lemma {:induction false} BeforeStop(s: string, key: string, comments: bool)
    requires StopAt(s, key, comments) < |s|
    ensures var a := s[..StopAt(s, key, comments)]; Closed(a) && StopAt(a, key, comments) == |a|
    ensures Stops(FirstLine(s[StopAt(s, key, comments)..]), key, comments)
    decreases |s|
  {
    hide Stops, FirstLine, OtherLines, LineLen;
    if !Stops(FirstLine(s), key, comments) {
      var rest := OtherLines(s);
      BeforeStop(rest, key, comments);
      var h := StopAt(rest, key, comments);
      SplitAtLine(FirstLine(s), rest, h);
      LineBefore(s, rest[..h]);
    } else {
      assert s[..0] == "" && s[0..] == s;
    }
  }

  lemma EntryNewline(line: string, key: string)
    ensures IsEntryOf(line + "\n", key) <==> IsEntryOf(line, key)
    ensures IsComment(line + "\n") <==> IsComment(line)
  {
    hide StripTrailing, EqualNoCase;
    var n := LeadingBlanks(line);
    if n == |line| {
      LeadingBlanksIs(line + "\n", |line| + 1);
    } else {
      LeadingBlanksIs(line + "\n", n);
      var s := SkipLeading(line);
      assert SkipLeading(line + "\n") == s + "\n";
      SplitAtNewline(s);
      if SplitAt(s) < |s| { SplitNewline(s); }
    }
  }

  lemma StopsNewline(line: string, key: string, comments: bool)
    ensures Stops(line + "\n", key, comments) <==> Stops(line, key, comments)
  {
    hide OpensSection, IsEntryOf, IsComment;
    OpensSectionNewline(line);
    EntryNewline(line, key);
  }

  lemma {:induction false} StopAtWithNewline(text: string, key: string, comments: bool)
    requires StopAt(text, key, comments) == |text|
    ensures StopAt(text + "\n", key, comments) == |text| + 1
    decreases |text|
  {
    hide Stops, LineLen;
    StopsNewline("", key, comments);
    assert "" + "\n" == "\n" == "\n" + "";
    NothingStops(key, comments);
    if text == "" {
      BlankLineFirst("");
      assert text + "\n" == "\n";
    } else if IsWhole(FirstLine(text)) {
      WholeLineFirst(text, "\n");
      StopAtWithNewline(OtherLines(text), key, comments);
    } else {
      LastLine(text);
      StopsNewline(text, key, comments);
      FirstLineIs(text + "\n", text + "\n");
      assert OtherLines(text + "\n") == "";
    }
  }

  lemma NothingStops(key: string, comments: bool)
    ensures !Stops("", key, comments)
  {
  }

  lemma NewlineForCloses(s: string)
    ensures Closed(s + NewlineFor(s))
  {
    NewlineCloses(s + NewlineFor(s));
  }

  lemma StopAtNewlineFor(s: string, key: string, comments: bool)
    requires StopAt(s, key, comments) == |s|
    ensures StopAt(s + NewlineFor(s), key, comments) == |s + NewlineFor(s)|
  {
    StopAtWithNewline(s, key, comments);
    assert s + "" == s;
  }

  // ----- the written line -----------------------------------------------------------------------

  predicate Storable(key: string, value: string) {
    key != "" && PlainKey(key) && OneLine(key) && ValueFits(key, value) && OneLine(value)
  }

  // What reading the written value gives.
  function ReadBack(key: string, value: string): string {
    ReadValue(Copied(value, ValueRoom(key), CheckEnquote(value)) + "\n")
  }

  lemma KeyLineStops(key: string, value: string, comments: bool)
    requires PlainKey(key) && key != ""
    ensures Stops(KeyLine(key, value), key, comments) && !OpensSection(KeyLine(key, value))
  {
    hide KeyLine, Copied, CheckEnquote, ValueRoom;
    KeyLineSplit(key, value);
    StripTrailingIs(key, key);
  }

  lemma CopiedWhole(t: string, quotes: QuoteOption)
    requires quotes != Enquote && |t| < BUFFER_SIZE
    ensures Copied(t, BUFFER_SIZE, quotes) == if quotes == Dequote then Unescaped(t, |t|) else t
  {
    UnescapedRoom(t, BUFFER_SIZE - 1);
  }

  // What is read of the text behind the sign.
  lemma ReadBehindSign(printed: string)
    requires |printed| < BUFFER_SIZE
    ensures var (t, quotes) := Cleaned(SkipLeading(printed)); Copied(t, BUFFER_SIZE, quotes) == ReadValue(printed)
  {
    hide Cleaned, Copied, Unescaped, LeadingBlanks;
    var (t, quotes) := Cleaned(SkipLeading(printed));
    CleanedShorter(SkipLeading(printed));
    CopiedWhole(t, quotes);
  }

  lemma ValueOnKeyLine(key: string, value: string)
    requires PlainKey(key)
    ensures ValueOn(KeyLine(key, value)) == ReadBack(key, value)
  {
    hide KeyLine, Copied, CheckEnquote, ValueRoom, SplitAt, LeadingBlanks, Cleaned, ReadValue;
    KeyLineSplit(key, value);
    ReadBehindSign(Copied(value, ValueRoom(key), CheckEnquote(value)) + "\n");
  }

  lemma CleanedShorter(s: string)
    ensures |Cleaned(s).0| <= |s| && Cleaned(s).1 != Enquote
  {
  }

  lemma WrittenIsFound(a: string, b: string, key: string, value: string)
    requires Storable(key, value) && Closed(a) && StopAt(a, key, false) == |a|
    ensures GetInBody(a + KeyLine(key, value) + b, key) == Some(ReadBack(key, value))
  {
    hide StopAt, Closed, KeyLine, ValueOn, Stops, OpensSection, ReadBack, PlainKey, ValueFits;
    var line := KeyLine(key, value);
    var body := a + line + b;
    assert body == a + (line + b);
    KeyLineFirst(key, value, b);
    KeyLineStops(key, value, false);
    StopAtAppend(a, line + b, key, false);
    StopAtStep(line + b, key, false);
    PrefixIs(body, a, line + b);
    ValueOnKeyLine(key, value);
  }

  lemma PutInBodyIsFound(body: string, key: string, value: string)
    requires Storable(key, value)
    ensures GetInBody(PutInBody(body, key, Some(value)), key) == Some(ReadBack(key, value))
  {
    hide StopAt, Closed, KeyLine, GetInBody, OpensSection, ReadBack, ValueFits, FirstLine, OtherLines, NewlineFor;
    SearchesAgree(body, key);
    var e := StopAt(body, key, true);
    if e == |body| {
      NewlineForCloses(body);
      StopAtNewlineFor(body, key, false);
      WrittenIsFound(body + NewlineFor(body), "", key, value);
      var all := body + NewlineFor(body) + KeyLine(key, value);
      assert all + "" == all == body + (NewlineFor(body) + KeyLine(key, value));
    } else {
      BeforeStop(body, key, false);
      WrittenIsFound(body[..e], body[e..], key, value);
      WrittenIsFound(body[..e], OtherLines(body[e..]), key, value);
    }
  }

  // ----- the section of the written line ------------------------------------------------------------

  // Another body under the same header.
  lemma SameHeader(text: string, section: string, body: string)
    requires section != "" && HasSection(text, section)
    requires IsWhole(FirstLine(text[HeaderAt(text, section)..]))
    ensures var p := BodyAt(text, section);
            var t := text[..p] + body;
            HasSection(t, section) && BodyAt(t, section) == p && t[p..] == body
            && HeaderAt(t, section) == HeaderAt(text, section)
  {
    hide IsHeaderOf, FirstLine, OtherLines, HeaderAt, Closed;
    var h := HeaderAt(text, section);
    BeforeHeader(text, section);
    FirstLineTwice(text[h..]);
    UnderHeader(text[..h], FirstLine(text[h..]), section, body);
    SlicesAt(text, h, |FirstLine(text[h..])|);
    assert text[..BodyAt(text, section)] == text[..h] + FirstLine(text[h..]);
  }

  lemma FirstLineTwice(s: string)
    ensures FirstLine(s) <= s
    ensures s != "" ==> FirstLine(FirstLine(s)) == FirstLine(s)
  {
    if s != "" { FirstLineIs(FirstLine(s), FirstLine(s)); }
  }

  lemma UnderHeader(a: string, line: string, section: string, body: string)
    requires Closed(a) && HeaderAt(a, section) == |a|
    requires IsHeaderOf(line, section) && IsWhole(line) && FirstLine(line) == line
    ensures var t := a + line + body;
            && HeaderAt(t, section) == |a| < |t|
            && (section != "" ==> BodyAt(t, section) == |a + line|)
            && t[|a + line|..] == body
  {
    hide IsHeaderOf, Closed, HeaderAt, FirstLine, OtherLines;
    var t := a + line + body;
    assert t == a + (line + body);
    HeaderAtAppend(a, line + body, section);
    WholeLineFirst(line, body);
    HeaderAtStep(line + body, section);
    PrefixIs(t, a, line + body);
    PrefixIs(t, a + line, body);
  }

  // The header is the last line, without a newline.
  lemma OpenHeader(text: string, section: string, body: string)
    requires section != "" && HasSection(text, section)
    requires !IsWhole(FirstLine(text[HeaderAt(text, section)..]))
    ensures BodyAt(text, section) == |text|
    ensures var t := text + "\n" + body;
            HasSection(t, section) && BodyAt(t, section) == |text| + 1 && t[|text| + 1..] == body
  {
    hide IsHeaderOf, HeaderAt, Closed, FirstLine, OtherLines, IsWhole;
    var h := HeaderAt(text, section);
    BeforeHeader(text, section);
    LastLine(text[h..]);
    HeaderWithNewline(text[h..], section);
    NewlineEnds(text[h..]);
    UnderHeader(text[..h], text[h..] + "\n", section, body);
    assert text[..h] + (text[h..] + "\n") == text + "\n";
  }

  lemma NewlineEnds(line: string)
    requires OneLine(line) && |line| < ROOM
    ensures IsWhole(line + "\n") && FirstLine(line + "\n") == line + "\n"
  {
    FirstLineIs(line + "\n", line + "\n");
  }

  lemma PutUnderHeader(text: string, section: string, key: string, value: string)
    requires Storable(key, value) && section != "" && HasSection(text, section)
    ensures GetKey(PutKeyText(text, section, key, Some(value)), section, key) == Some(ReadBack(key, value))
  {
    hide HasSection, BodyAt, PutInBody, GetInBody, ReadBack, HeaderAt, FirstLine, KeyLine, IsWhole, PlainKey, ValueFits;
    var h, p := HeaderAt(text, section), BodyAt(text, section);
    if IsWhole(FirstLine(text[h..])) {
      SameHeader(text, section, PutInBody(text[p..], key, Some(value)));
      PutInBodyIsFound(text[p..], key, value);
    } else {
      OpenHeader(text, section, KeyLine(key, value));
      EmptyBody(key, value);
      assert text[p..] == "" && text[..p] == text;
      assert text + ("\n" + KeyLine(key, value)) == text + "\n" + KeyLine(key, value);
      NothingClosed(key);
      WrittenIsFound("", "", key, value);
      assert "" + KeyLine(key, value) + "" == KeyLine(key, value);
    }
  }

  lemma NothingClosed(key: string)
    ensures Closed("") && StopAt("", key, false) == 0
  {
  }

  lemma EmptyBody(key: string, value: string)
    ensures PutInBody("", key, Some(value)) == "\n" + KeyLine(key, value)
  {
    hide KeyLine;
  }

  // A section added at the end of the file, with one entry.
  lemma NewSectionFound(front: string, section: string, entry: string)
    requires Closed(front) && HeaderAt(front, section) == |front| && PlainSection(section)
    ensures var t := front + SectionLine(section) + entry;
            HasSection(t, section) && BodyAt(t, section) == |front| + |SectionLine(section)|
                && t[BodyAt(t, section)..] == entry
  {
    hide HeaderAt, FirstLine, OtherLines, IsWhole, SectionLine, Closed, IsHeaderOf, BodyAt;
    SectionLineIsHeader(section);
    SectionLineFirst(section, "");
    assert SectionLine(section) + "" == SectionLine(section);
    SectionLineWhole(section);
    UnderHeader(front, SectionLine(section), section, entry);
  }

  lemma PutInNewSection(text: string, section: string, key: string, value: string)
    requires Storable(key, value) && PlainSection(section) && !HasSection(text, section)
    ensures GetKey(PutKeyText(text, section, key, Some(value)), section, key) == Some(ReadBack(key, value))
  {
    hide GetInBody, ReadBack, HeaderAt, FirstLine, KeyLine, SectionLine, NeedsNewline, Closed, BodyAt, PlainKey,
         ValueFits, StopAt;
    var entry := KeyLine(key, value);
    var front := text + NewlineFor(text);
    FrontIsClosed(text, section);
    NewSectionFound(front, section, entry);
    JoinThree(text, NewlineFor(text), SectionLine(section), entry);
    NothingClosed(key);
    WrittenIsFound("", "", key, value);
    assert "" + entry + "" == entry;
  }

  lemma JoinThree(a: string, b: string, c: string, d: string)
    ensures a + (b + c + d) == (a + b) + c + d
  {
  }

  lemma SectionLineWhole(section: string)
    requires PlainSection(section)
    ensures IsWhole(SectionLine(section))
  {
  }

  lemma PutThenGetCopied(text: string, section: string, key: string, value: string)
    requires Storable(key, value) && (HasSection(text, section) || PlainSection(section))
    ensures GetKey(PutKeyText(text, section, key, Some(value)), section, key) == Some(ReadBack(key, value))
  {
    hide GetInBody, PutInBody, ReadBack, HeaderAt, FirstLine, NewlineFor, Printed, SectionLine, PlainKey, ValueFits;
    if section == "" {
      PutInBodyIsFound(text, key, value);
      assert text[0..] == text && text[..0] == "";
    } else if HasSection(text, section) {
      PutUnderHeader(text, section, key, value);
    } else {
      PutInNewSection(text, section, key, value);
    }
  }

  /** After ini_puts, by whichever of its paths, the key reads as the value written, if and only
      if it did so before, or the value is printed in quotes or has no blank at either end. */
  lemma PutThenGet(text: string, section: string, key: string, value: string)
    requires Storable(key, value) && (HasSection(text, section) || PlainSection(section))
    ensures GetKey(PutText(text, section, key, value), section, key) == Some(value) <==>
              || GetKey(text, section, key) == Some(value)
              || CheckEnquote(value) == Enquote || NoOuterBlanks(value)
  {
    hide GetKey, PutKeyText, Overwritten, SameLength, HasSection, CheckEnquote;
    if GetKey(text, section, key) != Some(value) {
      PutThenGetCopied(text, section, key, value);
      if GetKey(text, section, key).Some? { ShortcutIsCopy(text, section, key, value); }
      ValueRoundTrip(key, value);
    }
  }
}

/** What a file means to getkeystring, line by line: comments and other keys are passed over, the
    first line that sets the key in the section gives the value, and letters match in either case. */
module IniKeyMeaning {
  import opened Basics
  import opened CText
  import opened IniLines
  import opened IniQuoting
  import opened IniRoundTrip
  import opened IniKey
  import opened IniKeyRead
  import opened IniKeyFrame
  import opened IniMeaning

  // A line without its newline that is read at once.
  predicate FitsRoom(l: string) {
    '\n' !in l && |l| + 1 <= ROOM
  }

  function Behind(l: string, rest: string): string {
    l + "\n" + rest
  }

  lemma FirstOfLines(l: string, rest: string)
    requires FitsRoom(l)
    ensures FirstLine(Behind(l, rest)) == l + "\n" && OtherLines(Behind(l, rest)) == rest
  {
    var t := Behind(l, rest);
    assert t[|l|] == '\n' && t[..|l| + 1] == l + "\n" && t[|l| + 1..] == rest;
    LineLenIs(t, ROOM, |l| + 1);
  }

  lemma EmptyIsNothing(section: string, key: string)
    ensures !IsHeaderOf("", section) && !OpensSection("") && !IsEntryOf("", key)
  {
    hide StripTrailing, EqualNoCase, LastIndexOf;
    assert SkipLeading("") == "";
  }

  lemma NothingOnBlank(st: Scan, section: string, key: string)
    ensures ScanLine(st, "", section, key) == st
  {
    EmptyIsNothing(section, key);
    hide IsHeaderOf, OpensSection, IsEntryOf, IsComment, ValueOn;
  }

  // The scan goes on with what the line makes of it.
  lemma ScanBehind(st: Scan, l: string, rest: string, section: string, key: string)
    requires FitsRoom(l)
    ensures ScanText(st, Behind(l, rest), section, key)
         == ScanText(ScanLine(st, l, section, key), rest, section, key)
  {
    hide ScanLine, FirstLine, OtherLines;
    FirstOfLines(l, rest);
    if l == "" {
      assert l + "\n" == "\n";
      ScanBlankLine(st, section, key);
      NothingOnBlank(st, section, key);
    } else {
      ScanLineNewline(st, l, section, key);
    }
  }

  // ----- lines that are passed over ----------------------------------------------------------------------

  // A comment, or a line that neither opens a section nor has a sign.
  predicate SaysNothing(l: string) {
    IsCommentLine(l) || (!OpensSection(l) && '=' !in l && ':' !in l)
  }

  lemma CommentOpensNothing(l: string)
    requires IsCommentLine(l)
    ensures IsComment(l) && !OpensSection(l)
  {
    var i :| 0 <= i < |l| && (l[i] == ';' || l[i] == '#') && AllBlank(l[..i]);
    BlanksThen(l, i);
  }

  lemma NoSignNoEntry(l: string, key: string)
    requires '=' !in l && ':' !in l
    ensures !IsEntryOf(l, key)
  {
    var s := SkipLeading(l);
    IndexOfIs(s, '=', |s|);
    IndexOfIs(s, ':', |s|);
  }

  lemma NothingChangesScan(st: Scan, l: string, section: string, key: string)
    requires SaysNothing(l)
    ensures ScanLine(st, l, section, key) == st
  {
    hide IsCommentLine, OpensSection, IsEntryOf, IsComment, IsHeaderOf;
    if IsCommentLine(l) { CommentOpensNothing(l); } else { NoSignNoEntry(l, key); }
    NoHeader(l, section);
  }

  /** Comments and lines without a sign are passed over in every section, wherever they stand. */
  lemma NothingIsPassedOver(a: string, l: string, b: string, section: string, key: string)
    requires EndsLine(a) && FitsRoom(l) && SaysNothing(l)
    ensures GetKey(a + Behind(l, b), section, key) == GetKey(a + b, section, key)
  {
    hide ScanText, ScanLine, GetKey, SaysNothing, FitsRoom;
    NewlineCloses(a);
    var start := StartIn(section);
    var st := ScanText(start, a, section, key);
    GetIsScan(a + Behind(l, b), section, key);
    GetIsScan(a + b, section, key);
    ScanAppend(start, a, Behind(l, b), section, key);
    ScanAppend(start, a, b, section, key);
    ScanBehind(st, l, b, section, key);
    NothingChangesScan(st, l, section, key);
  }

  // ----- headers --------------------------------------------------------------------------------------------

  lemma HeaderIsSeen(blanks: string, name: string, tail: string, section: string)
    requires AllBlank(blanks) && ']' !in tail
    ensures OpensSection(blanks + "[" + name + "]" + tail)
    ensures IsHeaderOf(blanks + "[" + name + "]" + tail, section) <==> EqualNoCase(name, section)
  {
    var l := blanks + "[" + name + "]" + tail;
    assert l[..|blanks|] == blanks && l[|blanks|] == '[';
    BlanksThen(l, |blanks|);
    var s := SkipLeading(l);
    assert s == "[" + name + "]" + tail;
    LastIndexOfIs(s, ']', |name| + 1);
    assert s[1..|name| + 1] == name;
  }

  /** Behind the header of a section the keys are those of the file's beginning; a header in any case
      of letters will do, and before it there are none. */
  lemma HeaderIsFound(blanks: string, name: string, tail: string, rest: string, section: string, key: string)
    requires var l := blanks + "[" + name + "]" + tail;
             FitsRoom(l) && AllBlank(blanks) && ']' !in tail && section != ""
    ensures GetKey(Behind(blanks + "[" + name + "]" + tail, rest), section, key)
         == GetKey(rest, if EqualNoCase(name, section) then "" else section, key)
  {
    hide ScanText, GetKey, OpensSection, FitsRoom, IsHeaderOf, EqualNoCase;
    var l := blanks + "[" + name + "]" + tail;
    HeaderIsSeen(blanks, name, tail, section);
    GetIsScan(Behind(l, rest), section, key);
    ScanBehind(Seeking, l, rest, section, key);
    if EqualNoCase(name, section) {
      InsideIsStart(rest, section, key);
    } else {
      GetIsScan(rest, section, key);
    }
  }

  lemma InsideIsStart(rest: string, section: string, key: string)
    ensures Result(ScanText(Inside, rest, section, key)) == GetKey(rest, "", key)
  {
    hide ScanText, GetInBody;
    ScanInside(rest, section, key);
    assert rest[0..] == rest;
  }

  /** A header ends the section in front of it. */
  lemma HeaderEndsSection(l: string, rest: string, key: string)
    requires FitsRoom(l) && OpensSection(l)
    ensures GetKey(Behind(l, rest), "", key) == None
  {
    hide ScanText, GetKey, FitsRoom, IsEntryOf;
    GetIsScan(Behind(l, rest), "", key);
    ScanBehind(Inside, l, rest, "", key);
    OverStays(None, rest, "", key);
  }

  // ----- settings --------------------------------------------------------------------------------------------

  // A line that sets the key to the value, with blanks around both and a comment behind.
  predicate Sets(l: string, indent: string, key: string, gap: string, sign: char, gap2: string, value: string,
      gap3: string, remark: string)
  {
    var rest := gap2 + value + gap3 + remark;
    && l == indent + key + gap + [sign] + rest && FitsRoom(l) && Splits(key, sign, rest)
    && key != "" && key[0] != ';' && key[0] != '#' && key[0] != '['
    && AllBlank(indent) && AllBlank(gap) && AllBlank(gap2) && AllBlank(gap3)
    && NoOuterBlanks(key) && IsUnquoted(value) && IsRemark(remark)
  }

  lemma SettingParts(indent: string, key: string, gap: string, sign: char, rest: string)
    requires AllBlank(indent) && AllBlank(gap) && NoOuterBlanks(key) && Splits(key, sign, rest)
    ensures var s := SkipLeading(indent + key + gap + [sign] + rest);
            var front := KeyPart(key, gap);
            && s == front + [sign] + rest && SplitAt(s) == |front|
            && s[..|front|] == front && s[|front| + 1..] == rest && StripTrailing(front) == key
  {
    hide StripTrailing, SplitAt, LeadingBlanks;
    var front := KeyPart(key, gap);
    assert indent + key + gap + [sign] + rest == indent + key + gap + ([sign] + rest);
    BehindIndent(indent, key, gap, [sign] + rest);
    assert front + ([sign] + rest) == front + [sign] + rest;
    SignIsFound(front, sign, rest);
    StripTrailingIs(front, key);
  }

  // What the line is to the search for another key, or the same.
  lemma SettingIsSeen(l: string, indent: string, key: string, gap: string, sign: char, rest: string, other: string)
    requires l == indent + key + gap + [sign] + rest && |l| < BUFFER_SIZE && Splits(key, sign, rest)
    requires key != "" && key[0] != ';' && key[0] != '#' && key[0] != '['
    requires AllBlank(indent) && AllBlank(gap) && NoOuterBlanks(key)
    ensures !OpensSection(l) && !IsComment(l)
    ensures IsEntryOf(l, other) <==> EqualNoCase(key, other)
    ensures ValueOn(l) == ReadValue(rest)
  {
    SettingParts(indent, key, gap, sign, rest);
    ReadBehindSign(rest);
    SameLengths(key, other);
    hide ReadValue, StripTrailing, SplitAt, LeadingBlanks, Copied, Cleaned, EqualNoCase, AllBlank, NoOuterBlanks,
         Splits;
    var s := SkipLeading(l);
    assert s[0] == KeyPart(key, gap)[0] == key[0];
  }

  lemma SameLengths(key: string, other: string)
    ensures EqualNoCase(key, other) ==> |key| == |other|
  {
  }

  /** In the current section the first line that sets the key, in whatever case its letters are, gives
      the value; a line that sets another key is passed over. */
  lemma SettingIsFound(l: string, indent: string, key: string, gap: string, sign: char, gap2: string, value: string,
      gap3: string, remark: string, rest: string, sought: string)
    requires Sets(l, indent, key, gap, sign, gap2, value, gap3, remark)
    ensures GetKey(Behind(l, rest), "", sought)
         == if EqualNoCase(key, sought) then Some(value) else GetKey(rest, "", sought)
  {
    hide ScanText, GetKey, EqualNoCase, IsEntryOf, OpensSection, IsComment, ValueOn, IsUnquoted, IsRemark, AllBlank,
         ReadValue, Splits;
    UnquotedIsRead(gap2, value, gap3, remark);
    SettingIsSeen(l, indent, key, gap, sign, gap2 + value + gap3 + remark, sought);
    GetIsScan(Behind(l, rest), "", sought);
    GetIsScan(rest, "", sought);
    ScanBehind(Inside, l, rest, "", sought);
    if EqualNoCase(key, sought) { OverStays(Some(value), rest, "", sought); }
  }

  /** Outside its section a line is passed over, whatever it sets. */
  lemma OtherSectionIsPassedOver(l: string, rest: string, section: string, key: string)
    requires FitsRoom(l) && section != "" && !OpensSection(l)
    ensures GetKey(Behind(l, rest), section, key) == GetKey(rest, section, key)
  {
    hide ScanText, GetKey, FitsRoom, IsHeaderOf, OpensSection;
    NoHeader(l, section);
    GetIsScan(Behind(l, rest), section, key);
    GetIsScan(rest, section, key);
    ScanBehind(Seeking, l, rest, section, key);
  }
}

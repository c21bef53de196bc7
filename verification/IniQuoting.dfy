/** How minIni prints a value and reads it back: ini_strncpy, check_enquote, cleanstring. */
module IniQuoting {
  import opened Basics
  import opened CText
  import opened IniLines

  datatype QuoteOption = QuoteNone | Enquote | Dequote

  // ----- printing -----------------------------------------------------------------------

  function CheckEnquote(value: string): QuoteOption {
    if '"' in value || ';' in value || '#' in value
       || (value != "" && value[|value| - 1] == ' ')
    then Enquote else QuoteNone
  }

  // Every double quote gets a backslash in front of it.
  function Escaped(s: string): string {
    if s == "" then ""
    else if s[0] == '"' then ['\\', '"'] + Escaped(s[1..])
    else [s[0]] + Escaped(s[1..])
  }

  // As much of Escaped(s) as fits in `room` characters without splitting an escape pair.
  function EscapedWithin(s: string, room: nat): (r: string)
    ensures |r| <= room
    decreases |s|
  {
    if s == "" || room == 0 then ""
    else if s[0] == '"' then
      if room == 1 then "" else ['\\', '"'] + EscapedWithin(s[1..], room - 2)
    else [s[0]] + EscapedWithin(s[1..], room - 1)
  }

  // At most `room` characters of s, with "" and \" read as one double quote.
  function Unescaped(s: string, room: nat): (r: string)
    ensures |r| <= room && |r| <= |s|
    decreases |s|
  {
    if s == "" || room == 0 then ""
    else if |s| > 1 && (s[0] == '"' || s[0] == '\\') && s[1] == '"' then
      ['"'] + Unescaped(s[2..], room - 1)
    else [s[0]] + Unescaped(s[1..], room - 1)
  }

  // What ini_strncpy leaves in a destination of maxlen bytes.
  function Copied(s: string, maxlen: nat, option: QuoteOption): (r: string)
    requires maxlen > 0
    ensures |r| < maxlen
  {
    if option == Enquote && maxlen >= 3 then "\"" + EscapedWithin(s, maxlen - 3) + "\""
    else if option == Dequote then Unescaped(s, maxlen - 1)
    else s[..Min(|s|, maxlen - 1)]
  }

  const KEY_ROOM: nat := BUFFER_SIZE - 3
  const SECTION_ROOM: nat := BUFFER_SIZE - 4

  function RenderedKey(key: string): (r: string)
    ensures |r| < KEY_ROOM
  {
    Copied(key, KEY_ROOM, QuoteNone)
  }

  // The room ini_strncpy has for the value in writekey.
  function ValueRoom(key: string): (n: nat)
    ensures n > 0
  {
    BUFFER_SIZE - |RenderedKey(key)| - 1 - 2
  }

  // The line writekey produces.
  function KeyLine(key: string, value: string): (line: string)
    ensures 2 <= |line| <= ROOM
    ensures line[|line| - 1] == '\n'
  {
    RenderedKey(key) + "=" + Copied(value, ValueRoom(key), CheckEnquote(value)) + "\n"
  }

  // The line writesection produces.
  function SectionLine(section: string): (line: string)
    ensures |line| <= ROOM
    ensures line != "" ==> line[|line| - 1] == '\n'
  {
    if section == "" then "" else "[" + Copied(section, SECTION_ROOM, QuoteNone) + "]\n"
  }

  // ----- reading ------------------------------------------------------------------------

  // Where cleanstring ends the text: at the first ';' or '#' outside double quotes.
  function CommentAt(s: string, inString: bool): (n: nat)
    ensures n <= |s|
    decreases |s|
  {
    if s == "" || ((s[0] == ';' || s[0] == '#') && !inString) then 0
    else if s[0] == '"' then
      if |s| > 1 && s[1] == '"' then 2 + CommentAt(s[2..], inString)
      else 1 + CommentAt(s[1..], !inString)
    else if s[0] == '\\' && |s| > 1 && s[1] == '"' then 2 + CommentAt(s[2..], inString)
    else 1 + CommentAt(s[1..], inString)
  }

  function Uncommented(s: string): string {
    StripTrailing(s[..CommentAt(s, false)])
  }

  predicate IsQuoted(s: string) {
    s != "" && s[0] == '"' && s[|s| - 1] == '"'
  }

  // cleanstring: without a trailing comment, trailing blanks and surrounding quotes.  A
  // lone double quote counts as both quotes.
  function Cleaned(s: string): (string, QuoteOption) {
    WithoutQuotes(Uncommented(s))
  }

  function WithoutQuotes(t: string): (string, QuoteOption) {
    if IsQuoted(t) then (if |t| == 1 then "" else t[1..|t| - 1], Dequote) else (t, QuoteNone)
  }

  // The value read from the text after the equal sign.
  function ReadValue(s: string): string {
    var (t, quotes) := Cleaned(SkipLeading(s));
    if quotes == Dequote then Unescaped(t, |t|) else t
  }

  datatype Line = Skipped | Header(name: string) | Pair(key: string, value: string)

  // Position of the sign that splits key and value: the first '=', else the first ':'.
  function SplitAt(s: string): (e: nat)
    ensures e <= |s|
  {
    if IndexOf(s, '=') < |s| then IndexOf(s, '=') else IndexOf(s, ':')
  }

  // What ini_browse makes of a line.
  function ParseLine(line: string): Line {
    var s := SkipLeading(line);
    if s == "" || s[0] == ';' || s[0] == '#' then Skipped
    else if s[0] == '[' && LastIndexOf(s, ']') >= 0 then Header(s[1..LastIndexOf(s, ']')])
    else
      var e := SplitAt(s);
      if e == |s| then Skipped
      else Pair(StripTrailing(s[..e]), ReadValue(s[e + 1..]))
  }

  // ----- the round trip -----------------------------------------------------------------

  lemma {:induction false} EscapedWithinAll(s: string, room: nat)
    requires |Escaped(s)| <= room
    ensures EscapedWithin(s, room) == Escaped(s)
    decreases |s|
  {
    if s != "" {
      EscapedWithinAll(s[1..], if s[0] == '"' then room - 2 else room - 1);
    }
  }

  // Room beyond the length of the text makes no difference.
  lemma {:induction false} UnescapedRoom(s: string, room: nat)
    requires room >= |s|
    ensures Unescaped(s, room) == Unescaped(s, |s|)
    decreases |s|
  {
    if s == "" {
    } else if |s| > 1 && (s[0] == '"' || s[0] == '\\') && s[1] == '"' {
      UnescapedRoom(s[2..], room - 1);
      UnescapedRoom(s[2..], |s| - 1);
    } else {
      UnescapedRoom(s[1..], room - 1);
    }
  }

  lemma EscapedHead(s: string)
    ensures s == "" <==> Escaped(s) == ""
    ensures s != "" ==> Escaped(s)[0] != '"'
  {
  }

  // Reading undoes the escaping, whatever backslashes the value holds.
  lemma {:induction false} UnescapedEscaped(s: string, room: nat)
    requires room >= |s|
    ensures Unescaped(Escaped(s), room) == s
    decreases |s|
  {
    if s != "" {
      var e := Escaped(s[1..]);
      EscapedHead(s[1..]);
      UnescapedEscaped(s[1..], room - 1);
      if s[0] == '"' {
        assert Escaped(s)[2..] == e;
      } else {
        assert Escaped(s)[1..] == e;
      }
    }
  }

  // A single character that is neither a comment sign nor in quotes is stepped over.
  lemma CommentAtNewline(s: string, inString: bool)
    requires |s| == 1 && s[0] == '\n'
    ensures CommentAt(s, inString) == 1
  {
  }

  lemma CommentAtClosingQuote(s: string)
    requires |s| == 2 && s[0] == '"' && s[1] == '\n'
    ensures CommentAt(s, true) == 2
  {
    CommentAtNewline(s[1..], false);
  }

  lemma CommentAtBackslashQuote(s: string)
    requires |s| == 3 && s[0] == '\\' && s[1] == '"' && s[2] == '\n'
    ensures CommentAt(s, true) == 3
  {
    CommentAtNewline(s[2..], true);
  }

  // No part of an escaped value, nor its closing quote, ends the text as a comment would.
  lemma {:induction false} EscapedIsNoComment(s: string)
    ensures CommentAt(Escaped(s) + "\"\n", true) == |Escaped(s)| + 2
    decreases |s|
  {
    if s == "" {
      CommentAtClosingQuote(Escaped(s) + "\"\n");
    } else if |s| == 1 && s[0] == '\\' {
      assert Escaped(s[1..]) == "";
      CommentAtBackslashQuote(Escaped(s) + "\"\n");
    } else {
      EscapedIsNoComment(s[1..]);
      EscapedHead(s[1..]);
      var rest := Escaped(s[1..]) + "\"\n";
      CommentAtEscapedStep(s, rest);
      assert Escaped(s) + "\"\n" == (if s[0] == '"' then ['\\', '"'] else [s[0]]) + rest;
    }
  }

  lemma CommentAtEscapedStep(s: string, rest: string)
    requires s != "" && rest != ""
    requires s[0] == '\\' ==> rest[0] != '"'
    ensures var head := if s[0] == '"' then ['\\', '"'] else [s[0]];
            CommentAt(head + rest, true) == |head| + CommentAt(rest, true)
  {
    if s[0] == '"' {
      assert (['\\', '"'] + rest)[2..] == rest;
    } else {
      assert ([s[0]] + rest)[1..] == rest;
    }
  }

  lemma UncommentedEnquoted(s: string)
    requires s != ""
    ensures Uncommented("\"" + Escaped(s) + "\"\n") == "\"" + Escaped(s) + "\""
  {
    hide Escaped, StripTrailing;
    var quoted := "\"" + Escaped(s) + "\"";
    var t := "\"" + Escaped(s) + "\"\n";
    CommentAtEnquoted(s);
    assert t[..|t|] == t && quoted <= t;
    StripTrailingIs(t, quoted);
  }

  lemma CommentAtEnquoted(s: string)
    requires s != ""
    ensures CommentAt("\"" + Escaped(s) + "\"\n", false) == |Escaped(s)| + 3
  {
    var t := "\"" + Escaped(s) + "\"\n";
    EscapedHead(s);
    EscapedIsNoComment(s);
    hide Escaped;
    assert t[1..] == Escaped(s) + "\"\n";
  }

  lemma ReadEnquoted(s: string)
    requires s != ""
    ensures ReadValue("\"" + Escaped(s) + "\"\n") == s
  {
    hide Escaped, Uncommented, Unescaped;
    var quoted := "\"" + Escaped(s) + "\"";
    LeadingBlanksIs("\"" + Escaped(s) + "\"\n", 0);
    UncommentedEnquoted(s);
    assert quoted[1..|quoted| - 1] == Escaped(s);
    UnescapedRoom(Escaped(s), |Escaped(s)|);
    EscapedLonger(s);
    UnescapedEscaped(s, |Escaped(s)|);
  }

  lemma EscapedLonger(s: string)
    ensures |Escaped(s)| >= |s|
  {
  }

  lemma {:induction false} NoCommentIn(s: string)
    requires '"' !in s && ';' !in s && '#' !in s
    ensures CommentAt(s, false) == |s|
    decreases |s|
  {
    if s != "" {
      assert '"' !in s[1..];
      NoCommentIn(s[1..]);
    }
  }

  predicate NoOuterBlanks(s: string) {
    s == "" || (!Blank(s[0]) && !Blank(s[|s| - 1]))
  }

  // A value printed without quotes loses its outer blanks and nothing else.
  lemma ReadPlain(s: string)
    requires CheckEnquote(s) == QuoteNone
    ensures NoOuterBlanks(ReadValue(s + "\n"))
    ensures NoOuterBlanks(s) ==> ReadValue(s + "\n") == s
  {
    var t := SkipLeading(s + "\n");
    assert forall c :: c in t ==> c in s || c == '\n';
    NoCommentIn(t);
    assert t[..|t|] == t;
    var r := StripTrailing(t);
    assert r <= t && (r != "" ==> r[0] == t[0]);
    assert ReadValue(s + "\n") == r;
    if s == "" {
      LeadingBlanksIs(s + "\n", 1);
    } else if NoOuterBlanks(s) {
      LeadingBlanksIs(s + "\n", 0);
      StripTrailingIs(t, s);
    }
  }

  // The value survives the buffer's length limit.
  predicate ValueFits(key: string, value: string) {
    (if CheckEnquote(value) == Enquote then |Escaped(value)| + 2 else |value|) < ValueRoom(key)
  }

  /** Printing a value and reading it back gives the same value exactly when it was put in
      quotes or has no blank at either end. */
  lemma ValueRoundTrip(key: string, value: string)
    requires ValueFits(key, value)
    ensures ReadValue(Copied(value, ValueRoom(key), CheckEnquote(value)) + "\n") == value
       <==> CheckEnquote(value) == Enquote || NoOuterBlanks(value)
  {
    var room := ValueRoom(key);
    if CheckEnquote(value) == Enquote {
      EscapedWithinAll(value, room - 3);
      var printed := Copied(value, room, Enquote);
      assert printed + "\n" == "\"" + Escaped(value) + "\"\n";
      ReadEnquoted(value);
    } else {
      assert Copied(value, room, QuoteNone) == value;
      ReadPlain(value);
    }
  }

  // A key that stands on its own line without being taken for anything else.
  predicate PlainKey(key: string) {
    && |key| < KEY_ROOM
    && NoOuterBlanks(key)
    && '=' !in key
    && (key != "" ==> key[0] != ';' && key[0] != '#' && key[0] != '[')
  }

  predicate PlainValue(key: string, value: string) {
    ValueFits(key, value) && (CheckEnquote(value) == Enquote || NoOuterBlanks(value))
  }

  // Where the line splits into the key and what is printed of the value.
  lemma KeyLineSplit(key: string, value: string)
    requires PlainKey(key)
    ensures var line := KeyLine(key, value);
            && SkipLeading(line) == line && SplitAt(line) == |key| < |line| && line[..|key|] == key
            && line[|key| + 1..] == Copied(value, ValueRoom(key), CheckEnquote(value)) + "\n"
            && line[0] == if key == "" then '=' else key[0]
  {
    hide CheckEnquote;
    var printed := Copied(value, ValueRoom(key), CheckEnquote(value)) + "\n";
    var line := KeyLine(key, value);
    assert RenderedKey(key) == key;
    assert line == key + "=" + printed;
    LeadingBlanksIs(line, 0);
    IndexOfIs(line, '=', |key|);
  }

  /** The line writekey produces reads back as the key and the value it was made from. */
  lemma KeyLineRoundTrip(key: string, value: string)
    requires PlainKey(key) && PlainValue(key, value)
    ensures ParseLine(KeyLine(key, value)) == Pair(key, value)
  {
    hide ReadValue, CheckEnquote, KeyLine, Copied, ValueRoom, SplitAt;
    KeyLineSplit(key, value);
    StripTrailingIs(key, key);
    ValueRoundTrip(key, value);
  }
}

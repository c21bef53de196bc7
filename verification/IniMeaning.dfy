/** What the lines of a file mean to ini_browse, in the terms of the file format: comments, blank lines
    and lines without a sign are passed over, a header starts a section, and a line with a sign is a
    setting of the current section. */
module IniMeaning {
  import opened CText
  import opened IniLines
  import opened IniQuoting
  import opened IniBrowse
  import opened IniRoundTrip

  predicate AllBlank(s: string) {
    forall i :: 0 <= i < |s| ==> Blank(s[i])
  }

  // A line without its newline, short enough to be read at once in its section.
  predicate IsLine(l: string, section: string)
    requires |section| <= SECTION_MAX
  {
    '\n' !in l && |l| + 1 <= LineRoom(section)
  }

  // The text a, then the line, then the text b.
  function Around(a: string, l: string, b: string): string {
    a + (l + "\n" + b)
  }

  lemma LineIsChunk(l: string, b: string, section: string)
    requires |section| <= SECTION_MAX && IsLine(l, section)
    ensures Chunk(l + "\n" + b, section) == l + "\n" && (l + "\n" + b)[|l| + 1..] == b
  {
    var t := l + "\n" + b;
    assert t[|l|] == '\n';
    LineLenIs(t, LineRoom(section), |l| + 1);
    assert t[..|l| + 1] == l + "\n";
  }

  // A line between whole lines and any text.
  lemma BrowseAround(a: string, l: string, b: string)
    requires EndsLine(a) && IsLine(l, Current(a, ""))
    ensures var section := Current(a, "");
            && |SectionAfter(l, section)| <= SECTION_MAX
            && Browse(Around(a, l, b), "")
                 == Browse(a, "") + (EntryOf(l, section) + Browse(b, SectionAfter(l, section)))
            && Current(Around(a, l, ""), "") == SectionAfter(l, section)
  {
    hide ParseLine, Browse, Current, Chunk, IsLine;
    var section := Current(a, "");
    ParseLineNewline(l);
    LineIsChunk(l, b, section);
    BrowseChunk(l + "\n" + b, section, l + "\n");
    BrowseAppend(a, l + "\n" + b, "");
    LineIsChunk(l, "", section);
    BrowseChunk(l + "\n" + "", section, l + "\n");
    CurrentAppend(a, l + "\n" + "", "");
    CurrentOfNothing(SectionAfter(l, section));
  }

  lemma {:induction false} CurrentAppend(a: string, b: string, section: string)
    requires EndsLine(a) && |section| <= SECTION_MAX
    ensures Current(a + b, section) == Current(b, Current(a, section))
    decreases |a|
  {
    hide ParseLine, Chunk, SectionAfter, EndsLine;
    if a == "" {
      assert a + b == b;
    } else {
      ChunkOfFront(a, b, section);
      var line := Chunk(a, section);
      BrowseChunk(a, section, line);
      BrowseChunk(a + b, section, line);
      CurrentAppend(a[|line|..], b, SectionAfter(line, section));
    }
  }

  lemma SkippedAround(a: string, l: string, b: string)
    requires EndsLine(a) && IsLine(l, Current(a, "")) && ParseLine(l).Skipped?
    ensures Browse(Around(a, l, b), "") == Browse(a + b, "")
  {
    hide Browse, Current, ParseLine, IsLine;
    BrowseAround(a, l, b);
    BrowseAppend(a, b, "");
    assert [] + Browse(b, Current(a, "")) == Browse(b, Current(a, ""));
  }

  // ----- lines that are passed over -----------------------------------------------------------------

  // The first character that is not blank starts a comment.
  predicate IsCommentLine(l: string) {
    exists i :: 0 <= i < |l| && (l[i] == ';' || l[i] == '#') && AllBlank(l[..i])
  }

  // The first character that is not blank is a bracket, and it is closed.
  predicate IsHeaderLine(l: string) {
    exists i :: 0 <= i < |l| && l[i] == '[' && ']' in l[i..] && AllBlank(l[..i])
  }

  lemma BlanksThen(l: string, i: nat)
    requires i <= |l| && AllBlank(l[..i]) && (i < |l| ==> !Blank(l[i]))
    ensures LeadingBlanks(l) == i && SkipLeading(l) == l[i..]
  {
    assert forall k :: 0 <= k < i ==> l[..i][k] == l[k];
    LeadingBlanksIs(l, i);
  }

  /** A comment changes nothing, whatever stands behind its sign: a setting that is commented out is
      not reported. */
  lemma CommentIsPassedOver(a: string, l: string, b: string)
    requires EndsLine(a) && IsLine(l, Current(a, "")) && IsCommentLine(l)
    ensures Browse(Around(a, l, b), "") == Browse(a + b, "")
  {
    hide Browse, Current, IsLine;
    var i :| 0 <= i < |l| && (l[i] == ';' || l[i] == '#') && AllBlank(l[..i]);
    BlanksThen(l, i);
    SkippedAround(a, l, b);
  }

  /** A line without a sign that is no header changes nothing; so does a blank line. */
  lemma LineWithoutSignIsPassedOver(a: string, l: string, b: string)
    requires EndsLine(a) && IsLine(l, Current(a, ""))
    requires '=' !in l && ':' !in l && !IsHeaderLine(l)
    ensures Browse(Around(a, l, b), "") == Browse(a + b, "")
  {
    hide Browse, Current, IsLine;
    NoSignIsSkipped(l);
    SkippedAround(a, l, b);
  }

  lemma NoSignIsSkipped(l: string)
    requires '=' !in l && ':' !in l && !IsHeaderLine(l)
    ensures ParseLine(l).Skipped?
  {
    var n := LeadingBlanks(l);
    var s := SkipLeading(l);
    assert forall k :: 0 <= k < n ==> l[..n][k] == l[k];
    IndexOfIs(s, '=', |s|);
    IndexOfIs(s, ':', |s|);
    if s != "" && s[0] == '[' {
      assert l[n] == '[';
      LastIndexOfIs(s, ']', -1);
    }
  }

  // ----- headers --------------------------------------------------------------------------------------

  /** A header starts its section: it reports nothing itself, and what follows is reported as that
      section's. */
  lemma HeaderStartsSection(a: string, blanks: string, name: string, tail: string, b: string)
    requires var l := blanks + "[" + name + "]" + tail;
             EndsLine(a) && IsLine(l, Current(a, "")) && AllBlank(blanks) && ']' !in tail
    ensures |name| <= SECTION_MAX
    ensures var l := blanks + "[" + name + "]" + tail;
            && Browse(Around(a, l, b), "") == Browse(a, "") + Browse(b, name)
            && Current(Around(a, l, ""), "") == name
  {
    var l := blanks + "[" + name + "]" + tail;
    HeaderIsRead(blanks, name, tail);
    hide Browse, Current, ParseLine, IsLine;
    BrowseAround(a, l, b);
    assert [] + Browse(b, name) == Browse(b, name);
  }

  lemma HeaderIsRead(blanks: string, name: string, tail: string)
    requires AllBlank(blanks) && ']' !in tail
    ensures ParseLine(blanks + "[" + name + "]" + tail) == Header(name)
  {
    var l := blanks + "[" + name + "]" + tail;
    assert l[..|blanks|] == blanks && l[|blanks|] == '[';
    BlanksThen(l, |blanks|);
    var s := SkipLeading(l);
    assert s == "[" + name + "]" + tail;
    LastIndexOfIs(s, ']', |name| + 1);
    assert s[1..|name| + 1] == name;
  }

  // ----- settings ---------------------------------------------------------------------------------------

  // The key ends at the first equal sign, or at the first colon of a line without one.
  predicate Splits(before: string, sign: char, after: string) {
    (sign == '=' && '=' !in before) || (sign == ':' && '=' !in before && ':' !in before && '=' !in after)
  }

  // A comment behind the value, or nothing.
  predicate IsRemark(s: string) {
    s != "" ==> s[0] == ';' || s[0] == '#'
  }

  // A key that does not make its line a comment or a header.
  predicate StartsSetting(key: string, l: string) {
    key != "" ==> key[0] != ';' && key[0] != '#' && (key[0] == '[' ==> ']' !in l)
  }

  predicate IsUnquoted(value: string) {
    NoOuterBlanks(value) && '"' !in value && ';' !in value && '#' !in value
  }

  /** A line with a key, a sign and a value, with blanks around them and a comment behind, is
      reported as just that setting, of the current section. */
  lemma SettingIsReported(a: string, indent: string, key: string, gap: string, sign: char, gap2: string, value: string,
      gap3: string, remark: string, b: string)
    requires var rest := gap2 + value + gap3 + remark;
             var l := indent + key + gap + [sign] + rest;
             && EndsLine(a) && IsLine(l, Current(a, "")) && Splits(key, sign, rest) && StartsSetting(key, l)
             && AllBlank(indent) && AllBlank(gap) && AllBlank(gap2) && AllBlank(gap3)
             && NoOuterBlanks(key) && IsUnquoted(value) && IsRemark(remark)
    ensures var l := indent + key + gap + [sign] + (gap2 + value + gap3 + remark);
            var section := Current(a, "");
            && Browse(Around(a, l, b), "") == Browse(a, "") + ([Entry(section, key, value)] + Browse(b, section))
            && Current(Around(a, l, ""), "") == section
  {
    hide IsUnquoted, IsLine, Browse, Current, ReadValue, IsRemark;
    var rest := gap2 + value + gap3 + remark;
    UnquotedIsRead(gap2, value, gap3, remark);
    SettingIsRead(indent, key, gap, sign, rest);
    BrowseAround(a, indent + key + gap + [sign] + rest, b);
  }

  // What the line has of the key up to the sign, once leading blanks are gone.
  function KeyPart(key: string, gap: string): string {
    if key == "" then "" else key + gap
  }

  lemma BehindIndent(indent: string, key: string, gap: string, rest: string)
    requires AllBlank(indent) && AllBlank(gap) && NoOuterBlanks(key) && rest != "" && !Blank(rest[0])
    ensures SkipLeading(indent + key + gap + rest) == KeyPart(key, gap) + rest
  {
    var l := indent + key + gap + rest;
    var n := if key == "" then |indent + gap| else |indent|;
    assert l[..n] == if key == "" then indent + gap else indent;
    assert l[n..] == KeyPart(key, gap) + rest;
    BlanksThen(l, n);
  }

  lemma SettingIsRead(indent: string, key: string, gap: string, sign: char, rest: string)
    requires var l := indent + key + gap + [sign] + rest;
             Splits(key, sign, rest) && StartsSetting(key, l)
    requires AllBlank(indent) && AllBlank(gap) && NoOuterBlanks(key)
    ensures ParseLine(indent + key + gap + [sign] + rest) == Pair(key, ReadValue(rest))
  {
    hide ReadValue, StripTrailing, SplitAt, LeadingBlanks, LastIndexOf;
    var l := indent + key + gap + [sign] + rest;
    var front := KeyPart(key, gap);
    assert l == indent + key + gap + ([sign] + rest);
    BehindIndent(indent, key, gap, [sign] + rest);
    var s := SkipLeading(l);
    assert s == front + [sign] + rest;
    SignIsFound(front, sign, rest);
    StripTrailingIs(front, key);
    assert s[..|front|] == front && s[|front| + 1..] == rest;
    NoHeaderThere(s, l, key);
  }

  lemma NoHeaderThere(s: string, l: string, key: string)
    requires StartsSetting(key, l) && s != "" && (s[0] == '[' ==> key != "" && key[0] == '[')
    requires SkipLeading(l) == s
    ensures s[0] == '[' ==> LastIndexOf(s, ']') < 0
  {
    hide LeadingBlanks;
    if s[0] == '[' {
      assert forall c :: c in s ==> c in l;
      LastIndexOfIs(s, ']', -1);
    }
  }

  lemma SignIsFound(front: string, sign: char, rest: string)
    requires (sign == '=' && '=' !in front) || (sign == ':' && '=' !in front && ':' !in front && '=' !in rest)
    ensures SplitAt(front + [sign] + rest) == |front|
  {
    var s := front + [sign] + rest;
    if sign == '=' {
      IndexOfIs(s, '=', |front|);
    } else {
      IndexOfIs(s, '=', |s|);
      IndexOfIs(s, ':', |front|);
    }
  }

  // Text without quotes and comment signs is stepped over up to a comment.
  lemma {:induction false} CommentBehind(t: string, remark: string)
    requires '"' !in t && ';' !in t && '#' !in t && IsRemark(remark)
    ensures CommentAt(t + remark, false) == |t|
    decreases |t|
  {
    if t == "" {
      assert t + remark == remark;
    } else {
      assert (t + remark)[1..] == t[1..] + remark;
      assert forall c :: c in t[1..] ==> c in t;
      CommentBehind(t[1..], remark);
    }
  }

  lemma BehindBlanks(gap: string, s: string)
    requires AllBlank(gap) && s != "" && !Blank(s[0])
    ensures SkipLeading(gap + s) == s
  {
    assert (gap + s)[..|gap|] == gap && (gap + s)[|gap|..] == s;
    BlanksThen(gap + s, |gap|);
  }

  lemma UncommentedIs(q: string, gap: string, remark: string)
    requires (q != "" ==> !Blank(q[|q| - 1])) && AllBlank(gap)
    requires CommentAt(q + (gap + remark), false) == |q| + |gap|
    ensures Uncommented(q + (gap + remark)) == q
  {
    hide CommentAt, StripTrailing;
    assert q + (gap + remark) == (q + gap) + remark;
    assert ((q + gap) + remark)[..|q + gap|] == q + gap;
    StripTrailingIs(q + gap, q);
  }

  lemma NoValueIsRead(blanks: string, remark: string)
    requires AllBlank(blanks) && IsRemark(remark)
    ensures ReadValue(blanks + remark) == ""
  {
    hide StripTrailing;
    var s := blanks + remark;
    assert s[..|blanks|] == blanks && s[|blanks|..] == remark;
    BlanksThen(s, |blanks|);
    assert remark[..0] == "";
  }

  lemma ValueIsRead(gap: string, value: string, gap2: string, remark: string)
    requires AllBlank(gap) && AllBlank(gap2) && IsUnquoted(value) && value != "" && IsRemark(remark)
    ensures ReadValue(gap + (value + (gap2 + remark))) == value
  {
    BehindBlanks(gap, value + (gap2 + remark));
    assert value + (gap2 + remark) == (value + gap2) + remark;
    CommentBehind(value + gap2, remark);
    hide CommentAt, Uncommented, LeadingBlanks, AllBlank, IsRemark;
    UncommentedIs(value, gap2, remark);
  }

  lemma UnquotedIsRead(gap: string, value: string, gap2: string, remark: string)
    requires AllBlank(gap) && AllBlank(gap2) && IsUnquoted(value) && IsRemark(remark)
    ensures ReadValue(gap + value + gap2 + remark) == value
  {
    hide ReadValue, IsRemark, IsUnquoted;
    if value == "" {
      NoValueIsRead(gap + gap2, remark);
      assert gap + value + gap2 + remark == (gap + gap2) + remark;
    } else {
      ValueIsRead(gap, value, gap2, remark);
      assert gap + value + gap2 + remark == gap + (value + (gap2 + remark));
    }
  }

  // ----- quoted values ------------------------------------------------------------------------------------

  // Behind a closing quote comments count again.
  lemma {:induction false} ClosingQuote(s: string, tail: string)
    requires (tail != "" ==> tail[0] != '"') && (s != "" ==> s[|s| - 1] != '\\')
    ensures CommentAt(Escaped(s) + ("\"" + tail), true) == |Escaped(s)| + 1 + CommentAt(tail, false)
    decreases |s|
  {
    var end := "\"" + tail;
    if s == "" {
      assert Escaped(s) + end == end && end[1..] == tail;
    } else {
      ClosingQuote(s[1..], tail);
      EscapedHead(s[1..]);
      var rest := Escaped(s[1..]) + end;
      CommentAtEscapedStep(s, rest);
      assert Escaped(s) + end == (if s[0] == '"' then ['\\', '"'] else [s[0]]) + rest;
    }
  }

  function Quoted(e: string): string {
    "\"" + e + "\""
  }

  lemma TailBehindQuoted(e: string, tail: string)
    ensures Quoted(e) + tail == "\"" + (e + ("\"" + tail))
    ensures (Quoted(e) + tail)[1..] == e + ("\"" + tail)
  {
  }

  lemma QuotedEnds(value: string, tail: string)
    requires value != "" && value[|value| - 1] != '\\' && (tail != "" ==> tail[0] != '"')
    ensures CommentAt(Quoted(Escaped(value)) + tail, false) == |Escaped(value)| + 2 + CommentAt(tail, false)
  {
    EscapedHead(value);
    hide Escaped, CommentAt;
    TailBehindQuoted(Escaped(value), tail);
    ClosingQuote(value, tail);
    OpeningQuote(Quoted(Escaped(value)) + tail);
  }

  lemma OpeningQuote(t: string)
    requires |t| > 1 && t[0] == '"' && t[1] != '"'
    ensures CommentAt(t, false) == 1 + CommentAt(t[1..], true)
  {
  }

  lemma QuoteIsLast(e: string)
    ensures Quoted(e) != "" && Quoted(e)[|Quoted(e)| - 1] == '"' && |Quoted(e)| == |e| + 2
    ensures Quoted(e)[1..|Quoted(e)| - 1] == e
  {
  }

  lemma UncommentedQuoted(value: string, gap: string, remark: string)
    requires AllBlank(gap) && IsRemark(remark) && value != "" && value[|value| - 1] != '\\'
    ensures Uncommented(Quoted(Escaped(value)) + (gap + remark)) == Quoted(Escaped(value))
  {
    CommentBehind(gap, remark);
    NoQuoteFirst(gap, remark);
    hide CommentAt, Escaped, Uncommented, Quoted, AllBlank, IsRemark;
    QuoteIsLast(Escaped(value));
    QuotedEnds(value, gap + remark);
    UncommentedIs(Quoted(Escaped(value)), gap, remark);
  }

  lemma NoQuoteFirst(gap: string, remark: string)
    requires AllBlank(gap) && IsRemark(remark)
    ensures gap + remark != "" ==> (gap + remark)[0] != '"'
  {
  }

  lemma QuotedIsRead(gap: string, value: string, gap2: string, remark: string)
    requires AllBlank(gap) && AllBlank(gap2) && IsRemark(remark) && value != "" && value[|value| - 1] != '\\'
    ensures ReadValue(gap + (Quoted(Escaped(value)) + (gap2 + remark))) == value
  {
    hide Uncommented, Escaped, Unescaped, LeadingBlanks, AllBlank, IsRemark;
    var quoted := Quoted(Escaped(value));
    BehindBlanks(gap, quoted + (gap2 + remark));
    UncommentedQuoted(value, gap2, remark);
    QuoteIsLast(Escaped(value));
    EscapedLonger(value);
    UnescapedEscaped(value, |Escaped(value)|);
  }

  /** A value in quotes, with its double quotes escaped, keeps its blanks and comment signs, and a
      comment behind it is passed over; the value must not end with a backslash, which would escape
      the closing quote. */
  lemma QuotedSettingIsReported(a: string, indent: string, key: string, gap: string, gap2: string, value: string,
      gap3: string, remark: string, b: string)
    requires var l := indent + key + gap + ['='] + (gap2 + (Quoted(Escaped(value)) + (gap3 + remark)));
             && EndsLine(a) && IsLine(l, Current(a, "")) && '=' !in key && StartsSetting(key, l)
             && AllBlank(indent) && AllBlank(gap) && AllBlank(gap2) && AllBlank(gap3)
             && NoOuterBlanks(key) && IsRemark(remark) && value != "" && value[|value| - 1] != '\\'
    ensures var l := indent + key + gap + ['='] + (gap2 + (Quoted(Escaped(value)) + (gap3 + remark)));
            var section := Current(a, "");
            Browse(Around(a, l, b), "") == Browse(a, "") + ([Entry(section, key, value)] + Browse(b, section))
  {
    hide IsLine, Browse, Current, ReadValue, IsRemark, Escaped;
    var rest := gap2 + (Quoted(Escaped(value)) + (gap3 + remark));
    QuotedIsRead(gap2, value, gap3, remark);
    SettingIsRead(indent, key, gap, '=', rest);
    BrowseAround(a, indent + key + gap + ['='] + rest, b);
  }

  // ----- what fits, and doubled quotes --------------------------------------------------------------------

  /** Of a value that is too long as much is printed as fits, and no escape is cut in two. */
  lemma {:induction false} PrintedIsLongest(s: string, room: nat) returns (k: nat)
    ensures k <= |s| && EscapedWithin(s, room) == Escaped(s[..k]) && |Escaped(s[..k])| <= room
    ensures k < |s| ==> |Escaped(s[..k + 1])| > room
    decreases |s|
  {
    if s == "" {
      k := 0;
    } else {
      var n := if s[0] == '"' then 2 else 1;
      assert Escaped(s[..1]) == if s[0] == '"' then ['\\', '"'] else [s[0]] by { assert s[..1][1..] == ""; }
      if n > room {
        k := 0;
      } else {
        var j := PrintedIsLongest(s[1..], room - n);
        k := j + 1;
        assert s[..k][1..] == s[1..][..j];
        if k < |s| { assert s[..k + 1][1..] == s[1..][..j + 1]; }
      }
    }
  }

  function Doubled(s: string): string {
    if s == "" then "" else (if s[0] == '"' then ['"', '"'] else [s[0]]) + Doubled(s[1..])
  }

  /** A doubled quote is read as one, like an escaped one; a backslash stands for itself. */
  lemma {:induction false} DoubledIsRead(s: string, room: nat)
    requires room >= |s| && '\\' !in s
    ensures Unescaped(Doubled(s), room) == s
    decreases |s|
  {
    if s != "" {
      DoubledIsRead(s[1..], room - 1);
      var d := Doubled(s);
      if s[0] == '"' { assert d[2..] == Doubled(s[1..]); } else { assert d[1..] == Doubled(s[1..]); }
    }
  }
}

/** How minIni reads a file: one fgets at a time into a buffer of BUFFER_SIZE bytes, so a
    "line" is the text up to and including a newline, or as much of it as fits. */
module IniLines {
  import opened CText

  const BUFFER_SIZE: nat := 512
  const ROOM: nat := BUFFER_SIZE - 1

  // The number of characters one fgets consumes when it may store `room` of them.
  function LineLen(s: string, room: nat): (n: nat)
    ensures n <= room && n <= |s|
    ensures s != "" && room > 0 ==> n > 0
    ensures n < room && n < |s| ==> n > 0 && s[n - 1] == '\n'
    ensures forall i :: 0 <= i < n - 1 ==> s[i] != '\n'
  {
    if s == "" || room == 0 then 0
    else if s[0] == '\n' then 1
    else 1 + LineLen(s[1..], room - 1)
  }

  // A section header as ini_puts and ini_putsection recognise it: '[' is the first
  // character that is not blank, and there is a ']' after it.
  ghost predicate IsHeaderOf(line: string, section: string) {
    var s := SkipLeading(line);
    var e := LastIndexOf(s, ']');
    && s != "" && s[0] == '['
    && e - 1 == |section|
    && EqualNoCase(s[1..e], section)
  }

  predicate OpensSection(line: string) {
    var s := SkipLeading(line);
    s != "" && s[0] == '['
  }

  function FirstLine(s: string): (line: string)
    ensures line <= s
    ensures s != "" ==> line != ""
  {
    s[..LineLen(s, ROOM)]
  }

  function OtherLines(s: string): (rest: string)
    ensures s == FirstLine(s) + rest
  {
    s[LineLen(s, ROOM)..]
  }

  // Where the first header of `section` starts, or |s| when there is none.
  ghost function HeaderAt(s: string, section: string): (h: nat)
    ensures h <= |s|
    decreases |s|
  {
    if s == "" || IsHeaderOf(FirstLine(s), section) then 0
    else |FirstLine(s)| + HeaderAt(OtherLines(s), section)
  }

  // Where the first line starts that opens a section, or |s| when none does.
  function NextSectionAt(s: string): (h: nat)
    ensures h <= |s|
    decreases |s|
  {
    if s == "" || OpensSection(FirstLine(s)) then 0
    else |FirstLine(s)| + NextSectionAt(OtherLines(s))
  }

  // A line that nothing can be added to.
  predicate IsWhole(line: string) {
    line != "" && (|line| == ROOM || line[|line| - 1] == '\n')
  }

  // A text after which fgets always starts a new line.
  ghost predicate Closed(s: string)
    decreases |s|
  {
    s == "" || (IsWhole(FirstLine(s)) && Closed(OtherLines(s)))
  }

  // The line cache copies whole lines in groups of fewer than BUFFER_SIZE bytes; this is
  // the size of the last group when `group` bytes are in the cache and s is still unread.
  function LastGroup(s: string, group: nat): (g: nat)
    decreases |s|
  {
    if s == "" then group
    else
      var n := |FirstLine(s)|;
      LastGroup(OtherLines(s), if group + n >= BUFFER_SIZE then n else group + n)
  }

  // cache_flush's answer at the end of the file, negated: the last group must be longer
  // than the line terminator alone and end with it.
  predicate NeedsNewline(text: string) {
    !(LastGroup(text, 0) > 1 && text != "" && text[|text| - 1] == '\n')
  }

  // ----- lemmas -------------------------------------------------------------------------

  // A line that fits a smaller buffer is read whole into it.
  lemma LineLenShrink(s: string, room: nat, less: nat)
    requires LineLen(s, room) <= less <= room
    ensures LineLen(s, less) == LineLen(s, room)
  {
  }

  lemma LineLenIs(s: string, room: nat, n: nat)
    requires 0 < n <= |s| && n <= room
    requires n == room || s[n - 1] == '\n' || n == |s|
    requires forall i :: 0 <= i < n - 1 ==> s[i] != '\n'
    ensures LineLen(s, room) == n
  {
  }

  lemma FirstLineLen(s: string)
    ensures |FirstLine(s)| == LineLen(s, ROOM)
  {
  }

  // A whole line is read the same whatever follows it.
  lemma WholeLineFirst(a: string, b: string)
    requires a != "" && IsWhole(FirstLine(a))
    ensures FirstLine(a + b) == FirstLine(a)
    ensures OtherLines(a + b) == OtherLines(a) + b
  {
    LineLenIs(a + b, ROOM, LineLen(a, ROOM));
  }

  lemma FirstLineIs(s: string, line: string)
    requires line <= s && line != "" && |line| <= ROOM
    requires IsWhole(line) || line == s
    requires forall i :: 0 <= i < |line| - 1 ==> line[i] != '\n'
    ensures FirstLine(s) == line && OtherLines(s) == s[|line|..]
  {
    LineLenIs(s, ROOM, |line|);
  }

  lemma {:induction false} ClosedAppend(a: string, b: string)
    requires Closed(a) && Closed(b)
    ensures Closed(a + b)
    decreases |a|
  {
    if a == "" {
      assert a + b == b;
    } else {
      WholeLineFirst(a, b);
      ClosedAppend(OtherLines(a), b);
    }
  }

  // A text that ends with a newline is closed.
  lemma {:induction false} NewlineCloses(s: string)
    requires s != "" ==> s[|s| - 1] == '\n'
    ensures Closed(s)
    decreases |s|
  {
    if s != "" {
      NewlineCloses(OtherLines(s));
    }
  }

  // Looking for a header steps over a closed text that has none.
  lemma {:induction false} HeaderAtAppend(a: string, b: string, section: string)
    requires Closed(a) && HeaderAt(a, section) == |a|
    ensures HeaderAt(a + b, section) == |a| + HeaderAt(b, section)
    decreases |a|
  {
    hide IsHeaderOf;
    if a == "" {
      assert a + b == b;
    } else {
      WholeLineFirst(a, b);
      HeaderAtAppend(OtherLines(a), b, section);
    }
  }

  // A line with more text behind it is whole, and is still the first line when that text
  // is cut short or replaced.
  lemma LineBefore(s: string, other: string)
    requires OtherLines(s) != ""
    ensures IsWhole(FirstLine(s))
    ensures FirstLine(FirstLine(s) + other) == FirstLine(s)
    ensures OtherLines(FirstLine(s) + other) == other
  {
    FirstLineIs(FirstLine(s) + other, FirstLine(s));
  }

  lemma SplitAtLine(line: string, rest: string, h: nat)
    requires h <= |rest|
    ensures (line + rest)[..|line| + h] == line + rest[..h]
    ensures (line + rest)[|line| + h..] == rest[h..]
  {
  }

  // What precedes a header is closed and has no header of that section.
  lemma {:induction false} BeforeHeader(s: string, section: string)
    requires HeaderAt(s, section) < |s|
    ensures var a := s[..HeaderAt(s, section)]; Closed(a) && HeaderAt(a, section) == |a|
    ensures IsHeaderOf(FirstLine(s[HeaderAt(s, section)..]), section)
    decreases |s|
  {
    hide IsHeaderOf, FirstLine, OtherLines, LineLen;
    if !IsHeaderOf(FirstLine(s), section) {
      var rest := OtherLines(s);
      BeforeHeader(rest, section);
      var h := HeaderAt(rest, section);
      SplitAtLine(FirstLine(s), rest, h);
      LineBefore(s, rest[..h]);
    } else {
      assert s[..0] == "" && s[0..] == s;
    }
  }

  lemma BehindFirst(s: string)
    ensures OtherLines(s) == s[|FirstLine(s)|..]
    ensures |FirstLine(s)| < BUFFER_SIZE && |FirstLine(s)| + |OtherLines(s)| == |s|
  {
  }

  // What starts at the next section is empty or begins with a line that opens a section.
  lemma {:induction false} AfterNextSection(s: string)
    ensures var b := s[NextSectionAt(s)..]; b == "" || OpensSection(FirstLine(b))
    decreases |s|
  {
    hide OpensSection, FirstLine, OtherLines;
    if s == "" || OpensSection(FirstLine(s)) {
      assert s[0..] == s;
    } else {
      AfterNextSection(OtherLines(s));
      BehindFirst(s);
      DropDrop(s, |FirstLine(s)|, NextSectionAt(OtherLines(s)));
    }
  }

}

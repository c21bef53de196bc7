/** getkeystring asked by number: ini_getsection and ini_getkey list the sections and keys that are
    found by name. */
module IniIndex {
  import opened Basics
  import opened CText
  import opened IniLines
  import opened IniQuoting
  import opened IniBuffer
  import opened IniCache
  import opened IniSection
  import opened IniBrowse
  import opened IniKey
  import opened IniKeyRead
  import opened IniPuts

  // The names of the sections, in order.
  function SectionNames(text: string): seq<string>
    decreases |text|
  {
    if text == "" then []
    else HeaderNames(FirstLine(text)) + SectionNames(OtherLines(text))
  }

  function HeaderNames(line: string): seq<string> {
    match ParseLine(line) case Header(name) => [name] case _ => []
  }

  // The names of the keys up to the next section, in order.
  function KeyNames(body: string): seq<string>
    decreases |body|
  {
    if body == "" || OpensSection(FirstLine(body)) then []
    else EntryNames(FirstLine(body)) + KeyNames(OtherLines(body))
  }

  function EntryNames(line: string): seq<string> {
    var s := SkipLeading(line);
    if IsComment(line) || SplitAt(s) == |s| then [] else [StripTrailing(s[..SplitAt(s)])]
  }

  // ----- the searches ------------------------------------------------------------------------------

  // The name in a header; none for another line.
  method HeaderIn(buffer: array<char>, ghost line: string) returns (names: seq<string>)
    requires Holds(buffer, 0, line)
    modifies buffer
    ensures names == HeaderNames(line)
  {
    hide LeadingBlanks, LastIndexOf, SplitAt, ReadValue;
    var sp := SkipLeadingIn(buffer, 0, line);
    ghost var s := SkipLeading(line);
    var ep := LastIndexIn(buffer, sp, ']', s);
    CharIn(buffer, sp, s, sp);
    names := [];
    if buffer[sp] == '[' && ep >= sp {
      ghost var name := s[1..ep - sp];
      buffer[ep] := '\0';
      assert Holds(buffer, sp + 1, name);
      var t := TextAt(buffer, sp + 1, name);
      names := [t];
    }
  }

  /** ini_getsection: the idx-th section's name. */
  method GetSectionName(c: LineCache, idx: nat) returns (name: Option<string>)
    requires c.Valid() && c.pos == 0
    modifies c`pos, c.buffer
    ensures c.Valid()
    ensures name == if idx < |SectionNames(c.input)| then Some(SectionNames(c.input)[idx]) else None
  {
    hide FirstLine, OtherLines, HeaderNames;
    ghost var all := SectionNames(c.input);
    var seen := 0;
    assert c.input[0..] == c.input;
    while true
      invariant c.Valid() && seen <= idx && seen <= |all| && all[seen..] == SectionNames(c.input[c.pos..])
      decreases |c.input| - c.pos
    {
      var ok;
      ghost var line;
      ok, line := c.ReadLine();
      if !ok { return None; }
      var names := HeaderIn(c.buffer, line);
      OneOrNone(line);
      if names != [] {
        assert all[seen] == names[0];
        if seen == idx { return Some(names[0]); }
        seen := seen + 1;
      }
    }
  }

  lemma OneOrNone(line: string)
    ensures |HeaderNames(line)| <= 1 && |EntryNames(line)| <= 1
  {
  }

  // The key on a line.
  method EntryIn(buffer: array<char>, ghost line: string) returns (opens: bool, names: seq<string>)
    requires Holds(buffer, 0, line)
    modifies buffer
    ensures opens <==> OpensSection(line)
    ensures names == EntryNames(line)
  {
    hide LeadingBlanks, StripTrailing, SplitAt;
    var sp := SkipLeadingIn(buffer, 0, line);
    ghost var s := SkipLeading(line);
    CharIn(buffer, sp, s, sp);
    opens := buffer[sp] == '[';
    var comment := buffer[sp] == ';' || buffer[sp] == '#';
    var found, ep := FindSign(buffer, sp, s);
    names := [];
    if !comment && found {
      CutKey(buffer, sp, ep, s);
      var t := TextAt(buffer, sp, StripTrailing(s[..ep - sp]));
      names := [t];
    }
  }

  /** ini_getkey: the name of the idx-th key of a section. */
  method GetKeyName(c: LineCache, section: string, idx: nat) returns (name: Option<string>)
    requires c.Valid() && c.pos == 0 && NulFree(section)
    modifies c`pos, c.buffer
    ensures c.Valid()
    ensures name == KeyAt(c.input, section, idx)
  {
    hide BodyAt, HasSection, FirstLine, OtherLines, OpensSection, EntryNames;
    if section != "" {
      var there := FindSection(c, section);
      if !there { return None; }
    }
    NoSectionBody(c.input, section);
    ghost var all := KeyNames(c.input[c.pos..]);
    var seen := 0;
    while true
      invariant c.Valid() && seen <= idx && seen <= |all| && all[seen..] == KeyNames(c.input[c.pos..])
      decreases |c.input| - c.pos
    {
      var ok;
      ghost var line;
      ok, line := c.ReadLine();
      if !ok { return None; }
      var opens, names := EntryIn(c.buffer, line);
      OneOrNone(line);
      if opens { return None; }
      if names != [] {
        assert all[seen] == names[0];
        if seen == idx { return Some(names[0]); }
        seen := seen + 1;
      }
    }
  }

  ghost function KeyAt(text: string, section: string, idx: nat): Option<string> {
    if !HasSection(text, section) then None
    else
      var names := KeyNames(text[BodyAt(text, section)..]);
      if idx < |names| then Some(names[idx]) else None
  }

  // ----- what is listed is what is found ---------------------------------------------------------

  ghost predicate Lists(names: seq<string>, name: string) {
    exists i :: 0 <= i < |names| && EqualNoCase(names[i], name)
  }

  lemma ListsAppend(a: seq<string>, b: seq<string>, name: string)
    ensures Lists(a + b, name) <==> Lists(a, name) || Lists(b, name)
  {
    hide EqualNoCase;
    forall i | 0 <= i < |a| && EqualNoCase(a[i], name) ensures Lists(a + b, name) { assert (a + b)[i] == a[i]; }
    forall i | 0 <= i < |b| && EqualNoCase(b[i], name) ensures Lists(a + b, name) { assert (a + b)[|a| + i] == b[i]; }
  }

  lemma HeaderListsIff(line: string, section: string)
    ensures Lists(HeaderNames(line), section) <==> IsHeaderOf(line, section)
  {
    hide LeadingBlanks, LastIndexOf, SplitAt, ReadValue;
    var names := HeaderNames(line);
    if names != [] { assert EqualNoCase(names[0], section) <==> Lists(names, section); }
  }

  lemma {:induction false} SectionListedIff(text: string, section: string)
    ensures Lists(SectionNames(text), section) <==> HeaderAt(text, section) < |text|
    decreases |text|
  {
    hide FirstLine, OtherLines, HeaderNames, IsHeaderOf, EqualNoCase;
    HeaderAtStep(text, section);
    if text != "" {
      BehindFirst(text);
      HeaderListsIff(FirstLine(text), section);
      ListsAppend(HeaderNames(FirstLine(text)), SectionNames(OtherLines(text)), section);
      SectionListedIff(OtherLines(text), section);
    }
  }

  lemma EntryListsIff(line: string, key: string)
    requires key != ""
    ensures Lists(EntryNames(line), key) <==> IsEntryOf(line, key) && !IsComment(line)
  {
    hide LeadingBlanks, StripTrailing, SplitAt;
    var names := EntryNames(line);
    if names != [] { assert EqualNoCase(names[0], key) <==> Lists(names, key); }
  }

  lemma {:induction false} KeyListedIff(body: string, key: string)
    requires key != ""
    ensures Lists(KeyNames(body), key) <==> GetInBody(body, key).Some?
    decreases |body|
  {
    hide FirstLine, OtherLines, EntryNames, IsEntryOf, IsComment, OpensSection, EqualNoCase, ValueOn;
    StopAtStep(body, key, false);
    if body != "" && !OpensSection(FirstLine(body)) {
      var line, rest := FirstLine(body), OtherLines(body);
      BehindFirst(body);
      EntryListsIff(line, key);
      ListsAppend(EntryNames(line), KeyNames(rest), key);
      KeyListedIff(rest, key);
      DropDrop(body, |line|, StopAt(rest, key, false));
      assert body[0..] == body;
    } else {
      assert body[0..] == body;
    }
  }

  /** A section is listed if and only if it is there, and a key of it if and only if it has a value. */
  lemma ListedIffFound(text: string, section: string, key: string)
    requires key != ""
    ensures section != "" ==> (Lists(SectionNames(text), section) <==> HasSection(text, section))
    ensures GetKey(text, section, key).Some? <==>
              HasSection(text, section) && Lists(KeyNames(text[BodyAt(text, section)..]), key)
  {
    hide GetInBody, KeyNames, SectionNames, BodyAt, HeaderAt, Lists;
    SectionListedIff(text, section);
    KeyListedIff(text[BodyAt(text, section)..], key);
  }
}

/** getkeystring and ini_puts, with the two shortcuts that avoid rewriting the file and the copy
    through a temporary one. */
module IniPuts {
  import opened Basics
  import opened CText
  import opened IniLines
  import opened IniQuoting
  import opened IniBuffer
  import opened IniCache
  import opened IniSection
  import opened IniKey
  import opened IniKeyRead

  // ----- matching a line ----------------------------------------------------------------------

  // Where the sign is that splits the line at sp: the first '=', or else ':'.
  method FindSign(buffer: array<char>, sp: nat, ghost s: string) returns (found: bool, ep: nat)
    requires Holds(buffer, sp, s)
    ensures ep == sp + SplitAt(s) && (found <==> SplitAt(s) < |s|)
  {
    ep := IndexIn(buffer, sp, '=', s);
    CharIn(buffer, sp, s, ep);
    if buffer[ep] == '\0' {
      ep := IndexIn(buffer, sp, ':', s);
      CharIn(buffer, sp, s, ep);
    }
    found := buffer[ep] != '\0';
  }

  // Whether the line in the buffer opens a section, sets the key, or is a comment; sp is where
  // its text starts and ep where its sign is.
  method MatchKey(buffer: array<char>, key: string, ghost line: string)
    returns (opens: bool, sets: bool, comment: bool, sp: nat, ep: nat)
    requires Holds(buffer, 0, line) && NulFree(key)
    ensures opens <==> OpensSection(line)
    ensures sets <==> IsEntryOf(line, key)
    ensures comment <==> IsComment(line)
    ensures sp == LeadingBlanks(line) && ep == sp + SplitAt(SkipLeading(line))
    ensures Holds(buffer, sp, SkipLeading(line))
  {
    hide LeadingBlanks, StripTrailing, SplitAt, EqualNoCase;
    sp := SkipLeadingIn(buffer, 0, line);
    ghost var s := SkipLeading(line);
    CharIn(buffer, sp, s, sp);
    opens := buffer[sp] == '[';
    comment := buffer[sp] == ';' || buffer[sp] == '#';
    var found;
    found, ep := FindSign(buffer, sp, s);
    sets := false;
    if found && |key| > 0 {
      var end := SkipTrailingIn(buffer, sp, ep, s);
      ghost var name := StripTrailing(s[..ep - sp]);
      PrefixOfPrefix(s, ep - sp, name);
      if end - sp == |key| {
        sets := SameNoCaseIn(buffer, sp, key, s);
      }
    }
  }

  lemma PrefixOfPrefix(s: string, n: nat, name: string)
    requires n <= |s| && name <= s[..n]
    ensures |name| <= |s| && s[..|name|] == name
  {
  }

  // Read a line, and say whether it stops the search for the key.
  method ReadAndMatch(c: LineCache, key: string)
    returns (ok: bool, opens: bool, sets: bool, comment: bool, ep: nat, ghost line: string)
    requires c.Valid() && NulFree(key)
    modifies c`pos, c.buffer
    ensures c.Valid() && (ok <==> old(c.pos) < |c.input|)
    ensures !ok ==> c.pos == old(c.pos)
    ensures ok ==>
              && line == FirstLine(c.input[old(c.pos)..]) && Holds(c.buffer, 0, line)
              && c.pos == old(c.pos) + |line| && c.input[c.pos..] == OtherLines(c.input[old(c.pos)..])
              && (opens <==> OpensSection(line)) && (sets <==> IsEntryOf(line, key)) && (comment <==> IsComment(line))
              && ep == LeadingBlanks(line) + SplitAt(SkipLeading(line))
              && Holds(c.buffer, LeadingBlanks(line), SkipLeading(line))
  {
    hide OpensSection, IsEntryOf, IsComment, FirstLine, OtherLines, SplitAt;
    opens, sets, comment, ep := false, false, false, 0;
    ok, line := c.ReadLine();
    if ok {
      var sp;
      opens, sets, comment, sp, ep := MatchKey(c.buffer, key, line);
    }
  }

  // ----- getkeystring ----------------------------------------------------------------------------

  // Read past the header of the section.
  method FindSection(c: LineCache, section: string) returns (found: bool)
    requires c.Valid() && NulFree(section) && c.pos == 0 && section != ""
    modifies c`pos, c.buffer
    ensures c.Valid()
    ensures found <==> HasSection(c.input, section)
    ensures found ==> c.pos == BodyAt(c.input, section)
  {
    hide IsHeaderOf, FirstLine, OtherLines, HeaderAt, LineLen;
    ghost var h := HeaderAt(c.input, section);
    ghost var at := 0;
    assert c.input[0..] == c.input;
    found := false;
    while !found
      invariant c.Valid() && at <= c.pos
      invariant !found ==> at == c.pos && h == at + HeaderAt(c.input[at..], section)
      invariant found ==> h == at < |c.input| && c.pos == at + |FirstLine(c.input[at..])|
      decreases !found, |c.input| - c.pos
    {
      ghost var s := c.input[c.pos..];
      HeaderAtStep(s, section);
      var ok, sp;
      ghost var line;
      ok, line := c.ReadLine();
      if !ok { return; }
      found, sp := MatchHeader(c.buffer, section, line);
      if !found { at := c.pos; }
    }
  }

  /** getkeystring for a key by name: the value is left in the buffer, head and tail are where
      the key's line starts and ends. */
  method GetKeyString(c: LineCache, section: string, key: string)
    returns (found: bool, value: string, head: nat, tail: nat)
    requires c.Valid() && c.pos == 0 && NulFree(section) && NulFree(key)
    modifies c`pos, c.buffer
    ensures c.Valid()
    ensures GetKey(c.input, section, key) == if found then Some(value) else None
    ensures found ==>
              && head == EntryAt(c.input, section, key)
              && tail == head + |FirstLine(c.input[head..])| <= |c.input|
  {
    hide BodyAt, HasSection, StopAt, FirstLine, ValueOn;
    found, value, head, tail := false, "", 0, 0;
    if section != "" {
      var there := FindSection(c, section);
      if !there { return; }
    }
    NoSectionBody(c.input, section);
    ghost var body := c.pos;
    var ep;
    ghost var line;
    found, ep, head, line := FindKey(c, key);
    DropDrop(c.input, body, head - body);
    if found {
      tail := c.pos;
      PrefixOfDrop(c.input, head, line);
      value := TakeValue(c.buffer, ep, line);
    }
  }

  lemma NoSectionBody(text: string, section: string)
    ensures section == "" ==> BodyAt(text, section) == 0 && HasSection(text, section)
  {
  }

  // The second loop of getkeystring: up to the key, a new section, or the end of the file.
  method FindKey(c: LineCache, key: string) returns (found: bool, ep: nat, head: nat, ghost line: string)
    requires c.Valid() && NulFree(key)
    modifies c`pos, c.buffer
    ensures c.Valid()
    ensures var body := c.input[old(c.pos)..];
            var e := StopAt(body, key, false);
            && head == old(c.pos) + e
            && (found <==> e < |body| && !OpensSection(FirstLine(body[e..])))
            && (found ==>
                  && line == FirstLine(body[e..]) && c.pos == head + |line|
                  && ep == LeadingBlanks(line) + SplitAt(SkipLeading(line))
                  && SplitAt(SkipLeading(line)) < |SkipLeading(line)|
                  && Holds(c.buffer, LeadingBlanks(line), SkipLeading(line)))
  {
    hide OpensSection, IsEntryOf, IsComment, FirstLine, OtherLines, StopAt, LineLen, SplitAt;
    ghost var body := c.input[c.pos..];
    ghost var start := c.pos;
    line, ep, found := "", 0, false;
    head := c.pos;
    while true
      invariant c.Valid() && start <= head == c.pos && !found
      invariant start + StopAt(body, key, false) == head + StopAt(c.input[head..], key, false)
      decreases |c.input| - c.pos
    {
      ghost var s := c.input[c.pos..];
      StopAtStep(s, key, false);
      DropDrop(c.input, start, head - start);
      var ok, opens, sets, comment;
      ok, opens, sets, comment, ep, line := ReadAndMatch(c, key);
      if !ok || opens { return; }
      if sets && !comment {
        found := true;
        EntrySigned(line, key);
        return;
      }
      head := c.pos;
    }
  }

  lemma EntrySigned(line: string, key: string)
    requires IsEntryOf(line, key)
    ensures SplitAt(SkipLeading(line)) < |SkipLeading(line)|
  {
  }

  // Clean the text behind the sign, and move it to the start of the buffer.
  method TakeValue(buffer: array<char>, ep: nat, ghost line: string) returns (value: string)
    requires buffer.Length == BUFFER_SIZE
    requires var s := SkipLeading(line);
             && Holds(buffer, LeadingBlanks(line), s) && SplitAt(s) < |s| && ep == LeadingBlanks(line) + SplitAt(s)
    modifies buffer
    ensures value == ValueOn(line)
  {
    hide SplitAt, LeadingBlanks, CommentAt, StripTrailing, Unescaped, Cleaned, Copied;
    ghost var s := SkipLeading(line);
    ghost var after := s[ep - LeadingBlanks(line) + 1..];
    HoldsAfter(buffer, LeadingBlanks(line), s, ep);
    var sp := SkipLeadingIn(buffer, ep + 1, after);
    var quotes;
    sp, quotes := CleanString(buffer, sp, SkipLeading(after));
    ghost var t := Cleaned(SkipLeading(after)).0;
    NeverEnquotes(SkipLeading(after));
    CopyWithin(buffer, 0, sp, BUFFER_SIZE, quotes, t);
    value := TextAt(buffer, 0, Copied(t, BUFFER_SIZE, quotes));
  }

  lemma NeverEnquotes(s: string)
    ensures Cleaned(s).1 != Enquote
  {
  }

  lemma HoldsAfter(buffer: array<char>, at: nat, s: string, ep: nat)
    requires Holds(buffer, at, s) && at <= ep < at + |s|
    ensures Holds(buffer, ep + 1, s[ep - at + 1..])
  {
    var t := s[ep - at + 1..];
    forall i | 0 <= i < |t| ensures buffer[ep + 1 + i] == t[i] {
      assert buffer[at + (ep - at + 1 + i)] == s[ep - at + 1 + i];
    }
  }

  // ----- the copy ----------------------------------------------------------------------------------

  // What the search for the key started from.
  datatype Begin = Begin(pos: nat, copied: string, stop: nat, group: nat)

  // The loop has copied `prefix` and still has to read the rest of the input.
  ghost predicate Searching(c: LineCache, key: string, from: Begin, prefix: string)
    reads c
  {
    && c.Cached() && c.pos == c.mark + c.cachelen == from.pos + |prefix|
    && c.input[from.pos..] == prefix + c.input[c.pos..]
    && c.Copied() == from.copied + prefix
    && from.stop == |prefix| + StopAt(c.input[c.pos..], key, true)
    && from.group == LastGroup(c.input[c.pos..], c.cachelen)
  }

  // The loop has copied `prefix`, and stops at a line or at the end of the file.
  ghost predicate SearchEnded(c: LineCache, from: Begin, prefix: string, found: bool, opens: bool)
    reads c
  {
    var stop := from.pos + |prefix|;
    && c.Cached() && c.mark + c.cachelen == stop
    && c.input[from.pos..] == prefix + c.input[stop..]
    && c.Copied() == from.copied + prefix
    && from.stop == |prefix|
    && (!found ==> stop == |c.input| && c.cachelen == from.group)
    && (found ==> stop < |c.input| && (opens <==> OpensSection(FirstLine(c.input[stop..]))))
  }

  // Read a line and copy it, unless it sets the key or opens a section.
  method CopyUnlessStop(c: LineCache, key: string) returns (ok: bool, stops: bool, opens: bool, ghost line: string)
    requires c.Cached() && c.pos == c.mark + c.cachelen && NulFree(key)
    modifies c, c.buffer
    ensures c.Cached()
    ensures ok <==> old(c.pos) < |c.input|
    ensures ok ==> line == FirstLine(c.input[old(c.pos)..]) && c.input[c.pos..] == OtherLines(c.input[old(c.pos)..])
    ensures ok ==> c.pos == old(c.pos) + |line|
    ensures ok ==> (stops <==> Stops(line, key, true)) && (opens <==> OpensSection(line))
    ensures !ok ==> !stops
    ensures !ok || stops ==>
              c.mark == old(c.mark) && c.cachelen == old(c.cachelen) && c.Copied() == old(c.Copied())
    ensures ok && !stops ==>
              && c.mark + c.cachelen == c.pos
              && c.Copied() == old(c.Copied()) + line
              && c.cachelen == if old(c.cachelen) + |line| >= BUFFER_SIZE then |line| else old(c.cachelen) + |line|
  {
    hide Rereads, NulFree, LineLen, FirstLine, OtherLines, IsEntryOf, IsComment, OpensSection, SplitAt;
    var sets, comment, ep;
    ok, opens, sets, comment, ep, line := ReadAndMatch(c, key);
    stops := ok && (sets || opens);
    if ok && !stops {
      c.CopyLine(line);
    }
  }

  method SearchStep(c: LineCache, key: string, ghost from: Begin, ghost prefix: string)
    returns (more: bool, found: bool, opens: bool, ghost line: string)
    requires Searching(c, key, from, prefix) && NulFree(key)
    modifies c, c.buffer
    ensures more ==> Searching(c, key, from, prefix + line) && old(c.pos) < c.pos <= |c.input|
    ensures !more ==> SearchEnded(c, from, prefix, found, opens)
  {
    hide Rereads, NulFree, LineLen, FirstLine, OtherLines, Stops, OpensSection, StopAt, LastGroup;
    ghost var s := c.input[c.pos..];
    StopAtStep(s, key, true);
    LastGroupStep(s, c.cachelen);
    var ok;
    ok, found, opens, line := CopyUnlessStop(c, key);
    more := ok && !found;
    if more {
      NextPrefix(c.input[from.pos..], prefix, line, s, OtherLines(s));
    }
  }

  // Copy lines until the key or the next section, which stays uncopied.
  method CopyUntilKey(c: LineCache, key: string) returns (found: bool, opens: bool)
    requires c.Cached() && c.pos == c.mark + c.cachelen && NulFree(key)
    modifies c, c.buffer
    ensures c.Cached()
    ensures var body := c.input[old(c.pos)..];
            var e := StopAt(body, key, true);
            && (found <==> e < |body|)
            && c.Copied() == old(c.Copied()) + body[..e]
            && c.mark + c.cachelen == old(c.pos) + e
            && (!found ==> c.cachelen == LastGroup(body, old(c.cachelen)))
            && (found ==> (opens <==> OpensSection(FirstLine(body[e..]))))
  {
    hide Rereads, NulFree, LineLen, FirstLine, OpensSection, StopAt, LastGroup;
    ghost var body := c.input[c.pos..];
    ghost var from := Begin(c.pos, c.Copied(), StopAt(body, key, true), LastGroup(body, c.cachelen));
    ghost var prefix := "";
    ghost var line;
    var more := true;
    found, opens := false, false;
    assert c.Copied() + "" == c.Copied();
    while more
      invariant more ==> Searching(c, key, from, prefix)
      invariant !more ==> SearchEnded(c, from, prefix, found, opens)
      decreases more, |c.input| - c.pos
    {
      hide Searching, SearchEnded;
      more, found, opens, line := SearchStep(c, key, from, prefix);
      if more { prefix := prefix + line; }
    }
    PrefixIs(body, prefix, c.input[c.mark + c.cachelen..]);
  }

  method WriteKey(c: LineCache, key: string, value: string)
    requires c.Valid() && NulFree(key) && NulFree(value)
    modifies c`output, c.buffer
    ensures c.output == old(c.output) + KeyLine(key, value)
  {
    hide KeyLine, NulFree;
    WriteKeyIn(c.buffer, key, value);
    c.Write(KeyLine(key, value));
  }

  // From the start of the section's lines on: copy, with the key's line replaced.
  method PutInSection(c: LineCache, key: string, value: Option<string>)
    requires c.Cached() && c.cachelen == 0 && c.pos == c.mark
    requires NulFree(key) && (value.Some? ==> NulFree(value.value))
    modifies c, c.buffer
    ensures c.output == old(c.output) + PutInBody(c.input[old(c.pos)..], key, value)
  {
    hide Rereads, NulFree, LineLen, FirstLine, OtherLines, OpensSection, StopAt, LastGroup, Printed, NeedsNewline,
         PutInBody;
    ghost var start, out, body := c.pos, c.output, c.input[c.pos..];
    ghost var e := StopAt(body, key, true);
    var found, opens := CopyUntilKey(c, key);
    SlicesAt(c.input, start, e);
    assert out + c.input[start..start] == out;
    var endsLine, stuck := c.Flush();
    if found {
      ReplaceKey(c, key, value, opens);
      FoundInBody(out, body, e, key, value);
    } else {
      EndsLineIff(c.input, start);
      AddKey(c, key, value, endsLine);
      EndOfBody(out, body, key, value);
    }
  }

  method AddKey(c: LineCache, key: string, value: Option<string>, endsLine: bool)
    requires c.Valid() && NulFree(key) && (value.Some? ==> NulFree(value.value))
    modifies c`output, c.buffer
    ensures c.output == old(c.output) + if value == None then ""
              else (if endsLine then "" else "\n") + Printed(key, value)
  {
    hide NulFree, KeyLine;
    if value.Some? {
      if !endsLine { c.output := c.output + "\n"; }
      WriteKey(c, key, value.value);
    }
  }

  method ReplaceKey(c: LineCache, key: string, value: Option<string>, opens: bool)
    requires c.Cached() && c.cachelen == 0 && c.pos == c.mark < |c.input|
    requires NulFree(key) && (value.Some? ==> NulFree(value.value))
    modifies c, c.buffer
    ensures c.output == old(c.output) + Printed(key, value)
                      + if opens then c.input[old(c.pos)..] else OtherLines(c.input[old(c.pos)..])
  {
    hide Rereads, NulFree, KeyLine, OtherLines;
    if value.Some? { WriteKey(c, key, value.value); }
    CopyBehind(c, opens);
  }

  // cache_flush says whether the body ends with a line end.
  lemma EndsLineIff(input: string, start: nat)
    requires start <= |input|
    ensures var body := input[start..];
            NeedsNewline(body) <==> !(LastGroup(body, 0) > 1 && input[|input| - 1] == '\n')
  {
  }

  lemma FoundInBody(out: string, body: string, e: nat, key: string, value: Option<string>)
    requires e == StopAt(body, key, true) < |body|
    ensures out + body[..e] + Printed(key, value)
              + (if OpensSection(FirstLine(body[e..])) then body[e..] else OtherLines(body[e..]))
         == out + PutInBody(body, key, value)
  {
    hide StopAt, OpensSection, FirstLine, OtherLines, Printed;
    JoinFour(out, body[..e], Printed(key, value), if OpensSection(FirstLine(body[e..])) then body[e..]
        else OtherLines(body[e..]));
  }

  lemma EndOfBody(out: string, body: string, key: string, value: Option<string>)
    requires StopAt(body, key, true) == |body|
    ensures body[..|body|] == body
    ensures out + body + (if value == None then "" else NewlineFor(body) + Printed(key, value))
         == out + PutInBody(body, key, value)
  {
    hide StopAt, Printed, NewlineFor;
  }

  // Read the line at the mark again, copy it if it opens a section, and copy all behind it.
  method CopyBehind(c: LineCache, opens: bool)
    requires c.Cached() && c.cachelen == 0 && c.pos == c.mark < |c.input|
    modifies c, c.buffer
    ensures c.output == old(c.output) + if opens then c.input[old(c.pos)..] else OtherLines(c.input[old(c.pos)..])
  {
    hide Rereads, NulFree, LineLen, FirstLine, OtherLines;
    ghost var s := c.input[c.pos..];
    ghost var out := c.output;
    var ok;
    ghost var line;
    ok, line := c.ReadLine();
    if opens {
      GroupRereads(c.input, c.mark, 0, line);
      PrefixOfDrop(c.input, c.mark, line);
      var fits := c.Accumulate(line);
    } else {
      c.mark := c.pos;
      RereadsNothing(c.input[c.mark..], BUFFER_SIZE);
    }
    var stuck := CopyRest(c);
  }

  // Without a key: skip the section's header and its lines, and copy the rest.
  method EraseSection(c: LineCache)
    requires c.Cached() && c.cachelen == 0 && c.pos == c.mark
    modifies c, c.buffer
    ensures c.output == old(c.output) + AfterSection(c.input[old(c.pos)..])
  {
    hide Rereads, NulFree, LineLen, FirstLine, NextSectionAt, OpensSection, OtherLines;
    ghost var s := c.input[c.pos..];
    OtherLinesOfNone();
    var ok;
    ghost var line;
    ok, line := c.ReadLine();
    c.mark := c.pos;
    RereadsNothing(c.input[c.mark..], BUFFER_SIZE);
    ghost var rest := c.input[c.pos..];
    ghost var start := c.pos;
    var found := SkipToOpening(c);
    DropDrop(c.input, start, NextSectionAt(rest));
    var endsLine, stuck := c.Flush();
    if found { CopyBehind(c, true); }
  }

  method SkipToOpening(c: LineCache) returns (found: bool)
    requires c.Cached() && c.cachelen == 0 && c.pos == c.mark
    modifies c, c.buffer
    ensures c.Cached() && c.cachelen == 0 && c.output == old(c.output)
    ensures c.mark == old(c.pos) + NextSectionAt(c.input[old(c.pos)..])
    ensures found <==> c.mark < |c.input|
  {
    hide Rereads, LineLen, FirstLine, NextSectionAt, OpensSection;
    ghost var rest := c.input[c.pos..];
    ghost var start := c.pos;
    while true
      invariant c.Cached() && c.cachelen == 0 && c.pos == c.mark && c.output == old(c.output)
      invariant start + NextSectionAt(rest) == c.pos + NextSectionAt(c.input[c.pos..])
      decreases |c.input| - c.pos
    {
      NextSectionAtStep(c.input[c.pos..]);
      var ok, opens, sets, comment, ep;
      ghost var line;
      ok, opens, sets, comment, ep, line := ReadAndMatch(c, "");
      if !ok { return false; }
      if opens { return true; }
      c.mark := c.pos;
      RereadsNothing(c.input[c.mark..], BUFFER_SIZE);
    }
  }

  // ----- ini_puts ------------------------------------------------------------------------------------

  // The copy of a file with a section in it, or without a section name.
  method CopyPut(c: LineCache, section: string, key: string, value: Option<string>)
    requires c.Cached() && c.pos == c.mark == c.cachelen == 0 && c.output == ""
    requires NulFree(section) && NulFree(key) && (value.Some? ==> NulFree(value.value))
    modifies c, c.buffer
    ensures c.output == PutKeyText(c.input, section, key, value)
  {
    hide Rereads, NulFree, PutInBody, NewlineFor, Printed, SectionLine, LastGroup, HasSection, PutKeyText, BodyAt;
    PutKeyTextCases(c.input, section, key, value);
    var found := CopyThroughHeader(c, section);
    if !found {
      AddAtEnd(c, section, key, value);
      return;
    }
    var endsLine, stuck := c.Flush();
    PutInSection(c, key, value);
  }

  lemma PutKeyTextCases(text: string, section: string, key: string, value: Option<string>)
    ensures HasSection(text, section) ==>
              PutKeyText(text, section, key, value)
                == text[..BodyAt(text, section)] + PutInBody(text[BodyAt(text, section)..], key, value)
    ensures !HasSection(text, section) ==>
              && section != ""
              && PutKeyText(text, section, key, value)
                   == text + if value == None then "" else NewlineFor(text) + SectionLine(section) + Printed(key, value)
  {
    hide PutInBody, NewlineFor, SectionLine, Printed, BodyAt, HeaderAt;
  }

  // The first loop of ini_puts: copy up to the section's header, and the header too.
  method CopyThroughHeader(c: LineCache, section: string) returns (found: bool)
    requires c.Cached() && c.pos == c.mark == c.cachelen == 0 && c.output == "" && NulFree(section)
    modifies c, c.buffer
    ensures c.Cached() && (found <==> HasSection(c.input, section))
    ensures found ==> c.pos == c.mark + c.cachelen == BodyAt(c.input, section) && c.Copied() == c.input[..c.pos]
    ensures !found ==>
              c.pos == c.mark + c.cachelen == |c.input| && c.Copied() == c.input && c.cachelen == LastGroup(c.input, 0)
  {
    hide Rereads, NulFree, LineLen, FirstLine, IsHeaderOf, HeaderAt, LastGroup;
    ghost var text := c.input;
    ghost var h := HeaderAt(text, section);
    assert text[0..] == text && "" + text[..h] == text[..h];
    found := true;
    if section != "" {
      var sp;
      ghost var line;
      found, sp, line := CopyUntilHeader(c, section);
      if !found { return; }
      c.CopyLine(line);
    }
    CopiedIsPrefix(text, section, c.Copied(), c.pos);
  }

  lemma CopiedIsPrefix(text: string, section: string, copied: string, p: nat)
    requires HasSection(text, section)
    requires section == "" ==> copied == "" && p == 0
    requires section != "" ==>
               var h := HeaderAt(text, section);
               copied == text[..h] + FirstLine(text[h..]) && p == h + |FirstLine(text[h..])|
    ensures p == BodyAt(text, section) && copied == text[..p]
  {
    hide FirstLine, HeaderAt;
    if section != "" {
      var h := HeaderAt(text, section);
      FirstLineTwice(text[h..]);
      PrefixOfDrop(text, h, FirstLine(text[h..]));
      assert text[..p] == text[..h] + text[h..p];
    }
  }

  // At the end of a file without the section.
  method AddAtEnd(c: LineCache, section: string, key: string, value: Option<string>)
    requires c.Cached() && c.pos == c.mark + c.cachelen == |c.input| && c.Copied() == c.input
    requires c.cachelen == LastGroup(c.input, 0) && section != ""
    requires NulFree(section) && NulFree(key) && (value.Some? ==> NulFree(value.value))
    modifies c, c.buffer
    ensures c.output == c.input + if value == None then ""
              else NewlineFor(c.input) + SectionLine(section) + Printed(key, value)
  {
    hide Rereads, NulFree, LastGroup, SectionLine, KeyLine;
    EndsLineIff(c.input, 0);
    assert c.input[0..] == c.input;
    ghost var text := c.input;
    var endsLine, stuck := c.Flush();
    if value.Some? {
      if !endsLine { c.output := c.output + "\n"; }
      WriteSectionIn(c.buffer, section);
      c.Write(SectionLine(section));
      WriteKey(c, key, value.value);
      JoinThree(text, NewlineFor(text), SectionLine(section), Printed(key, value));
    }
  }

  // The copy without a key.
  method CopyErase(c: LineCache, section: string)
    requires c.Cached() && c.pos == c.mark == c.cachelen == 0 && c.output == "" && NulFree(section)
    modifies c, c.buffer
    ensures c.output == EraseText(c.input, section)
  {
    hide Rereads, NulFree, LineLen, FirstLine, IsHeaderOf, HeaderAt, AfterSection, LastGroup;
    ghost var text := c.input;
    ghost var h := HeaderAt(text, section);
    assert text[0..] == text && "" + text[..h] == text[..h];
    var found := true;
    if section != "" {
      var sp;
      ghost var line;
      found, sp, line := CopyUntilHeader(c, section);
    }
    var endsLine, stuck := c.Flush();
    if found { EraseSection(c); }
  }

  /** ini_puts.  `canRewrite` is whether the file can be opened to be written in place, canWrite
      whether the file, or the temporary one, can be opened for writing. */
  method PutKey(f: IniFile, section: string, key: Option<string>, value: Option<string>, canRewrite: bool,
      canWrite: bool) returns (ok: bool)
    requires NulFree(f.text) && NulFree(section)
    requires (key.Some? ==> NulFree(key.value)) && (value.Some? ==> NulFree(value.value))
    modifies f
    ensures !ok ==> f.present == old(f.present) && f.text == old(f.text) && !(canWrite && canRewrite)
    ensures canWrite && canRewrite ==> ok
    ensures ok && !old(f.present) && key.Some? && value.Some? ==>
              f.present && f.text == SectionLine(section) + KeyLine(key.value, value.value)
    ensures ok && !old(f.present) && (key.None? || value.None?) ==> f.present == old(f.present) && f.text == old(f.text)
    ensures ok && old(f.present) ==> f.present
    ensures ok && old(f.present) && key.None? ==> f.text == EraseText(old(f.text), section)
    ensures ok && old(f.present) && key.Some? && value.None? ==>
              f.text == PutKeyText(old(f.text), section, key.value, None)
    ensures ok && old(f.present) && key.Some? && value.Some? ==>
              f.text == PutText(old(f.text), section, key.value, value.value)
  {
    hide NulFree, PutText, PutKeyText, EraseText, GetKey, SectionLine, KeyLine, Rereads;
    if !f.present {
      if key.Some? && value.Some? {
        if !canWrite { return false; }
        var w := new LineCache("");
        NewFile(w, section, key.value, value.value);
        f.present, f.text := true, w.output;
      }
      return true;
    }
    if key.Some? && value.Some? {
      ok := PutOver(f, section, key.value, value.value, canRewrite, canWrite);
      return;
    }
    if !canWrite { return false; }
    var c := new LineCache(f.text);
    if key.Some? {
      CopyPut(c, section, key.value, None);
    } else {
      CopyErase(c, section);
    }
    f.text := c.output;
    return true;
  }

  method NewFile(w: LineCache, section: string, key: string, value: string)
    requires w.Valid() && w.output == "" && NulFree(section) && NulFree(key) && NulFree(value)
    modifies w`output, w.buffer
    ensures w.output == SectionLine(section) + KeyLine(key, value)
  {
    hide NulFree, SectionLine, KeyLine;
    SectionLineOfNone();
    if section != "" {
      WriteSectionIn(w.buffer, section);
      w.Write(SectionLine(section));
    }
    WriteKey(w, key, value);
  }

  // With a key and a value, on a file that exists: the shortcuts first.
  method PutOver(f: IniFile, section: string, key: string, value: string, canRewrite: bool, canWrite: bool)
    returns (ok: bool)
    requires f.present && NulFree(f.text) && NulFree(section) && NulFree(key) && NulFree(value)
    modifies f`text
    ensures !ok ==> f.text == old(f.text) && !(canWrite && canRewrite)
    ensures canWrite && canRewrite ==> ok
    ensures ok ==> f.text == PutText(old(f.text), section, key, value)
  {
    hide NulFree, PutKeyText, GetKey, KeyLine, Rereads, FirstLine, OtherLines, EntryAt, Overwritten, SameLength;
    var c := new LineCache(f.text);
    var found, was, head, tail := GetKeyString(c, section, key);
    if found {
      if was == value { return true; }
      WriteKeyIn(c.buffer, key, value);
      var len := StrLen(c.buffer, 0, KeyLine(key, value));
      LengthsSame(f.text, section, key, value, head, tail);
      if len == tail - head {
        if !canRewrite { return false; }
        var line := TextAt(c.buffer, 0, KeyLine(key, value));
        f.text := f.text[..head] + line + f.text[head + |line|..];
        return true;
      }
    }
    c.pos := 0;
    if !canWrite { return false; }
    CopyPut(c, section, key, Some(value));
    f.text := c.output;
    return true;
  }

  // Whether the shortcut is taken, and what it leaves.
  lemma LengthsSame(text: string, section: string, key: string, value: string, head: nat, tail: nat)
    requires GetKey(text, section, key).Some?
    requires head == EntryAt(text, section, key) && tail == head + |FirstLine(text[head..])| <= |text|
    ensures SameLength(text, section, key, value) <==> |KeyLine(key, value)| == tail - head
    ensures |KeyLine(key, value)| == tail - head ==>
              Overwritten(text, section, key, value) == text[..head] + KeyLine(key, value) + text[tail..]
  {
    hide KeyLine, GetKey, EntryAt, FirstLine, OtherLines;
    TailIsRest(text, head, tail);
  }

  lemma TailIsRest(text: string, head: nat, tail: nat)
    requires head <= |text| && tail == head + |FirstLine(text[head..])| <= |text|
    ensures OtherLines(text[head..]) == text[tail..]
  {
    FirstLineLen(text[head..]);
    DropDrop(text, head, tail - head);
  }
}

/** ini_putsection: replace one section of a file, or add it at the end.  The function
    PutSectionText says what file it leaves, byte for byte. */
module IniSection {
  import opened CText
  import opened IniLines
  import opened IniQuoting
  import opened IniBuffer
  import opened IniCache

  // ----- specification ------------------------------------------------------------------

  function KeyLines(keys: seq<string>, values: seq<string>): string {
    if keys == [] || values == [] then ""
    else KeyLine(keys[0], values[0]) + KeyLines(keys[1..], values[1..])
  }

  // What putsection writes; nothing at all when there are no keys.
  function Block(section: string, keys: seq<string>, values: seq<string>): string {
    if keys == [] || values == [] then ""
    else SectionLine(section) + KeyLines(keys, values) + "\n"
  }

  // What is left of s once its first line and the lines up to the next section are gone.
  function AfterSection(s: string): string {
    OtherLines(s)[NextSectionAt(OtherLines(s))..]
  }

  /** The file ini_putsection leaves: the section's old text is cut out and the block put in
      its place; a missing section is added at the end, on a new line.  Without a section
      name the first line of the file and all up to the next section go. */
  ghost function PutSectionText(text: string, section: string, block: string): string {
    if section == "" then block + AfterSection(text)
    else
      var h := HeaderAt(text, section);
      if h == |text| then text + (if NeedsNewline(text) then "\n" else "") + block
      else text[..h] + block + AfterSection(text[h..])
  }

  /** ini_putsection never returns when the section's header is the last line of the file
      and is indented, and there is something to write. */
  ghost predicate PutSectionHangs(text: string, section: string, block: string) {
    && section != "" && block != ""
    && var h := HeaderAt(text, section);
       h < |text| && OtherLines(text[h..]) == "" && Blank(text[h])
  }

  datatype Outcome = Done(ok: bool) | Hangs

  // ----- the phases ---------------------------------------------------------------------

  lemma HeaderAtStep(s: string, section: string)
    ensures s == "" ==> HeaderAt(s, section) == 0
    ensures s != "" && IsHeaderOf(FirstLine(s), section) ==> HeaderAt(s, section) == 0
    ensures s != "" && !IsHeaderOf(FirstLine(s), section) ==>
              HeaderAt(s, section) == |FirstLine(s)| + HeaderAt(OtherLines(s), section)
  {
  }

  lemma NextSectionAtStep(s: string)
    ensures s == "" ==> NextSectionAt(s) == 0
    ensures s != "" && OpensSection(FirstLine(s)) ==> NextSectionAt(s) == 0
    ensures s != "" && !OpensSection(FirstLine(s)) ==>
              NextSectionAt(s) == |FirstLine(s)| + NextSectionAt(OtherLines(s))
  {
  }

  lemma LastGroupStep(s: string, group: nat)
    ensures LastGroup(s, group) == if s == "" then group
            else LastGroup(OtherLines(s), if group + |FirstLine(s)| >= BUFFER_SIZE then |FirstLine(s)|
                else group + |FirstLine(s)|)
  {
  }

  // Whether the line in the buffer is the header of `section`, and where its text starts.
  method MatchHeader(buffer: array<char>, section: string, ghost line: string) returns (matches: bool, sp: nat)
    requires Holds(buffer, 0, line) && NulFree(section)
    ensures matches <==> IsHeaderOf(line, section)
    ensures sp == LeadingBlanks(line)
  {
    sp := SkipLeadingIn(buffer, 0, line);
    ghost var s := SkipLeading(line);
    var ep := LastIndexIn(buffer, sp, ']', s);
    CharIn(buffer, sp, s, sp);
    matches := false;
    if buffer[sp] == '[' && ep >= sp && ep - sp - 1 == |section| {
      ghost var t := s[1..];
      matches := SameNoCaseIn(buffer, sp + 1, section, t);
      assert t[..|section|] == s[1..ep - sp];
    }
  }

  // Read a line and copy it, unless it is the header of the section.
  method CopyUnlessHeader(c: LineCache, section: string) returns (ok: bool, found: bool, sp: nat, ghost line: string)
    requires c.Cached() && c.pos == c.mark + c.cachelen && NulFree(section)
    modifies c, c.buffer
    ensures c.Cached()
    ensures ok <==> old(c.pos) < |c.input|
    ensures ok ==> line == FirstLine(c.input[old(c.pos)..]) && c.pos == old(c.pos) + |line|
    ensures ok ==> c.input[c.pos..] == OtherLines(c.input[old(c.pos)..])
    ensures found <==> ok && IsHeaderOf(line, section)
    ensures found ==> Holds(c.buffer, 0, line) && sp == LeadingBlanks(line)
    ensures !ok ==> c.pos == old(c.pos)
    ensures !ok || found ==>
              c.mark == old(c.mark) && c.cachelen == old(c.cachelen) && c.Copied() == old(c.Copied())
    ensures ok && !found ==>
              && c.mark + c.cachelen == c.pos
              && c.Copied() == old(c.Copied()) + line
              && c.cachelen == if old(c.cachelen) + |line| >= BUFFER_SIZE then |line| else old(c.cachelen) + |line|
  {
    hide Rereads, NulFree, LineLen, FirstLine, IsHeaderOf;
    sp, found := 0, false;
    ok, line := c.ReadLine();
    if ok {
      found, sp := MatchHeader(c.buffer, section, line);
      if !found {
        c.CopyLine(line);
      }
    }
  }

  // Copy lines until the header of the section, which stays uncopied.
  method CopyUntilHeader(c: LineCache, section: string) returns (found: bool, sp: nat, ghost line: string)
    requires c.Cached() && c.pos == c.mark + c.cachelen && NulFree(section)
    modifies c, c.buffer
    ensures c.Cached()
    ensures var rest := c.input[old(c.pos)..];
            var h := HeaderAt(rest, section);
            && (found <==> h < |rest|)
            && c.Copied() == old(c.Copied()) + rest[..h]
            && c.mark + c.cachelen == old(c.pos) + h
            && (!found ==> c.pos == |c.input| && c.cachelen == LastGroup(rest, old(c.cachelen)))
            && (found ==>
                  && line == FirstLine(rest[h..]) && Holds(c.buffer, 0, line)
                  && c.pos == old(c.pos) + h + |line| && sp == LeadingBlanks(line))
  {
    hide Rereads, NulFree, LineLen, FirstLine, IsHeaderOf, HeaderAt, LastGroup;
    ghost var rest := c.input[c.pos..];
    ghost var from := From(c.pos, c.Copied(), HeaderAt(rest, section), LastGroup(rest, c.cachelen));
    ghost var prefix := "";
    var more := true;
    line := "";
    found, sp := false, 0;
    assert c.Copied() + "" == c.Copied();
    while more
      invariant more ==> Copying(c, section, from, prefix)
      invariant !more ==> Stopped(c, from, prefix, found, sp, line)
      decreases more, |c.input| - c.pos
    {
      hide Copying, Stopped;
      more, found, sp, line := CopyStep(c, section, from, prefix);
      if more { prefix := prefix + line; }
    }
    PrefixIs(rest, prefix, c.input[c.mark + c.cachelen..]);
  }

  // What the loop started from: the position, what was copied, and what it is to find.
  datatype Start = From(pos: nat, copied: string, header: nat, group: nat)

  // The loop has copied `prefix` and still has to read the rest of the input.
  ghost predicate Copying(c: LineCache, section: string, from: Start, prefix: string)
    reads c
  {
    && c.Cached() && c.pos == c.mark + c.cachelen == from.pos + |prefix|
    && c.input[from.pos..] == prefix + c.input[c.pos..]
    && c.Copied() == from.copied + prefix
    && from.header == |prefix| + HeaderAt(c.input[c.pos..], section)
    && from.group == LastGroup(c.input[c.pos..], c.cachelen)
  }

  // The loop has copied `prefix`, and then found the header or the end of the file.
  ghost predicate Stopped(c: LineCache, from: Start, prefix: string, found: bool, sp: nat, line: string)
    reads c, c.buffer
  {
    var stop := from.pos + |prefix|;
    && c.Cached() && c.mark + c.cachelen == stop
    && c.input[from.pos..] == prefix + c.input[stop..]
    && c.Copied() == from.copied + prefix
    && from.header == |prefix|
    && (!found ==> c.pos == stop == |c.input| && c.cachelen == from.group)
    && (found ==>
          && stop < |c.input|
          && line == FirstLine(c.input[stop..]) && Holds(c.buffer, 0, line)
          && c.pos == stop + |line| && sp == LeadingBlanks(line))
  }

  method CopyStep(c: LineCache, section: string, ghost from: Start, ghost prefix: string)
    returns (more: bool, found: bool, sp: nat, ghost line: string)
    requires Copying(c, section, from, prefix) && NulFree(section)
    modifies c, c.buffer
    ensures more ==> Copying(c, section, from, prefix + line) && old(c.pos) < c.pos <= |c.input|
    ensures !more ==> Stopped(c, from, prefix, found, sp, line)
  {
    hide Rereads, NulFree, LineLen, FirstLine, OtherLines, IsHeaderOf, HeaderAt, LastGroup;
    ghost var s := c.input[c.pos..];
    HeaderAtStep(s, section);
    LastGroupStep(s, c.cachelen);
    var ok;
    ok, found, sp, line := CopyUnlessHeader(c, section);
    more := ok && !found;
    if more {
      NextPrefix(c.input[from.pos..], prefix, line, s, OtherLines(s));
    }
  }

  lemma PrefixIs(all: string, a: string, b: string)
    requires all == a + b
    ensures all[..|a|] == a && all[|a|..] == b
  {
  }

  lemma NextPrefix(all: string, a: string, line: string, b: string, rest: string)
    requires all == a + b && b == line + rest
    ensures all == (a + line) + rest
    ensures forall x: string :: (x + a) + line == x + (a + line)
  {
  }

  // Read past lines, moving the mark along, until one opens a section.  `sp` is where the
  // text of the last line that was read starts; it keeps its value when none is read.
  method SkipToSection(c: LineCache, sp0: int) returns (sp: int)
    requires c.Cached() && c.cachelen == 0 && c.pos == c.mark
    modifies c, c.buffer
    ensures c.Cached() && c.cachelen == 0 && c.output == old(c.output)
    ensures var rest := c.input[old(c.pos)..];
            && c.mark == old(c.pos) + NextSectionAt(rest)
            && (c.mark < |c.input| ==>
                  && Holds(c.buffer, 0, FirstLine(c.input[c.mark..]))
                  && sp == LeadingBlanks(FirstLine(c.input[c.mark..]))
                  && c.pos == c.mark + |FirstLine(c.input[c.mark..])|)
            && (c.mark == |c.input| ==>
                  && c.pos == c.mark && c.buffer[0] == '\0'
                  && (rest == "" ==> sp == sp0 && OnlyChanged(c.buffer, 0, 1))
                  && (rest != "" ==> 0 <= sp < BUFFER_SIZE && c.buffer[sp] != '['))
  {
    hide Rereads, NulFree, LineLen, FirstLine, NextSectionAt;
    sp := sp0;
    ghost var rest := c.input[c.pos..];
    while true
      invariant c.Cached() && c.cachelen == 0 && c.pos == c.mark && c.output == old(c.output)
      invariant old(c.pos) + NextSectionAt(rest) == c.pos + NextSectionAt(c.input[c.pos..])
      invariant old(c.pos) <= c.pos
      invariant c.pos == old(c.pos) ==> sp == sp0 && OnlyChanged(c.buffer, 0, 0)
      invariant c.pos > old(c.pos) ==> 0 <= sp < BUFFER_SIZE && c.buffer[sp] != '['
      decreases |c.input| - c.pos
    {
      ghost var s := c.input[c.pos..];
      NextSectionAtStep(s);
      var ok;
      ghost var line;
      ok, line := c.ReadLine();
      if !ok {
        var _, _ := c.Flush();
        c.mark := c.pos;
        RereadsNothing(c.input[c.mark..], BUFFER_SIZE);
        return;
      }
      sp := SkipLeadingIn(c.buffer, 0, line);
      CharIn(c.buffer, sp, SkipLeading(line), sp);
      if c.buffer[sp] == '[' {
        return;
      }
      c.mark := c.pos;
      RereadsNothing(c.input[c.mark..], BUFFER_SIZE);
    }
  }

  // putsection: write the block.  The buffer is left holding the last key line.
  method WriteBlock(c: LineCache, section: string, keys: seq<string>, values: seq<string>) returns (ghost last: string)
    requires c.Valid() && NulFree(section)
    requires forall k :: k in keys ==> NulFree(k)
    requires forall v :: v in values ==> NulFree(v)
    modifies c`output, c.buffer
    ensures c.output == old(c.output) + Block(section, keys, values)
    ensures Block(section, keys, values) == "" ==> OnlyChanged(c.buffer, 0, 0)
    ensures Block(section, keys, values) != "" ==> last != "" && Holds(c.buffer, 0, last)
  {
    hide NulFree, KeyLines, SectionLine, LineLen, FirstLine;
    last := "";
    if keys == [] || values == [] { return; }
    SectionLineOfNone();
    ghost var start, head, body := c.output, SectionLine(section), KeyLines(keys, values);
    assert start + head + body + "\n" == start + (head + body + "\n");
    if section != "" {
      WriteSectionIn(c.buffer, section);
      c.Write(SectionLine(section));
    }
    last := WriteKeys(c, keys, values);
    c.output := c.output + "\n";
  }

  method WriteKeys(c: LineCache, keys: seq<string>, values: seq<string>) returns (ghost last: string)
    requires c.Valid() && keys != [] && values != []
    requires forall k :: k in keys ==> NulFree(k)
    requires forall v :: v in values ==> NulFree(v)
    modifies c`output, c.buffer
    ensures c.output == old(c.output) + KeyLines(keys, values)
    ensures last != "" && Holds(c.buffer, 0, last)
  {
    hide NulFree, KeyLine, KeyLines;
    ghost var all := KeyLines(keys, values);
    ghost var prefix := "";
    assert keys[0..] == keys && values[0..] == values;
    last := "";
    var i := 0;
    while i < |keys| && i < |values|
      invariant i <= |keys| && i <= |values|
      invariant c.output == old(c.output) + prefix
      invariant all == prefix + KeyLines(keys[i..], values[i..])
      invariant i > 0 ==> last != "" && Holds(c.buffer, 0, last)
    {
      WriteKeyIn(c.buffer, keys[i], values[i]);
      last := KeyLine(keys[i], values[i]);
      c.Write(last);
      KeyLinesStep(keys, values, i);
      NextPrefix(all, prefix, last, KeyLines(keys[i..], values[i..]), KeyLines(keys[i + 1..], values[i + 1..]));
      prefix := prefix + last;
      i := i + 1;
    }
    KeyLinesEnd(keys, values, i);
  }

  lemma SectionLineOfNone()
    ensures SectionLine("") == ""
  {
  }

  lemma KeyLinesEnd(keys: seq<string>, values: seq<string>, i: nat)
    requires i <= |keys| && i <= |values| && (i == |keys| || i == |values|)
    ensures KeyLines(keys[i..], values[i..]) == ""
  {
  }

  lemma KeyLinesStep(keys: seq<string>, values: seq<string>, i: nat)
    requires i < |keys| && i < |values|
    ensures KeyLines(keys[i..], values[i..]) == KeyLine(keys[i], values[i]) + KeyLines(keys[i + 1..], values[i + 1..])
  {
    assert keys[i..][1..] == keys[i + 1..] && values[i..][1..] == values[i + 1..];
  }

  // Copy all lines that are left, and flush.  At the end of the file nothing is left, and
  // whatever the cache claims to hold cannot be read again.
  method CopyRest(c: LineCache) returns (stuck: bool)
    requires c.Valid()
    requires if c.pos < |c.input| then c.Cached() && c.pos == c.mark + c.cachelen
             else c.mark == c.pos || (c.Cached() && c.pos == c.mark + c.cachelen)
    modifies c, c.buffer
    ensures stuck <==> old(c.mark) == |c.input| && old(c.cachelen) > 0
    ensures !stuck && old(c.mark) == |c.input| ==> c.output == old(c.output)
    ensures !stuck && old(c.mark) < |c.input| ==> c.output == old(c.Copied()) + c.input[old(c.pos)..]
  {
    hide Rereads, NulFree, LineLen, FirstLine;
    CopyLines(c);
    var endsLine;
    endsLine, stuck := c.Flush();
  }

  method CopyNext(c: LineCache) returns (ok: bool, ghost line: string)
    requires c.Valid()
    requires c.pos < |c.input| ==> c.Cached() && c.pos == c.mark + c.cachelen
    modifies c, c.buffer
    ensures c.Valid() && (ok <==> old(c.pos) < |c.input|)
    ensures !ok ==>
              c.pos == old(c.pos) && c.mark == old(c.mark) && c.cachelen == old(c.cachelen) && c.output == old(c.output)
    ensures ok ==>
              && c.Cached() && c.pos == c.mark + c.cachelen == old(c.pos) + |line| && line != ""
              && c.input[old(c.pos)..] == line + c.input[c.pos..]
              && c.Copied() == old(c.Copied()) + line
  {
    hide Rereads, NulFree, LineLen, FirstLine;
    ghost var s := c.input[c.pos..];
    ok, line := c.ReadLine();
    if ok {
      c.CopyLine(line);
    }
  }

  method CopyLines(c: LineCache)
    requires c.Valid()
    requires if c.pos < |c.input| then c.Cached() && c.pos == c.mark + c.cachelen
             else c.mark == c.pos || (c.Cached() && c.pos == c.mark + c.cachelen)
    modifies c, c.buffer
    ensures c.Valid() && c.pos == |c.input|
    ensures old(c.mark) == |c.input| ==>
              c.mark == |c.input| && c.cachelen == old(c.cachelen) && c.output == old(c.output)
    ensures old(c.mark) < |c.input| ==>
              && c.Cached() && c.pos == c.mark + c.cachelen
              && (c.mark == |c.input| ==> c.cachelen == 0)
              && c.Copied() == old(c.Copied()) + c.input[old(c.pos)..]
  {
    hide Rereads, NulFree, LineLen, FirstLine;
    ghost var rest := c.input[c.pos..];
    ghost var prefix := "";
    while true
      invariant c.Valid() && old(c.pos) <= c.pos
      invariant old(c.mark) == |c.input| ==>
                  c.mark == |c.input| && c.cachelen == old(c.cachelen) && c.output == old(c.output)
      invariant old(c.mark) < |c.input| ==>
                  && c.Cached() && c.pos == c.mark + c.cachelen
                  && c.Copied() == old(c.Copied()) + prefix
      invariant rest == prefix + c.input[c.pos..]
      decreases |c.input| - c.pos
    {
      ghost var s := c.input[c.pos..];
      var ok;
      ghost var line;
      ok, line := CopyNext(c);
      if !ok {
        NothingLeft(c.input, rest, prefix);
        return;
      }
      NextPrefix(rest, prefix, line, s, c.input[c.pos..]);
      prefix := prefix + line;
    }
  }

  lemma NothingLeft(all: string, rest: string, prefix: string)
    requires rest == prefix + all[|all|..]
    ensures rest == prefix
  {
  }

  // From the section's header on: skip the old section, write the block, copy the rest.
  // `sp0` is where the header's text starts, or -1 when no header was looked for.
  method ReplaceSection(c: LineCache, section: string, keys: seq<string>, values: seq<string>, sp0: int)
    returns (stuck: bool)
    requires c.Cached() && c.cachelen == 0 && c.pos == c.mark
    requires sp0 == -1 ||
             (&& c.pos < |c.input| && OpensSection(FirstLine(c.input[c.pos..]))
              && sp0 == LeadingBlanks(FirstLine(c.input[c.pos..])))
    requires NulFree(section)
    requires forall k :: k in keys ==> NulFree(k)
    requires forall v :: v in values ==> NulFree(v)
    modifies c, c.buffer
    ensures stuck <==> sp0 > 0 && OtherLines(c.input[old(c.pos)..]) == "" && Block(section, keys, values) != ""
    ensures !stuck ==>
              c.output == old(c.output) + Block(section, keys, values) + AfterSection(c.input[old(c.pos)..])
  {
    hide Rereads, NulFree, LineLen, FirstLine, OtherLines, NextSectionAt, Block, OpensSection;
    ghost var s := c.input[c.pos..];
    OtherLinesOfNone();
    var ok;
    ghost var line;
    ok, line := c.ReadLine();
    c.mark := c.pos;
    RereadsNothing(c.input[c.mark..], BUFFER_SIZE);
    if sp0 >= 0 { OpensSectionChar(line); }
    ghost var rest := c.input[c.pos..];
    ghost var start := c.pos;
    var atSection := SkipOldSection(c, sp0, line);
    DropDrop(c.input, start, NextSectionAt(rest));
    stuck := WriteAndCopyRest(c, section, keys, values, atSection);
  }

  lemma OpensSectionChar(line: string)
    requires OpensSection(line)
    ensures LeadingBlanks(line) < |line| && line[LeadingBlanks(line)] == '['
  {
  }

  // Skip to the next section.  The answer is read at `sp` from a buffer that may have been
  // reused: at the end of the file it is wrong exactly when no line was skipped and the
  // header, still in the buffer, does not start at its first byte.
  method SkipOldSection(c: LineCache, sp0: int, ghost line: string) returns (atSection: bool)
    requires c.Cached() && c.cachelen == 0 && c.pos == c.mark
    requires sp0 == -1 || (0 <= sp0 < |line| && line[sp0] == '[' && Holds(c.buffer, 0, line))
    modifies c, c.buffer
    ensures c.Cached() && c.cachelen == 0 && c.output == old(c.output)
    ensures c.mark == old(c.pos) + NextSectionAt(c.input[old(c.pos)..])
    ensures c.mark < |c.input| ==> atSection
    ensures c.mark == |c.input| ==> (atSection <==> sp0 > 0 && c.input[old(c.pos)..] == "")
  {
    hide Rereads, NulFree, LineLen, FirstLine, NextSectionAt, OpensSection;
    ghost var rest := c.input[c.pos..];
    if sp0 >= 0 { CharIn(c.buffer, 0, line, sp0); }
    var sp := SkipToSection(c, sp0);
    if c.mark < |c.input| {
      ghost var opening := FirstLine(c.input[c.mark..]);
      DropDrop(c.input, c.mark - NextSectionAt(rest), NextSectionAt(rest));
      AfterNextSection(rest);
      OpensSectionChar(opening);
      CharIn(c.buffer, 0, opening, sp);
    }
    atSection := sp >= 0 && c.buffer[sp] == '[';
  }

  lemma OtherLinesOfNone()
    ensures OtherLines("") == "" && FirstLine("") == ""
  {
  }

  // The mark is before the next section, or at the end of the file.
  method WriteAndCopyRest(c: LineCache, section: string, keys: seq<string>, values: seq<string>, atSection: bool)
    returns (stuck: bool)
    requires c.Cached() && c.cachelen == 0
    requires c.mark < |c.input| ==> atSection
    requires NulFree(section)
    requires forall k :: k in keys ==> NulFree(k)
    requires forall v :: v in values ==> NulFree(v)
    modifies c, c.buffer
    ensures stuck <==> old(c.mark) == |c.input| && atSection && Block(section, keys, values) != ""
    ensures !stuck ==>
              c.output == old(c.output) + Block(section, keys, values) + c.input[old(c.mark)..]
  {
    hide Rereads, NulFree, LineLen, FirstLine, OtherLines, Block;
    var endsLine, never := c.Flush();
    HoldsNothing(c.buffer, 0);
    ghost var last := WriteBlock(c, section, keys, values);
    ghost var block := Block(section, keys, values);
    ghost var s := c.input[c.mark..];
    ghost var line;
    var ok;
    ok, line := c.ReadLine();
    if atSection {
      if ok {
        GroupRereads(c.input, c.mark, 0, line);
        PrefixOfDrop(c.input, c.mark, line);
        var fits := c.Accumulate(line);
      } else {
        var fits := c.Accumulate(if block == "" then "" else last);
      }
    } else {
      c.mark := c.pos;
      RereadsNothing(c.input[c.mark..], BUFFER_SIZE);
    }
    stuck := CopyRest(c);
  }

  // ini_putsection on an open file.
  method Rewrite(c: LineCache, section: string, keys: seq<string>, values: seq<string>) returns (stuck: bool)
    requires c.Cached() && c.pos == c.mark == c.cachelen == 0 && c.output == ""
    requires NulFree(section)
    requires forall k :: k in keys ==> NulFree(k)
    requires forall v :: v in values ==> NulFree(v)
    modifies c, c.buffer
    ensures stuck <==> PutSectionHangs(c.input, section, Block(section, keys, values))
    ensures !stuck ==> c.output == PutSectionText(c.input, section, Block(section, keys, values))
  {
    hide Rereads, NulFree, LineLen, FirstLine, NextSectionAt, Block, AfterSection, IsHeaderOf, HeaderAt, OpensSection,
         OtherLines;
    ghost var text, block := c.input, Block(section, keys, values);
    ghost var h := HeaderAt(text, section);
    assert text[0..] == text && "" + text[..h] == text[..h];
    var sp: int := -1;
    if section != "" {
      var found;
      ghost var line;
      found, sp, line := CopyUntilHeader(c, section);
      if !found {
        AddSection(c, section, keys, values);
        return false;
      }
      HeaderOpens(text, section);
    }
    var endsLine, never := c.Flush();
    stuck := ReplaceSection(c, section, keys, values, sp);
  }

  // What is left to do at the end of a file without the section.
  method AddSection(c: LineCache, section: string, keys: seq<string>, values: seq<string>)
    requires c.Cached() && c.pos == c.mark + c.cachelen == |c.input|
    requires c.Copied() == c.input && c.cachelen == LastGroup(c.input, 0)
    requires NulFree(section)
    requires forall k :: k in keys ==> NulFree(k)
    requires forall v :: v in values ==> NulFree(v)
    modifies c, c.buffer
    ensures c.output == c.input + (if NeedsNewline(c.input) then "\n" else "") + Block(section, keys, values)
  {
    hide Rereads, NulFree, LastGroup, Block;
    var endsLine, stuck := c.Flush();
    if !endsLine { c.output := c.output + "\n"; }
    var _ := WriteBlock(c, section, keys, values);
  }

  lemma HeaderOpens(text: string, section: string)
    requires HeaderAt(text, section) < |text|
    ensures var s := text[HeaderAt(text, section)..];
            OpensSection(FirstLine(s)) && FirstLine(s) != "" && FirstLine(s)[0] == text[HeaderAt(text, section)]
    ensures var line := FirstLine(text[HeaderAt(text, section)..]);
            LeadingBlanks(line) > 0 <==> Blank(line[0])
  {
    BeforeHeader(text, section);
  }

  class IniFile {
    var present: bool
    var text: string

    constructor (present: bool, text: string)
      ensures this.present == present && this.text == text
    {
      this.present, this.text := present, text;
    }

    /** ini_putsection.  `canWrite` is whether the files can be opened for writing. */
    method PutSection(section: string, keys: seq<string>, values: seq<string>, canWrite: bool) returns (r: Outcome)
      requires NulFree(text) && NulFree(section)
      requires forall k :: k in keys ==> NulFree(k)
      requires forall v :: v in values ==> NulFree(v)
      modifies this
      ensures !canWrite ==> r == Done(false)
      ensures canWrite ==>
                (r == Hangs <==> old(present) && PutSectionHangs(old(text), section, Block(section, keys, values)))
      ensures r == Done(false) <==> !canWrite
      ensures r != Done(true) ==> present == old(present) && text == old(text)
      ensures r == Done(true) ==> present
      ensures r == Done(true) ==>
                text == if old(present) then PutSectionText(old(text), section, Block(section, keys, values))
                        else Block(section, keys, values)
    {
      hide NulFree, Block, Rereads, PutSectionText, PutSectionHangs;
      if !canWrite { return Done(false); }
      if !present {
        var w := new LineCache("");
        var _ := WriteBlock(w, section, keys, values);
        present, text := true, w.output;
        return Done(true);
      }
      var c := new LineCache(text);
      var stuck := Rewrite(c, section, keys, values);
      if stuck { return Hangs; }
      text := c.output;
      return Done(true);
    }
  }
}

/** ini_browse: every setting of a file, in order, as the callback sees it.  The name of
    the current section stays at the start of the buffer, so the longer it is the less of a
    line is read at a time. */
module IniBrowse {
  import opened CText
  import opened IniLines
  import opened IniQuoting
  import opened IniBuffer

  datatype Entry = Entry(section: string, key: string, value: string)

  const SECTION_MAX: nat := BUFFER_SIZE - 4

  function LineRoom(section: string): (room: nat)
    requires |section| <= SECTION_MAX
    ensures room >= 2
  {
    BUFFER_SIZE - (|section| + 1) - 1
  }

  lemma ParsedHeaderLength(line: string)
    ensures ParseLine(line).Header? ==> |ParseLine(line).name| + 2 <= |line|
  {
  }

  // What ini_browse reports of `text` when `section` is the current section.
  function Browse(text: string, section: string): (entries: seq<Entry>)
    requires |section| <= SECTION_MAX
    decreases |text|
  {
    if text == "" then []
    else
      var n := LineLen(text, LineRoom(section));
      ParsedHeaderLength(text[..n]);
      match ParseLine(text[..n])
      case Skipped => Browse(text[n..], section)
      case Header(name) => Browse(text[n..], name)
      case Pair(key, value) => [Entry(section, key, value)] + Browse(text[n..], section)
  }

  lemma BrowseStep(text: string, section: string, n: nat, line: string)
    requires |section| <= SECTION_MAX && text != ""
    requires n == LineLen(text, LineRoom(section)) && line == text[..n]
    ensures ParseLine(line).Skipped? ==> Browse(text, section) == Browse(text[n..], section)
    ensures ParseLine(line).Header? ==>
              && |ParseLine(line).name| <= SECTION_MAX
              && Browse(text, section) == Browse(text[n..], ParseLine(line).name)
    ensures ParseLine(line).Pair? ==>
              Browse(text, section)
                == [Entry(section, ParseLine(line).key, ParseLine(line).value)] + Browse(text[n..], section)
  {
    ParsedHeaderLength(line);
  }

  // A new section: move its name to the start of the buffer.
  method TakeHeader(buffer: array<char>, sp: nat, ep: nat, ghost s: string) returns (lenSec: nat)
    requires buffer.Length == BUFFER_SIZE && Holds(buffer, sp, s)
    requires s != "" && sp < ep < sp + |s| && ep == sp + LastIndexOf(s, ']')
    modifies buffer
    ensures Holds(buffer, 0, s[1..ep - sp]) && lenSec == ep - sp
  {
    ghost var name := s[1..ep - sp];
    buffer[ep] := '\0';
    assert Holds(buffer, sp + 1, name);
    CopyWithin(buffer, 0, sp + 1, BUFFER_SIZE, QuoteNone, name);
    lenSec := StrLen(buffer, 0, name);
    lenSec := lenSec + 1;
  }

  // The key: end it at the sign, strip it, and move it behind the section name.
  method TakeKey(buffer: array<char>, lenSec: nat, sp: nat, ep: nat, ghost s: string) returns (lenKey: nat)
    requires buffer.Length == BUFFER_SIZE && Holds(buffer, sp, s)
    requires lenSec <= sp <= ep < sp + |s|
    modifies buffer
    ensures Holds(buffer, lenSec, StripTrailing(s[..ep - sp])) && lenKey == |StripTrailing(s[..ep - sp])| + 1
    ensures Holds(buffer, ep + 1, s[ep - sp + 1..])
    ensures OnlyChanged(buffer, lenSec, ep + 1)
  {
    hide StripTrailing;
    ghost var key := StripTrailing(s[..ep - sp]);
    CutKey(buffer, sp, ep, s);
    label cut:
    CopyWithin(buffer, lenSec, sp, BUFFER_SIZE - lenSec, QuoteNone, key);
    lenKey := StrLen(buffer, lenSec, key);
    lenKey := lenKey + 1;
  }

  method CutKey(buffer: array<char>, sp: nat, ep: nat, ghost s: string)
    requires Holds(buffer, sp, s) && sp <= ep < sp + |s|
    modifies buffer
    ensures Holds(buffer, sp, StripTrailing(s[..ep - sp]))
    ensures Holds(buffer, ep + 1, s[ep - sp + 1..])
    ensures OnlyChanged(buffer, sp, ep + 1)
  {
    hide StripTrailing;
    ghost var raw, rest := s[..ep - sp], s[ep - sp + 1..];
    buffer[ep] := '\0';
    assert Holds(buffer, sp, raw);
    assert raw[..ep - sp] == raw;
    var end := SkipTrailingIn(buffer, sp, ep, raw);
    buffer[end] := '\0';
  }

  // The value: clean it and move it behind the key.
  method TakeValue(buffer: array<char>, at: nat, ep: nat, ghost s: string)
    requires buffer.Length == BUFFER_SIZE && Holds(buffer, ep, s) && at <= ep
    modifies buffer
    ensures Holds(buffer, at, ReadValue(s))
    ensures OnlyChanged(buffer, at, BUFFER_SIZE)
  {
    hide Unescaped, Uncommented;
    var sp := SkipLeadingIn(buffer, ep, s);
    ghost var t := SkipLeading(s);
    var quotes;
    sp, quotes := CleanString(buffer, sp, t);
    ghost var cleaned := Cleaned(t).0;
    CopyWithin(buffer, at, sp, BUFFER_SIZE - at, quotes, cleaned);
    if quotes == Dequote {
      UnescapedRoom(cleaned, BUFFER_SIZE - at - 1);
    }
  }

  // One line of the file that is not empty and not a comment.
  method TakeLine(buffer: array<char>, lenSec: nat, ghost section: string, ghost line: string)
    returns (newLenSec: nat, entry: seq<Entry>, ghost newSection: string)
    requires buffer.Length == BUFFER_SIZE && lenSec == |section| + 1
    requires Holds(buffer, 0, section) && Holds(buffer, lenSec, line)
    modifies buffer
    ensures newLenSec == |newSection| + 1 && Holds(buffer, 0, newSection)
    ensures match ParseLine(line)
            case Skipped => entry == [] && newSection == section
            case Header(name) => entry == [] && newSection == name
            case Pair(key, value) => entry == [Entry(section, key, value)] && newSection == section
  {
    hide StripTrailing, ReadValue, SplitAt, LastIndexOf, LeadingBlanks;
    newLenSec, entry, newSection := lenSec, [], section;
    ghost var s := SkipLeading(line);
    var sp := SkipLeadingIn(buffer, lenSec, line);
    CharIn(buffer, sp, s, sp);
    if buffer[sp] == '\0' || buffer[sp] == ';' || buffer[sp] == '#' {
      return;
    }
    var last := LastIndexIn(buffer, sp, ']', s);
    if buffer[sp] == '[' && last >= sp {
      newLenSec := TakeHeader(buffer, sp, last, s);
      newSection := s[1..last - sp];
      return;
    }
    var ep := FindSplit(buffer, sp, s);
    CharIn(buffer, sp, s, ep);
    if buffer[ep] == '\0' {
      return;
    }
    entry := TakePair(buffer, lenSec, sp, ep, section, s);
  }

  // The equal sign, or the colon when there is none.
  method FindSplit(buffer: array<char>, sp: nat, ghost s: string) returns (ep: nat)
    requires Holds(buffer, sp, s)
    ensures ep == sp + SplitAt(s)
  {
    ep := IndexIn(buffer, sp, '=', s);
    CharIn(buffer, sp, s, ep);
    if buffer[ep] == '\0' {
      ep := IndexIn(buffer, sp, ':', s);
    }
  }

  method TakePair(buffer: array<char>, lenSec: nat, sp: nat, ep: nat, ghost section: string, ghost s: string)
    returns (entry: seq<Entry>)
    requires buffer.Length == BUFFER_SIZE && lenSec == |section| + 1
    requires Holds(buffer, 0, section) && Holds(buffer, sp, s)
    requires lenSec <= sp <= ep < sp + |s|
    modifies buffer
    ensures Holds(buffer, 0, section)
    ensures entry == [Entry(section, StripTrailing(s[..ep - sp]), ReadValue(s[ep - sp + 1..]))]
  {
    hide StripTrailing, ReadValue;
    ghost var key := StripTrailing(s[..ep - sp]);
    var lenKey := TakeKey(buffer, lenSec, sp, ep, s);
    TakeValue(buffer, lenSec + lenKey, ep + 1, s[ep - sp + 1..]);
    var name := TextAt(buffer, 0, section);
    var k := TextAt(buffer, lenSec, key);
    var v := TextAt(buffer, lenSec + lenKey, ReadValue(s[ep - sp + 1..]));
    entry := [Entry(name, k, v)];
  }

  // The settings up to the k-th have been reported, and the callback wanted more each time; it
  // goes on until `goOn` says no to all that has been reported.
  function Heard(all: seq<Entry>, goOn: seq<Entry> -> bool, k: nat): (heard: seq<Entry>)
    ensures heard <= all
    decreases |all| - k
  {
    if k >= |all| then all
    else if goOn(all[..k + 1]) then Heard(all, goOn, k + 1)
    else all[..k + 1]
  }

  lemma {:induction false} HeardAll(all: seq<Entry>, goOn: seq<Entry> -> bool, k: nat)
    requires forall heard :: goOn(heard)
    ensures Heard(all, goOn, k) == all
    decreases |all| - k
  {
    if k < |all| { HeardAll(all, goOn, k + 1); }
  }

  lemma HeardOne(all: seq<Entry>, goOn: seq<Entry> -> bool, before: seq<Entry>, e: Entry, rest: seq<Entry>)
    requires all == before + ([e] + rest)
    ensures before + [e] <= all
    ensures Heard(all, goOn, |before|)
         == if goOn(before + [e]) then Heard(all, goOn, |before| + 1) else before + [e]
  {
    assert all[..|before| + 1] == before + [e];
  }

  /** ini_browse on a file with these contents; the entries are what the callback gets, up to the
      first after which it does not want to go on. */
  method BrowseFile(text: string, goOn: seq<Entry> -> bool) returns (entries: seq<Entry>)
    requires NulFree(text)
    ensures entries == Heard(Browse(text, ""), goOn, 0)
  {
    hide ParseLine, Browse, NulFree, LineLen, Heard;
    var buffer := new char[BUFFER_SIZE];
    buffer[0] := '\0';
    var lenSec := 1;
    ghost var section := "";
    HoldsNothing(buffer, 0);
    var pos := 0;
    entries := [];
    assert text[0..] == text;
    ghost var all := Browse(text, "");
    while true
      invariant buffer.Length == BUFFER_SIZE && pos <= |text|
      invariant |section| <= SECTION_MAX && lenSec == |section| + 1 && Holds(buffer, 0, section)
      invariant all == entries + Browse(text[pos..], section)
      invariant Heard(all, goOn, |entries|) == Heard(all, goOn, 0)
      decreases |text| - pos
    {
      var ok, next := FGets(buffer, lenSec, BUFFER_SIZE - lenSec, text, pos);
      if !ok { break; }
      ghost var rest, line := text[pos..], text[pos..next];
      assert line == rest[..next - pos];
      BrowseStep(rest, section, next - pos, line);
      DropDrop(text, pos, next - pos);
      var entry;
      lenSec, entry, section := TakeLine(buffer, lenSec, section, line);
      pos := next;
      if entry != [] {
        HeardOne(all, goOn, entries, entry[0], Browse(text[pos..], section));
        entries := entries + entry;
        if !goOn(entries) { return; }
      }
    }
    HeardEnd(all, goOn, text[pos..], section, entries);
  }

  lemma HeardEnd(all: seq<Entry>, goOn: seq<Entry> -> bool, rest: string, section: string, entries: seq<Entry>)
    requires rest == "" && |section| <= SECTION_MAX && all == entries + Browse(rest, section)
    ensures Heard(all, goOn, |entries|) == entries
  {
  }

  lemma BrowseNothing(text: string, section: string)
    requires text == "" && |section| <= SECTION_MAX
    ensures Browse(text, section) == []
  {
  }
}

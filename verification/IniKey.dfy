/** What ini_puts leaves in a file, and what getkeystring reads from it. */
module IniKey {
  import opened Basics
  import opened CText
  import opened IniLines
  import opened IniQuoting
  import opened IniSection

  // A line that sets the key: the name before its sign, without blanks around it, is the key.
  ghost predicate IsEntryOf(line: string, key: string) {
    var s := SkipLeading(line);
    var e := SplitAt(s);
    var name := StripTrailing(s[..e]);
    key != "" && e < |s| && |name| == |key| && EqualNoCase(name, key)
  }

  predicate IsComment(line: string) {
    var s := SkipLeading(line);
    s != "" && (s[0] == ';' || s[0] == '#')
  }

  // Where the search for a key ends: at a new section, or at the key.  getkeystring passes over
  // comments, ini_puts does not.
  ghost predicate Stops(line: string, key: string, comments: bool) {
    OpensSection(line) || (IsEntryOf(line, key) && (comments || !IsComment(line)))
  }

  ghost function StopAt(s: string, key: string, comments: bool): (e: nat)
    ensures e <= |s|
    decreases |s|
  {
    if s == "" || Stops(FirstLine(s), key, comments) then 0
    else |FirstLine(s)| + StopAt(OtherLines(s), key, comments)
  }

  // Where the lines of the section start; only for a section that is there.
  ghost function BodyAt(text: string, section: string): (p: nat)
    ensures p <= |text|
  {
    if section == "" then 0
    else var h := HeaderAt(text, section); h + |FirstLine(text[h..])|
  }

  ghost predicate HasSection(text: string, section: string) {
    section == "" || HeaderAt(text, section) < |text|
  }

  function Printed(key: string, value: Option<string>): string {
    match value case Some(v) => KeyLine(key, v) case None => ""
  }

  function NewlineFor(s: string): string {
    if NeedsNewline(s) then "\n" else ""
  }

  // The lines of the section and all behind it, after the key's line is replaced, added or
  // taken out.
  ghost function PutInBody(body: string, key: string, value: Option<string>): string {
    var e := StopAt(body, key, true);
    if e == |body| then body + if value == None then "" else NewlineFor(body) + Printed(key, value)
    else if OpensSection(FirstLine(body[e..])) then body[..e] + Printed(key, value) + body[e..]
    else body[..e] + Printed(key, value) + OtherLines(body[e..])
  }

  /** The file ini_puts copies: only the key's line changes; a missing key is added at the end of
      its section, and a missing section at the end of the file. */
  ghost function PutKeyText(text: string, section: string, key: string, value: Option<string>): string {
    if HasSection(text, section) then
      var p := BodyAt(text, section);
      text[..p] + PutInBody(text[p..], key, value)
    else text + if value == None then "" else NewlineFor(text) + SectionLine(section) + Printed(key, value)
  }

  // Without a key the whole section goes.
  ghost function EraseText(text: string, section: string): string {
    if section == "" then AfterSection(text)
    else
      var h := HeaderAt(text, section);
      if h == |text| then text else text[..h] + AfterSection(text[h..])
  }

  // ----- reading --------------------------------------------------------------------------------

  // The value on an entry's line, as it is left in a buffer of BUFFER_SIZE bytes.
  function ValueOn(line: string): string {
    ValueOf(SkipLeading(line))
  }

  function ValueOf(s: string): string {
    var e := SplitAt(s);
    if e == |s| then "" else
      var (t, quotes) := Cleaned(SkipLeading(s[e + 1..]));
      Copied(t, BUFFER_SIZE, quotes)
  }

  ghost function GetInBody(body: string, key: string): Option<string> {
    var e := StopAt(body, key, false);
    if e == |body| || OpensSection(FirstLine(body[e..])) then None else Some(ValueOn(FirstLine(body[e..])))
  }

  /** The value of a key, or nothing. */
  ghost function GetKey(text: string, section: string, key: string): Option<string> {
    if HasSection(text, section) then GetInBody(text[BodyAt(text, section)..], key) else None
  }

  // Where the line of an existing key starts.
  ghost function EntryAt(text: string, section: string, key: string): (e: nat)
    ensures e <= |text|
  {
    BodyAt(text, section) + StopAt(text[BodyAt(text, section)..], key, false)
  }

  // The shortcut: the key's line overwritten where it is.
  ghost function Overwritten(text: string, section: string, key: string, value: string): string
    requires GetKey(text, section, key).Some?
  {
    var e := EntryAt(text, section, key);
    text[..e] + KeyLine(key, value) + OtherLines(text[e..])
  }

  // The old line and the new one are equally long.
  ghost predicate SameLength(text: string, section: string, key: string, value: string) {
    |KeyLine(key, value)| == |FirstLine(text[EntryAt(text, section, key)..])|
  }

  // ini_puts with a key and a value on a file that exists.
  ghost function PutText(text: string, section: string, key: string, value: string): string {
    var before := GetKey(text, section, key);
    if before == Some(value) then text
    else if before.Some? && SameLength(text, section, key, value) then Overwritten(text, section, key, value)
    else PutKeyText(text, section, key, Some(value))
  }

  // ----- the two searches agree ---------------------------------------------------------------------

  predicate NoComment(key: string) {
    key != "" ==> key[0] != ';' && key[0] != '#'
  }

  lemma CommentIsNoEntry(line: string, key: string)
    requires NoComment(key) && IsEntryOf(line, key)
    ensures !IsComment(line)
  {
    var s := SkipLeading(line);
    var name := StripTrailing(s[..SplitAt(s)]);
    assert Upper(name[0]) == Upper(key[0]) && name[0] == s[0];
  }

  lemma {:induction false} SearchesAgree(s: string, key: string)
    requires NoComment(key)
    ensures StopAt(s, key, true) == StopAt(s, key, false)
    decreases |s|
  {
    hide IsEntryOf, IsComment, OpensSection, FirstLine, OtherLines;
    if s != "" {
      if IsEntryOf(FirstLine(s), key) { CommentIsNoEntry(FirstLine(s), key); }
      SearchesAgree(OtherLines(s), key);
    }
  }

  lemma PutReplaces(body: string, e: nat, key: string, value: string)
    requires NoComment(key) && e == StopAt(body, key, false) < |body| && !OpensSection(FirstLine(body[e..]))
    ensures PutInBody(body, key, Some(value)) == body[..e] + KeyLine(key, value) + OtherLines(body[e..])
  {
    hide StopAt, OpensSection, FirstLine, OtherLines, KeyLine;
    SearchesAgree(body, key);
  }

  lemma Found(text: string, section: string, key: string)
    requires GetKey(text, section, key).Some?
    ensures HasSection(text, section)
    ensures var body := text[BodyAt(text, section)..];
            var e := StopAt(body, key, false);
            e < |body| && !OpensSection(FirstLine(body[e..]))
  {
    hide StopAt, OpensSection, FirstLine, BodyAt, HasSection, ValueOn;
  }

  lemma Spliced(text: string, p: nat, e: nat, line: string)
    requires p <= |text| && p + e <= |text|
    ensures text[..p + e] + line + OtherLines(text[p + e..])
              == text[..p] + (text[p..][..e] + line + OtherLines(text[p..][e..]))
  {
    hide OtherLines;
    SlicesAt(text, p, e);
    JoinFour(text[..p], text[p..][..e], line, OtherLines(text[p + e..]));
  }

  lemma {:induction false} StopLineStops(s: string, key: string, comments: bool)
    requires StopAt(s, key, comments) < |s|
    ensures Stops(FirstLine(s[StopAt(s, key, comments)..]), key, comments)
    decreases |s|
  {
    hide Stops, FirstLine, OtherLines;
    BehindFirst(s);
    if Stops(FirstLine(s), key, comments) {
      assert s[0..] == s;
    } else {
      StopLineStops(OtherLines(s), key, comments);
      DropDrop(s, |FirstLine(s)|, StopAt(OtherLines(s), key, comments));
    }
  }

  // A key that getkeystring finds is not written as a comment.
  lemma FoundIsNoComment(text: string, section: string, key: string)
    requires GetKey(text, section, key).Some?
    ensures NoComment(key)
  {
    hide OpensSection, FirstLine, BodyAt, HasSection, StopAt, SplitAt;
    var body := text[BodyAt(text, section)..];
    StopLineStops(body, key, false);
    var line := FirstLine(body[StopAt(body, key, false)..]);
    var s := SkipLeading(line);
    var name := StripTrailing(s[..SplitAt(s)]);
    assert Upper(name[0]) == Upper(key[0]) && name[0] == s[0];
  }

  /** The equal-length shortcut, whenever it is taken, leaves the file the copy would leave. */
  lemma ShortcutIsCopy(text: string, section: string, key: string, value: string)
    requires GetKey(text, section, key).Some?
    ensures Overwritten(text, section, key, value) == PutKeyText(text, section, key, Some(value))
  {
    hide StopAt, OpensSection, FirstLine, OtherLines, BodyAt, HasSection, KeyLine, PutInBody, GetKey, PutKeyText,
         Overwritten, EntryAt;
    var p, line := BodyAt(text, section), KeyLine(key, value);
    var body := text[p..];
    var e := StopAt(body, key, false);
    calc {
      Overwritten(text, section, key, value);
    == { OverwrittenIs(text, section, key, value, p + e); }
      text[..p + e] + line + OtherLines(text[p + e..]);
    == { Spliced(text, p, e, line); }
      text[..p] + (body[..e] + line + OtherLines(body[e..]));
    == { FoundIsNoComment(text, section, key); Found(text, section, key); PutReplaces(body, e, key, value); }
      text[..p] + PutInBody(body, key, Some(value));
    == { Found(text, section, key); PutKeyTextIs(text, section, key, value); }
      PutKeyText(text, section, key, Some(value));
    }
  }

  lemma PutKeyTextIs(text: string, section: string, key: string, value: string)
    requires HasSection(text, section)
    ensures PutKeyText(text, section, key, Some(value))
         == text[..BodyAt(text, section)] + PutInBody(text[BodyAt(text, section)..], key, Some(value))
  {
    hide HasSection, BodyAt, PutInBody;
  }

  lemma OverwrittenIs(text: string, section: string, key: string, value: string, at: nat)
    requires GetKey(text, section, key).Some?
              && at == BodyAt(text, section) + StopAt(text[BodyAt(text, section)..], key, false)
    ensures at <= |text|
              && Overwritten(text, section, key, value) == text[..at] + KeyLine(key, value) + OtherLines(text[at..])
  {
    hide GetKey, BodyAt, StopAt, OtherLines, KeyLine;
  }

  lemma JoinFour(a: string, b: string, c: string, d: string)
    ensures a + b + c + d == a + (b + c + d)
  {
  }

  lemma SlicesAt(text: string, p: nat, e: nat)
    requires p <= |text| && p + e <= |text|
    ensures text[..p + e] == text[..p] + text[p..][..e]
    ensures text[p + e..] == text[p..][e..]
  {
  }
}

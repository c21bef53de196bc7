/** Where ini_puts adds, and that what it erases is gone: a missing key comes last in its section, a
    section with one header has none afterwards, and a key reads as what stands behind its line, so one
    that comes once is not found any more. */
module IniPlaces {
  import opened Basics
  import opened CText
  import opened IniLines
  import opened IniQuoting
  import opened IniSection
  import opened IniKey
  import opened IniKeyRead
  import opened IniKeyFrame

  // Up to the next line that opens a section there is no header.
  lemma {:induction false} HeaderBehindNext(s: string, section: string)
    ensures HeaderAt(s, section) == NextSectionAt(s) + HeaderAt(s[NextSectionAt(s)..], section)
    decreases |s|
  {
    hide OpensSection, FirstLine, OtherLines, IsHeaderOf;
    HeaderAtStep(s, section);
    NextSectionAtStep(s);
    if s == "" || OpensSection(FirstLine(s)) {
      assert s[0..] == s;
    } else {
      NoHeader(FirstLine(s), section);
      HeaderBehindNext(OtherLines(s), section);
      BehindFirst(s);
      DropDrop(s, |FirstLine(s)|, NextSectionAt(OtherLines(s)));
    }
  }

  /** Erasing a named section takes out its first header with all up to the next section: behind the
      text in front of it the search goes on, and finds nothing just when that header was the only
      one. */
  lemma ErasedSectionIsGone(text: string, section: string)
    requires section != "" && HeaderAt(text, section) < |text|
    ensures HeaderAt(EraseText(text, section), section) == |EraseText(text, section)| <==> OneHeader(text, section)
    ensures OneHeader(text, section) ==> forall key :: GetKey(EraseText(text, section), section, key) == None
  {
    hide HeaderAt, IsHeaderOf, FirstLine, OtherLines, Closed, NextSectionAt, GetKey;
    var h := HeaderAt(text, section);
    var front, rest := text[..h], text[h..];
    BeforeHeader(text, section);
    HeaderAtAppend(front, AfterSection(rest), section);
    HeaderBehindNext(OtherLines(rest), section);
    if OneHeader(text, section) {
      forall key ensures GetKey(EraseText(text, section), section, key) == None {
        NoHeaderNoKey(EraseText(text, section), section, key);
      }
    }
  }

  // A section that is not there is not erased.
  lemma NothingToErase(text: string, section: string)
    requires section != "" && HeaderAt(text, section) == |text|
    ensures EraseText(text, section) == text
  {
  }

  // What the section holds behind the first line of the key.
  ghost function BehindKey(text: string, section: string, key: string): string {
    OtherLines(text[EntryAt(text, section, key)..])
  }

  lemma GetBehindLines(a: string, b: string, key: string)
    requires Closed(a) && StopAt(a, key, false) == |a|
    ensures GetInBody(a + b, key) == GetInBody(b, key)
  {
    hide StopAt, Closed, OpensSection, FirstLine, ValueOn;
    StopAtAppend(a, b, key, false);
    var e := StopAt(b, key, false);
    assert (a + b)[|a| + e..] == b[e..];
  }

  lemma ErasedBody(body: string, key: string)
    requires NoComment(key) && GetInBody(body, key).Some?
    ensures var e := StopAt(body, key, false);
            e < |body| && PutInBody(body, key, None) == body[..e] + OtherLines(body[e..])
  {
    hide StopAt, OpensSection, FirstLine, OtherLines, ValueOn;
    SearchesAgree(body, key);
    var e := StopAt(body, key, false);
    assert body[..e] + "" == body[..e];
  }

  lemma ErasedFromBody(body: string, key: string)
    requires NoComment(key) && GetInBody(body, key).Some?
    ensures var e := StopAt(body, key, false);
            GetInBody(PutInBody(body, key, None), key) == GetInBody(OtherLines(body[e..]), key)
  {
    hide StopAt, Closed, GetInBody, PutInBody, OtherLines, FirstLine;
    ErasedBody(body, key);
    var e := StopAt(body, key, false);
    BeforeStop(body, key, false);
    GetBehindLines(body[..e], OtherLines(body[e..]), key);
  }

  // A header with lines behind it is whole.
  lemma HeaderIsWhole(text: string, section: string)
    requires section != "" && HasSection(text, section) && BodyAt(text, section) < |text|
    ensures IsWhole(FirstLine(text[HeaderAt(text, section)..]))
  {
    hide HeaderAt, FirstLine, OtherLines, IsWhole;
    var s := text[HeaderAt(text, section)..];
    BehindFirst(s);
    LineBefore(s, "");
  }

  lemma OtherBody(text: string, section: string, key: string, body: string)
    requires HasSection(text, section) && BodyAt(text, section) < |text|
    ensures GetKey(text[..BodyAt(text, section)] + body, section, key) == GetInBody(body, key)
  {
    hide HeaderAt, FirstLine, IsWhole, GetInBody;
    if section == "" {
      assert text[..0] + body == body && body[0..] == body;
    } else {
      HeaderIsWhole(text, section);
      SameHeader(text, section, body);
    }
  }

  lemma KeyIsInBody(text: string, section: string, key: string)
    requires GetKey(text, section, key).Some?
    ensures HasSection(text, section) && BodyAt(text, section) < |text|
    ensures GetKey(text, section, key) == GetInBody(text[BodyAt(text, section)..], key)
    ensures BehindKey(text, section, key)
         == OtherLines(text[BodyAt(text, section)..][StopAt(text[BodyAt(text, section)..], key, false)..])
  {
    hide BodyAt, HasSection, OtherLines, StopAt, ValueOn;
    Found(text, section, key);
    var p := BodyAt(text, section);
    DropDrop(text, p, StopAt(text[p..], key, false));
  }

  /** Erasing a key uncovers what its section holds behind the key's line: a key that comes once is
      not found any more, and only such a key. */
  lemma ErasedKeyIsGone(text: string, section: string, key: string)
    requires GetKey(text, section, key).Some?
    ensures GetKey(PutKeyText(text, section, key, None), section, key) == GetInBody(BehindKey(text, section, key), key)
  {
    hide GetKey, GetInBody, BodyAt, HasSection, StopAt, PutInBody, BehindKey, OtherLines;
    FoundIsNoComment(text, section, key);
    KeyIsInBody(text, section, key);
    var p := BodyAt(text, section);
    ErasedFromBody(text[p..], key);
    OtherBody(text, section, key, PutInBody(text[p..], key, None));
  }

  // A key that is not found is not erased.
  lemma NoKeyToErase(text: string, section: string, key: string)
    requires GetKey(text, section, key) == None && NoComment(key)
    ensures PutKeyText(text, section, key, None) == text
  {
    hide BodyAt, HasSection, StopAt, OpensSection, FirstLine, OtherLines, ValueOn;
    if HasSection(text, section) {
      var p := BodyAt(text, section);
      var body := text[p..];
      SearchesAgree(body, key);
      var e := StopAt(body, key, true);
      assert body + "" == body && text[..p] + body == text;
      if e < |body| {
        assert body[..e] + "" + body[e..] == body;
      }
    } else {
      assert text + "" == text;
    }
  }

  // ----- what is added ----------------------------------------------------------------------------

  // Without the key the search ends at the next section.
  lemma {:induction false} StopWithoutKey(body: string, key: string)
    requires NoComment(key) && GetInBody(body, key) == None
    ensures StopAt(body, key, true) == NextSectionAt(body)
    decreases |body|
  {
    hide FirstLine, OtherLines, OpensSection, IsEntryOf, IsComment, GetInBody;
    StopAtStep(body, key, true);
    NextSectionAtStep(body);
    if body != "" && !OpensSection(FirstLine(body)) {
      NoEntryFirst(body, key);
      GetBehind(body, key);
      StopWithoutKey(OtherLines(body), key);
    }
  }

  lemma NoEntryFirst(body: string, key: string)
    requires NoComment(key) && GetInBody(body, key) == None && body != "" && !OpensSection(FirstLine(body))
    ensures !IsEntryOf(FirstLine(body), key)
  {
    hide FirstLine, OtherLines, OpensSection, IsEntryOf, IsComment, ValueOn;
    StopAtStep(body, key, false);
    assert body[0..] == body;
    if IsEntryOf(FirstLine(body), key) { CommentIsNoEntry(FirstLine(body), key); }
  }

  /** A missing key is added behind all lines of its section, right in front of the next one; at the
      end of the file on a line of its own. */
  lemma MissingKeyIsAdded(text: string, section: string, key: string, value: string)
    requires HasSection(text, section) && GetKey(text, section, key) == None && NoComment(key)
    ensures var p := BodyAt(text, section);
            var q := p + NextSectionAt(text[p..]);
            PutKeyText(text, section, key, Some(value))
              == text[..q] + (if q == |text| then NewlineFor(text[p..]) else "") + KeyLine(key, value) + text[q..]
  {
    hide GetInBody, BodyAt, HasSection, StopAt, NextSectionAt, OpensSection, FirstLine, OtherLines, KeyLine,
         NeedsNewline;
    var p := BodyAt(text, section);
    var body := text[p..];
    StopWithoutKey(body, key);
    AfterNextSection(body);
    AddedInBody(body, key, value);
    SplicedBody(text, p, NextSectionAt(body), if NextSectionAt(body) == |body| then NewlineFor(body) else "",
                KeyLine(key, value));
  }

  lemma AddedInBody(body: string, key: string, value: string)
    requires StopAt(body, key, true) == NextSectionAt(body)
    requires var b := body[NextSectionAt(body)..]; b == "" || OpensSection(FirstLine(b))
    ensures var n := NextSectionAt(body);
            PutInBody(body, key, Some(value))
              == body[..n] + (if n == |body| then NewlineFor(body) else "") + KeyLine(key, value) + body[n..]
  {
    hide StopAt, NextSectionAt, OpensSection, FirstLine, OtherLines, KeyLine, NeedsNewline;
    var n := NextSectionAt(body);
    if n == |body| {
      assert body[..n] == body && body[n..] == "";
    } else {
      assert body[..n] + "" == body[..n];
    }
  }

  lemma SplicedBody(text: string, p: nat, n: nat, gap: string, line: string)
    requires p <= |text| && n <= |text| - p
    ensures text[..p] + (text[p..][..n] + gap + line + text[p..][n..]) == text[..p + n] + gap + line + text[p + n..]
  {
    SlicesAt(text, p, n);
    assert text[..p + n] + gap + line + text[p + n..]
        == (text[..p] + text[p..][..n]) + gap + line + text[p..][n..];
  }

  lemma {:induction false} ShortGroup(s: string, group: nat)
    requires group + |s| < BUFFER_SIZE
    ensures LastGroup(s, group) == group + |s|
    decreases |s|
  {
    hide FirstLine, OtherLines;
    LastGroupStep(s, group);
    if s != "" {
      BehindFirst(s);
      ShortGroup(OtherLines(s), group + |FirstLine(s)|);
    }
  }

  /** A text that fits the line cache gets a newline before something is added to it just when it does
      not end with one, or has no other character. */
  lemma NewlineIff(text: string)
    requires |text| < BUFFER_SIZE
    ensures NewlineFor(text) == "" <==> |text| > 1 && text[|text| - 1] == '\n'
  {
    hide LastGroup;
    ShortGroup(text, 0);
  }
}

/** ini_strncpy, check_enquote, cleanstring, writesection and writekey on a character
    buffer.  Each is proved against its function in IniQuoting. */
module IniBuffer {
  import opened CText
  import opened IniLines
  import opened IniQuoting

  twostate predicate OnlyChanged(buffer: array<char>, lo: int, hi: int)
    reads buffer
  {
    forall i :: 0 <= i < buffer.Length && (i < lo || hi <= i) ==> buffer[i] == old(buffer[i])
  }

  lemma CopiedNulFree(s: string, maxlen: nat, option: QuoteOption)
    requires NulFree(s) && maxlen > 0
    ensures NulFree(Copied(s, maxlen, option))
  {
    EscapedWithinNulFree(s, if maxlen >= 3 then maxlen - 3 else 0);
    UnescapedNulFree(s, maxlen - 1);
  }

  lemma EscapedWithinNulFree(s: string, room: nat)
    requires NulFree(s)
    ensures NulFree(EscapedWithin(s, room))
    decreases |s|
  {
  }

  lemma UnescapedNulFree(s: string, room: nat)
    requires NulFree(s)
    ensures NulFree(Unescaped(s, room))
    decreases |s|
  {
  }

  // The first d characters of `all` are in place.
  ghost predicate Placed(dest: array<char>, at: nat, all: string, d: nat)
    requires d <= |all| && at + d <= dest.Length
    reads dest
  {
    forall i :: 0 <= i < d ==> dest[at + i] == all[i]
  }

  // ini_strncpy from memory outside the buffer.
  method CopyString(dest: array<char>, at: nat, source: string, maxlen: nat, option: QuoteOption)
    requires 0 < maxlen && at + maxlen <= dest.Length && NulFree(source)
    modifies dest
    ensures Holds(dest, at, Copied(source, maxlen, option))
    ensures OnlyChanged(dest, at, at + maxlen)
  {
    var d := 0;
    if option == Enquote && maxlen >= 3 {
      d := CopyEscaped(dest, at, source, maxlen);
    } else if option == Dequote {
      d := CopyUnescaped(dest, at, source, maxlen);
    } else {
      while d < maxlen - 1 && d < |source|
        invariant d <= maxlen - 1 && d <= |source|
        invariant Placed(dest, at, source, d)
        invariant OnlyChanged(dest, at, at + d)
      {
        dest[at + d] := source[d];
        d := d + 1;
      }
    }
    dest[at + d] := '\0';
    CopiedNulFree(source, maxlen, option);
  }

  method CopyEscaped(dest: array<char>, at: nat, source: string, maxlen: nat) returns (d: nat)
    requires 3 <= maxlen && at + maxlen <= dest.Length
    modifies dest
    ensures d == |Copied(source, maxlen, Enquote)|
    ensures Placed(dest, at, Copied(source, maxlen, Enquote), d)
    ensures OnlyChanged(dest, at, at + d)
  {
    hide EscapedWithin, Copied;
    ghost var all := Copied(source, maxlen, Enquote);
    dest[at] := '"';
    d := 1;
    var s := 0;
    EnquotedStart(source, maxlen);
    while s < |source| && d < maxlen - 2
      invariant 0 <= s <= |source| && 1 <= d <= maxlen - 2
      invariant EnquotedRest(all, d, source, s, maxlen)
      invariant Placed(dest, at, all, d)
      invariant OnlyChanged(dest, at, at + d)
    {
      EnquotedStep(all, d, source, s, maxlen);
      if source[s] == '"' {
        if d >= maxlen - 3 { break; }
        dest[at + d] := '\\';
        d := d + 1;
      }
      dest[at + d] := source[s];
      s := s + 1;
      d := d + 1;
    }
    EnquotedEnd(all, d, source, s, maxlen);
    dest[at + d] := '"';
    d := d + 1;
  }

  // From position d on, `all` is the escaped rest of the source and the closing quote.
  ghost predicate EnquotedRest(all: string, d: nat, source: string, s: nat, maxlen: nat) {
    && s <= |source| && d < |all| && d + 2 <= maxlen
    && all[d..] == EscapedWithin(source[s..], maxlen - 2 - d) + "\""
  }

  lemma EnquotedStart(source: string, maxlen: nat)
    requires 3 <= maxlen
    ensures var all := Copied(source, maxlen, Enquote); EnquotedRest(all, 1, source, 0, maxlen) && all[0] == '"'
  {
    assert source[0..] == source;
  }

  lemma EnquotedStep(all: string, d: nat, source: string, s: nat, maxlen: nat)
    requires EnquotedRest(all, d, source, s, maxlen) && s < |source| && d + 2 < maxlen
    ensures source[s] != '"' ==> all[d] == source[s] && EnquotedRest(all, d + 1, source, s + 1, maxlen)
    ensures source[s] == '"' && d + 3 < maxlen ==>
              d + 1 < |all| && all[d] == '\\' && all[d + 1] == '"' && EnquotedRest(all, d + 2, source, s + 1, maxlen)
  {
    var rest := all[d..];
    assert source[s..][1..] == source[s + 1..];
    assert all[d] == rest[0] && all[d + 1..] == rest[1..];
    if source[s] == '"' && d + 3 < maxlen {
      assert all[d + 1] == rest[1] && all[d + 2..] == rest[2..];
    }
  }

  lemma EnquotedEnd(all: string, d: nat, source: string, s: nat, maxlen: nat)
    requires EnquotedRest(all, d, source, s, maxlen)
    requires s == |source| || d + 2 == maxlen || (source[s] == '"' && d + 3 == maxlen)
    ensures |all| == d + 1 && all[d] == '"'
  {
    assert EscapedWithin(source[s..], maxlen - 2 - d) == "";
    assert all[d] == all[d..][0];
  }

  method CopyUnescaped(dest: array<char>, at: nat, source: string, maxlen: nat) returns (d: nat)
    requires 0 < maxlen && at + maxlen <= dest.Length
    modifies dest
    ensures d == |Unescaped(source, maxlen - 1)|
    ensures Placed(dest, at, Unescaped(source, maxlen - 1), d)
    ensures OnlyChanged(dest, at, at + d)
  {
    hide Unescaped;
    ghost var all := Unescaped(source, maxlen - 1);
    d := 0;
    var s := 0;
    assert source[0..] == source;
    while s < |source| && d < maxlen - 1
      invariant 0 <= s <= |source| && 0 <= d <= maxlen - 1 && d <= |all|
      invariant all[d..] == Unescaped(source[s..], maxlen - 1 - d)
      invariant Placed(dest, at, all, d)
      invariant OnlyChanged(dest, at, at + d)
    {
      ghost var rest := all[d..];
      UnescapedStep(source, s, maxlen - 1 - d);
      assert all[d] == rest[0] && all[d + 1..] == rest[1..];
      if (source[s] == '"' || source[s] == '\\') && s + 1 < |source| && source[s + 1] == '"' {
        s := s + 1;
      }
      dest[at + d] := source[s];
      s := s + 1;
      d := d + 1;
    }
    UnescapedEnd(source, s, maxlen - 1 - d);
  }

  lemma UnescapedEnd(source: string, s: nat, room: nat)
    requires s <= |source| && (s == |source| || room == 0)
    ensures Unescaped(source[s..], room) == ""
  {
  }

  lemma UnescapedStep(source: string, s: nat, room: nat)
    requires s < |source| && room > 0
    ensures var k := if (source[s] == '"' || source[s] == '\\') && s + 1 < |source| && source[s + 1] == '"'
                     then s + 1 else s;
            Unescaped(source[s..], room) == [source[k]] + Unescaped(source[k + 1..], room - 1)
  {
    var t := source[s..];
    assert t[1..] == source[s + 1..];
    assert |t| > 1 ==> t[2..] == source[s + 2..];
  }

  // ini_strncpy within one buffer, where the copy must not start behind its source.
  method CopyWithin(buffer: array<char>, at: nat, from: nat, maxlen: nat, option: QuoteOption, ghost source: string)
    requires Holds(buffer, from, source)
    requires at <= from && option != Enquote
    requires 0 < maxlen && at + maxlen <= buffer.Length
    modifies buffer
    ensures Holds(buffer, at, Copied(source, maxlen, option))
    ensures OnlyChanged(buffer, at, at + |Copied(source, maxlen, option)| + 1)
  {
    var d := 0;
    if option == Dequote {
      d := DequoteWithin(buffer, at, from, maxlen, source);
    } else {
      while d < maxlen - 1 && buffer[from + d] != '\0'
        invariant d <= maxlen - 1 && d <= |source|
        invariant forall i :: d <= i < |source| ==> buffer[from + i] == source[i]
        invariant buffer[from + |source|] == '\0'
        invariant Placed(buffer, at, source, d)
        invariant OnlyChanged(buffer, at, at + d)
        decreases |source| - d
      {
        assert buffer[from + d] == source[d];
        buffer[at + d] := buffer[from + d];
        d := d + 1;
      }
      assert d < |source| ==> buffer[from + d] == source[d];
    }
    buffer[at + d] := '\0';
    CopiedNulFree(source, maxlen, option);
  }

  method DequoteWithin(buffer: array<char>, at: nat, from: nat, maxlen: nat, ghost source: string) returns (d: nat)
    requires Holds(buffer, from, source)
    requires at <= from && 0 < maxlen && at + maxlen <= buffer.Length
    modifies buffer
    ensures d == |Unescaped(source, maxlen - 1)|
    ensures Placed(buffer, at, Unescaped(source, maxlen - 1), d)
    ensures OnlyChanged(buffer, at, at + d)
  {
    hide Unescaped;
    ghost var all := Unescaped(source, maxlen - 1);
    d := 0;
    var s := 0;
    assert source[0..] == source;
    while buffer[from + s] != '\0' && d < maxlen - 1
      invariant 0 <= d <= s <= |source| && d <= maxlen - 1 && d <= |all|
      invariant forall i :: s <= i < |source| ==> buffer[from + i] == source[i]
      invariant buffer[from + |source|] == '\0'
      invariant all[d..] == Unescaped(source[s..], maxlen - 1 - d)
      invariant Placed(buffer, at, all, d)
      invariant OnlyChanged(buffer, at, at + d)
      decreases |source| - s
    {
      ghost var rest := all[d..];
      assert buffer[from + s] == source[s];
      assert s + 1 < |source| ==> buffer[from + s + 1] == source[s + 1];
      UnescapedStep(source, s, maxlen - 1 - d);
      assert all[d] == rest[0] && all[d + 1..] == rest[1..];
      if (buffer[from + s] == '"' || buffer[from + s] == '\\') && buffer[from + s + 1] == '"' {
        s := s + 1;
      }
      buffer[at + d] := buffer[from + s];
      s := s + 1;
      d := d + 1;
    }
    assert s < |source| ==> buffer[from + s] == source[s];
    UnescapedEnd(source, s, maxlen - 1 - d);
  }

  method NeedsQuotes(value: string) returns (option: QuoteOption)
    ensures option == CheckEnquote(value)
  {
    var p := 0;
    while p < |value| && value[p] != '"' && value[p] != ';' && value[p] != '#'
      invariant p <= |value|
      invariant forall i :: 0 <= i < p ==> value[i] != '"' && value[i] != ';' && value[i] != '#'
    {
      p := p + 1;
    }
    option := if p < |value| || (p > 0 && value[p - 1] == ' ') then Enquote else QuoteNone;
  }

  // The first loop of cleanstring: where the comment or the text ends.
  method FindComment(buffer: array<char>, at: nat, ghost s: string) returns (ep: nat)
    requires Holds(buffer, at, s)
    ensures ep == at + CommentAt(s, false)
  {
    hide CommentAt;
    ep := at;
    var isString := false;
    assert s[0..] == s;
    while buffer[ep] != '\0' && ((buffer[ep] != ';' && buffer[ep] != '#') || isString)
      invariant at <= ep <= at + |s|
      invariant CommentAt(s, false) == ep - at + CommentAt(s[ep - at..], isString)
      decreases at + |s| - ep
    {
      ghost var k := ep - at;
      CharIn(buffer, at, s, ep);
      CharIn(buffer, at, s, ep + 1);
      CommentAtStep(s, k, isString);
      if buffer[ep] == '"' {
        if buffer[ep + 1] == '"' { ep := ep + 1; } else { isString := !isString; }
      } else if buffer[ep] == '\\' && buffer[ep + 1] == '"' {
        ep := ep + 1;
      }
      ep := ep + 1;
    }
    CharIn(buffer, at, s, ep);
    CommentAtEnd(s, ep - at, isString);
  }

  lemma CommentAtEnd(s: string, k: nat, inString: bool)
    requires k <= |s|
    requires k < |s| ==> (s[k] == ';' || s[k] == '#') && !inString
    ensures CommentAt(s[k..], inString) == 0
  {
  }

  lemma CommentAtStep(s: string, k: nat, inString: bool)
    requires k < |s|
    requires !((s[k] == ';' || s[k] == '#') && !inString)
    ensures var pair := (s[k] == '"' || s[k] == '\\') && k + 1 < |s| && s[k + 1] == '"';
            var step := if pair then 2 else 1;
            CommentAt(s[k..], inString)
              == step + CommentAt(s[k + step..], if s[k] == '"' && !pair then !inString else inString)
  {
    var t := s[k..];
    assert t[1..] == s[k + 1..];
    assert |t| > 1 ==> t[2..] == s[k + 2..];
  }

  // skiptrailing: the end of the text before `end` without its trailing blanks.
  method SkipTrailingIn(buffer: array<char>, at: nat, end: nat, ghost s: string) returns (p: nat)
    requires Holds(buffer, at, s) && at <= end <= at + |s|
    ensures p == at + |StripTrailing(s[..end - at])|
  {
    ghost var cut := s[..end - at];
    p := end;
    while p > at && Blank(buffer[p - 1])
      invariant at <= p <= end
      invariant forall i :: p - at <= i < |cut| ==> Blank(cut[i])
    {
      CharIn(buffer, at, s, p - 1);
      p := p - 1;
    }
    if p > at { CharIn(buffer, at, s, p - 1); }
    StripTrailingIs(cut, cut[..p - at]);
  }

  // cleanstring on the text at `at`: where the cleaned text starts and whether it was quoted.
  method CleanString(buffer: array<char>, at: nat, ghost s: string) returns (start: nat, quotes: QuoteOption)
    requires Holds(buffer, at, s)
    modifies buffer
    ensures Holds(buffer, start, Cleaned(s).0) && quotes == Cleaned(s).1
    ensures at <= start <= at + 1 && start + |Cleaned(s).0| <= at + |s|
    ensures OnlyChanged(buffer, at, at + |s| + 1)
  {
    hide CommentAt, StripTrailing, WithoutQuotes;
    var ep := FindComment(buffer, at, s);
    ep := SkipTrailingIn(buffer, at, ep, s);
    ghost var t := Uncommented(s);
    assert t <= s;
    buffer[ep] := '\0';
    assert Holds(buffer, at, t);
    start, quotes := TakeQuotes(buffer, at, ep, t);
  }

  // The end of cleanstring: leave out the quotes around a value that ends at ep.
  method TakeQuotes(buffer: array<char>, at: nat, ep: nat, ghost t: string) returns (start: nat, quotes: QuoteOption)
    requires Holds(buffer, at, t) && ep == at + |t|
    modifies buffer
    ensures Holds(buffer, start, WithoutQuotes(t).0) && quotes == WithoutQuotes(t).1
    ensures at <= start <= at + 1 && start + |WithoutQuotes(t).0| <= at + |t|
    ensures OnlyChanged(buffer, at, at + |t| + 1)
  {
    start, quotes := at, QuoteNone;
    CharIn(buffer, at, t, at);
    if ep > at { CharIn(buffer, at, t, ep - 1); }
    if buffer[at] == '"' && buffer[ep - 1] == '"' {
      start := at + 1;
      buffer[ep - 1] := '\0';
      quotes := Dequote;
      ghost var inner := WithoutQuotes(t).0;
      assert forall i :: 0 <= i < |inner| ==> buffer[start + i] == inner[i];
    }
  }

  // fgets: the next line of the file, as much of it as fits, into buffer[at..at + size].
  method FGets(buffer: array<char>, at: nat, size: nat, input: string, pos: nat) returns (ok: bool, next: nat)
    requires size >= 2 && at + size <= buffer.Length && pos <= |input| && NulFree(input)
    modifies buffer
    ensures ok <==> pos < |input|
    ensures !ok ==> next == pos && OnlyChanged(buffer, 0, 0)
    ensures ok ==>
              && next == pos + LineLen(input[pos..], size - 1) && next <= |input|
              && Holds(buffer, at, input[pos..next])
              && OnlyChanged(buffer, at, at + next - pos + 1)
  {
    hide LineLen, NulFree;
    if pos == |input| { return false, pos; }
    ghost var rest := input[pos..];
    var n := 0;
    while n < size - 1 && pos + n < |input| && (n == 0 || input[pos + n - 1] != '\n')
      invariant n <= size - 1 && n <= |rest|
      invariant Placed(buffer, at, rest, n)
      invariant forall i :: 0 <= i < n - 1 ==> rest[i] != '\n'
      invariant OnlyChanged(buffer, at, at + n)
    {
      buffer[at + n] := input[pos + n];
      n := n + 1;
    }
    buffer[at + n] := '\0';
    assert n == |rest| || n == size - 1 || rest[n - 1] == '\n';
    LineLenIs(rest, size - 1, n);
    NulFreePart(input, pos, n);
    PlacedHolds(buffer, at, rest, n);
    return true, pos + n;
  }

  lemma NulFreePart(s: string, a: nat, n: nat)
    requires NulFree(s) && a + n <= |s|
    ensures NulFree(s[a..][..n]) && s[a..][..n] == s[a..a + n]
  {
  }

  lemma PlacedHolds(buffer: array<char>, at: nat, s: string, n: nat)
    requires n <= |s| && at + n < buffer.Length && Placed(buffer, at, s, n) && buffer[at + n] == '\0' && NulFree(s[..n])
    ensures Holds(buffer, at, s[..n])
  {
  }

  method TextAt(buffer: array<char>, at: nat, ghost s: string) returns (t: string)
    requires Holds(buffer, at, s)
    ensures t == s
  {
    var n := StrLen(buffer, at, s);
    t := buffer[at..at + n];
  }

  // writesection without the write.
  method WriteSectionIn(buffer: array<char>, section: string)
    requires buffer.Length == BUFFER_SIZE && NulFree(section) && section != ""
    modifies buffer
    ensures Holds(buffer, 0, SectionLine(section))
  {
    hide Copied, SectionLine;
    buffer[0] := '[';
    CopyString(buffer, 1, section, SECTION_ROOM, QuoteNone);
    ghost var copied := Copied(section, SECTION_ROOM, QuoteNone);
    var n := StrLen(buffer, 1, copied);
    buffer[n + 1] := ']';
    buffer[n + 2] := '\n';
    buffer[n + 3] := '\0';
    SectionLineIs(section, copied);
  }

  lemma SectionLineIs(section: string, copied: string)
    requires NulFree(section) && section != "" && copied == Copied(section, SECTION_ROOM, QuoteNone)
    ensures var line := SectionLine(section);
            && |line| == |copied| + 3
            && line[0] == '[' && line[|copied| + 1] == ']' && line[|copied| + 2] == '\n'
            && (forall i :: 1 <= i < |copied| + 1 ==> line[i] == copied[i - 1])
            && NulFree(line)
  {
    CopiedNulFree(section, SECTION_ROOM, QuoteNone);
    hide Copied;
  }

  // writekey without the write.
  method WriteKeyIn(buffer: array<char>, key: string, value: string)
    requires buffer.Length == BUFFER_SIZE && NulFree(key) && NulFree(value)
    modifies buffer
    ensures Holds(buffer, 0, KeyLine(key, value))
  {
    hide CheckEnquote, Copied, RenderedKey, KeyLine;
    var option := NeedsQuotes(value);
    CopyString(buffer, 0, key, KEY_ROOM, QuoteNone);
    ghost var k := Copied(key, KEY_ROOM, QuoteNone);
    var n := StrLen(buffer, 0, k);
    buffer[n] := '=';
    label copied:
    CopyString(buffer, n + 1, value, BUFFER_SIZE - (n + 1) - 2, option);
    ghost var v := Copied(value, BUFFER_SIZE - (n + 1) - 2, option);
    assert forall i :: 0 <= i < n ==> buffer[0 + i] == k[i] by {
      assert forall i :: 0 <= i < n ==> buffer[i] == old@copied(buffer[i]);
    }
    var m := StrLen(buffer, n + 1, v);
    buffer[n + 1 + m] := '\n';
    buffer[n + 1 + m + 1] := '\0';
    KeyLineIs(key, value, k, v);
  }

  lemma KeyLineNulFree(key: string, value: string)
    requires NulFree(key) && NulFree(value)
    ensures NulFree(KeyLine(key, value))
  {
    CopiedNulFree(key, KEY_ROOM, QuoteNone);
    CopiedNulFree(value, ValueRoom(key), CheckEnquote(value));
  }

  lemma KeyLineIs(key: string, value: string, k: string, v: string)
    requires NulFree(key) && NulFree(value)
    requires k == Copied(key, KEY_ROOM, QuoteNone)
    requires v == Copied(value, BUFFER_SIZE - (|k| + 1) - 2, CheckEnquote(value))
    ensures var line := KeyLine(key, value);
            && |line| == |k| + |v| + 2
            && (forall i :: 0 <= i < |k| ==> line[i] == k[i])
            && line[|k|] == '='
            && (forall i :: |k| + 1 <= i < |k| + 1 + |v| ==> line[i] == v[i - |k| - 1])
            && NulFree(line)
  {
    CopiedNulFree(key, KEY_ROOM, QuoteNone);
    CopiedNulFree(value, ValueRoom(key), CheckEnquote(value));
  }
}

/** C strings as minIni uses them: the text before the terminating zero is a `string`
    without `'\0'`, a character buffer is an `array<char>`. */
module CText {

  ghost predicate NulFree(s: string) {
    forall i :: 0 <= i < |s| ==> s[i] != '\0'
  }

  // A character that skipleading and skiptrailing step over.
  predicate Blank(c: char) {
    '\0' < c <= ' '
  }

  function LeadingBlanks(s: string): (n: nat)
    ensures n <= |s|
    ensures n < |s| ==> !Blank(s[n])
    ensures forall i :: 0 <= i < n ==> Blank(s[i])
  {
    if s == "" || !Blank(s[0]) then 0 else 1 + LeadingBlanks(s[1..])
  }

  function SkipLeading(s: string): string {
    s[LeadingBlanks(s)..]
  }

  function StripTrailing(s: string): (r: string)
    ensures r <= s
    ensures r != "" ==> !Blank(r[|r| - 1])
    ensures forall i :: |r| <= i < |s| ==> Blank(s[i])
  {
    if s != "" && Blank(s[|s| - 1]) then StripTrailing(s[..|s| - 1]) else s
  }

  // Position of the first c, or |s| when there is none.
  function IndexOf(s: string, c: char): (n: nat)
    ensures n <= |s|
    ensures n < |s| ==> s[n] == c
    ensures forall i :: 0 <= i < n ==> s[i] != c
  {
    if s == "" || s[0] == c then 0 else 1 + IndexOf(s[1..], c)
  }

  // Position of the last c, or -1 when there is none.
  function LastIndexOf(s: string, c: char): (n: int)
    ensures -1 <= n < |s|
    ensures 0 <= n ==> s[n] == c
    ensures forall i :: n < i < |s| ==> s[i] != c
  {
    if s == "" then -1
    else if s[|s| - 1] == c then |s| - 1
    else LastIndexOf(s[..|s| - 1], c)
  }

  function Upper(c: char): char {
    if 'a' <= c <= 'z' then (c as int - 32) as char else c
  }

  ghost predicate EqualNoCase(a: string, b: string) {
    |a| == |b| && forall i :: 0 <= i < |a| ==> Upper(a[i]) == Upper(b[i])
  }

  // ----- slices ----------------------------------------------------------------------

  lemma DropDrop(s: string, a: nat, b: nat)
    requires a + b <= |s|
    ensures s[a..][b..] == s[a + b..]
  {
  }

  lemma SliceJoin(s: string, a: nat, b: nat, c: nat)
    requires a <= b <= c <= |s|
    ensures s[a..c] == s[a..b] + s[b..c]
  {
  }

  lemma PrefixOfDrop(s: string, a: nat, t: string)
    requires a <= |s| && t <= s[a..]
    ensures a + |t| <= |s| && s[a..a + |t|] == t
  {
  }

  lemma NulFreeDrop(s: string, a: nat)
    requires NulFree(s) && a <= |s|
    ensures NulFree(s[a..]) && NulFree(s[..a])
  {
  }

  lemma NulFreeJoin(a: string, b: string, c: string)
    requires NulFree(a) && NulFree(b) && NulFree(c)
    ensures NulFree(a + b + c)
  {
  }

  // ----- uniqueness of the searches ---------------------------------------------------

  lemma IndexOfIs(s: string, c: char, n: nat)
    requires n <= |s|
    requires n < |s| ==> s[n] == c
    requires forall i :: 0 <= i < n ==> s[i] != c
    ensures IndexOf(s, c) == n
  {
  }

  lemma LastIndexOfIs(s: string, c: char, n: int)
    requires -1 <= n < |s|
    requires 0 <= n ==> s[n] == c
    requires forall i :: n < i < |s| ==> s[i] != c
    ensures LastIndexOf(s, c) == n
  {
  }

  lemma LeadingBlanksIs(s: string, n: nat)
    requires n <= |s|
    requires n < |s| ==> !Blank(s[n])
    requires forall i :: 0 <= i < n ==> Blank(s[i])
    ensures LeadingBlanks(s) == n
  {
  }

  lemma StripTrailingIs(s: string, r: string)
    requires r <= s
    requires r != "" ==> !Blank(r[|r| - 1])
    requires forall i :: |r| <= i < |s| ==> Blank(s[i])
    ensures StripTrailing(s) == r
  {
  }

  // ----- the loops over a buffer ------------------------------------------------------

  // The buffer holds s at `at`, followed by a terminating zero.
  ghost predicate Holds(buffer: array<char>, at: nat, s: string)
    reads buffer
  {
    && at + |s| < buffer.Length
    && (forall i :: 0 <= i < |s| ==> buffer[at + i] == s[i])
    && buffer[at + |s|] == '\0'
    && NulFree(s)
  }

  lemma HoldsNothing(buffer: array<char>, at: nat)
    requires at < buffer.Length && buffer[at] == '\0'
    ensures Holds(buffer, at, "")
  {
  }

  lemma CharIn(buffer: array<char>, at: nat, s: string, p: nat)
    requires Holds(buffer, at, s) && at <= p <= at + |s|
    ensures p < at + |s| ==> buffer[p] == s[p - at] && buffer[p] != '\0'
    ensures p == at + |s| ==> buffer[p] == '\0'
  {
    assert p < at + |s| ==> buffer[at + (p - at)] == s[p - at];
  }

  method SkipLeadingIn(buffer: array<char>, at: nat, ghost s: string) returns (p: nat)
    requires Holds(buffer, at, s)
    ensures p == at + LeadingBlanks(s)
    ensures Holds(buffer, p, SkipLeading(s))
  {
    p := at;
    while Blank(buffer[p])
      invariant at <= p <= at + |s|
      invariant forall i :: 0 <= i < p - at ==> Blank(s[i])
      decreases at + |s| - p
    {
      CharIn(buffer, at, s, p);
      p := p + 1;
    }
    CharIn(buffer, at, s, p);
    LeadingBlanksIs(s, p - at);
  }

  // strrchr: the position of the last c, or the position before the text.
  method LastIndexIn(buffer: array<char>, at: nat, c: char, ghost s: string) returns (e: int)
    requires Holds(buffer, at, s) && c != '\0'
    ensures e == at + LastIndexOf(s, c)
  {
    e := at - 1;
    var p := at;
    while buffer[p] != '\0'
      invariant at <= p <= at + |s|
      invariant at - 1 <= e < p
      invariant at <= e ==> s[e - at] == c
      invariant forall i :: e - at < i < p - at ==> s[i] != c
      decreases at + |s| - p
    {
      CharIn(buffer, at, s, p);
      if buffer[p] == c { e := p; }
      p := p + 1;
    }
    CharIn(buffer, at, s, p);
    LastIndexOfIs(s, c, e - at);
  }

  // strchr: the position of the first c, or the position of the terminating zero.
  method IndexIn(buffer: array<char>, at: nat, c: char, ghost s: string) returns (e: nat)
    requires Holds(buffer, at, s) && c != '\0'
    ensures e == at + IndexOf(s, c)
  {
    e := at;
    while buffer[e] != '\0' && buffer[e] != c
      invariant at <= e <= at + |s|
      invariant forall i :: 0 <= i < e - at ==> s[i] != c
      decreases at + |s| - e
    {
      CharIn(buffer, at, s, e);
      e := e + 1;
    }
    CharIn(buffer, at, s, e);
    IndexOfIs(s, c, e - at);
  }

  method StrLen(buffer: array<char>, at: nat, ghost s: string) returns (n: nat)
    requires Holds(buffer, at, s)
    ensures n == |s|
  {
    n := 0;
    while buffer[at + n] != '\0'
      invariant n <= |s|
      decreases |s| - n
    {
      CharIn(buffer, at, s, at + n);
      n := n + 1;
    }
    CharIn(buffer, at, s, at + n);
  }

  // strnicmp(buffer + at, name, |name|) == 0, for a buffer with |name| characters there.
  method SameNoCaseIn(buffer: array<char>, at: nat, name: string, ghost s: string) returns (same: bool)
    requires Holds(buffer, at, s) && |name| <= |s| && NulFree(name)
    ensures same <==> EqualNoCase(s[..|name|], name)
  {
    var i := 0;
    while i < |name|
      invariant 0 <= i <= |name|
      invariant forall k :: 0 <= k < i ==> Upper(s[k]) == Upper(name[k])
    {
      assert buffer[at + i] == s[i];
      if Upper(buffer[at + i]) != Upper(name[i]) {
        assert s[..|name|][i] == s[i];
        return false;
      }
      i := i + 1;
    }
    return true;
  }
}

/** The bounded line cache ini_puts and ini_putsection copy a file through: lengths are
    accumulated while lines are read past, then the file is rewound to the mark and the
    group is read again and written. */
module IniCache {
  import opened CText
  import opened IniLines
  import opened IniBuffer

  // Reading lines of s into a buffer with `room` bytes left ends exactly after `size`
  // characters: no fgets runs past the group.
  ghost predicate Rereads(s: string, size: nat, room: nat)
    decreases size
  {
    size == 0 ||
    (&& s != "" && room >= 2
     && LineLen(s, room - 1) <= size
     && Rereads(s[LineLen(s, room - 1)..], size - LineLen(s, room - 1), room - LineLen(s, room - 1)))
  }

  lemma RereadsFirst(s: string, size: nat, room: nat)
    requires Rereads(s, size, room) && size > 0
    ensures s != "" && room >= 2
    ensures var n := LineLen(s, room - 1); 0 < n <= size && Rereads(s[n..], size - n, room - n)
  {
  }

  lemma RereadsNothing(s: string, room: nat)
    ensures Rereads(s, 0, room)
  {
  }

  lemma RereadsFrom(s: string, size: nat, room: nat, n: nat)
    requires s != "" && room >= 2
    requires n == LineLen(s, room - 1) <= size && Rereads(s[n..], size - n, room - n)
    ensures Rereads(s, size, room)
  {
  }

  lemma RereadsOne(s: string, room: nat, n: nat)
    requires room <= BUFFER_SIZE && s != "" && n == LineLen(s, ROOM) < room
    ensures Rereads(s, n, room)
  {
    LineLenShrink(s, ROOM, room - 1);
    RereadsNothing(s[n..], room - n);
    RereadsFrom(s, n, room, n);
  }

  // A line that still fits the buffer can join the group.
  lemma {:induction false} RereadsAppend(s: string, size: nat, room: nat, tail: string, n: nat)
    requires room <= BUFFER_SIZE && size < |s| && tail == s[size..]
    requires Rereads(s, size, room)
    requires n == LineLen(tail, ROOM) && size + n < room
    ensures Rereads(s, size + n, room)
    decreases size
  {
    hide Rereads, LineLen;
    if size == 0 {
      RereadsOne(s, room, n);
    } else {
      RereadsFirst(s, size, room);
      var k := LineLen(s, room - 1);
      DropDrop(s, k, size - k);
      RereadsAppend(s[k..], size - k, room - k, tail, n);
      RereadsFrom(s, size + n, room, k);
    }
  }

  // What accumulating a line does to the cached group.
  lemma GroupRereads(input: string, mark: nat, size: nat, line: string)
    requires mark + size < |input| && line == FirstLine(input[mark + size..])
    requires Rereads(input[mark..], size, BUFFER_SIZE)
    ensures size + |line| < BUFFER_SIZE ==> Rereads(input[mark..], size + |line|, BUFFER_SIZE)
  {
    hide Rereads, FirstLine;
    if size + |line| < BUFFER_SIZE {
      DropDrop(input, mark, size);
      FirstLineLen(input[mark + size..]);
      RereadsAppend(input[mark..], size, BUFFER_SIZE, input[mark + size..], |line|);
    }
  }

  lemma GroupText(input: string, mark: nat, size: nat, line: string)
    requires mark + size < |input| && line == FirstLine(input[mark + size..])
    ensures mark + size + |line| <= |input|
    ensures input[mark..mark + size + |line|] == input[mark..mark + size] + line
  {
    hide FirstLine;
    PrefixOfDrop(input, mark + size, line);
    SliceJoin(input, mark, mark + size, mark + size + |line|);
  }

  lemma LineRead(input: string, start: nat, end: nat)
    requires start < |input| && end == start + LineLen(input[start..], ROOM) <= |input|
    ensures input[start..end] == FirstLine(input[start..])
    ensures input[end..] == OtherLines(input[start..])
  {
    DropDrop(input, start, end - start);
  }

  class LineCache {
    const input: string        // what the file being read holds
    const buffer: array<char>  // LocalBuffer
    var pos: nat               // where the next read of the input starts
    var output: string         // what has been written to the temporary file
    var mark: nat
    var cachelen: nat

    ghost predicate Valid()
      reads this
    {
      buffer.Length == BUFFER_SIZE && NulFree(input) && pos <= |input| && mark <= |input|
    }

    // The cached group starts at the mark and can be read again.
    ghost predicate Cached()
      reads this
    {
      && Valid()
      && cachelen < BUFFER_SIZE && mark + cachelen <= |input|
      && Rereads(input[mark..], cachelen, BUFFER_SIZE)
    }

    // Everything that has been copied, the cached group included.
    ghost function Copied(): string
      requires mark + cachelen <= |input|
      reads this
    {
      output + input[mark..mark + cachelen]
    }

    constructor (text: string)
      requires NulFree(text)
      ensures Cached() && input == text && pos == mark == cachelen == 0 && output == ""
      ensures fresh(buffer)
    {
      input := text;
      buffer := new char[BUFFER_SIZE];
      pos, mark, cachelen := 0, 0, 0;
      output := "";
    }

    // fgets into buffer[at..at + size].
    method Gets(at: nat, size: nat) returns (ok: bool)
      requires Valid() && size >= 2 && at + size <= BUFFER_SIZE
      modifies this`pos, buffer
      ensures Valid()
      ensures ok <==> old(pos) < |input|
      ensures !ok ==> pos == old(pos) && OnlyChanged(buffer, 0, 0)
      ensures ok ==>
                && pos == old(pos) + LineLen(input[old(pos)..], size - 1)
                && Holds(buffer, at, input[old(pos)..pos])
                && OnlyChanged(buffer, at, at + pos - old(pos) + 1)
    {
      ok, pos := FGets(buffer, at, size, input, pos);
    }

    // ini_read(LocalBuffer, INI_BUFFERSIZE, &rfp)
    method ReadLine() returns (ok: bool, ghost line: string)
      requires Valid()
      modifies this`pos, buffer
      ensures Valid()
      ensures ok <==> old(pos) < |input|
      ensures !ok ==> pos == old(pos) && OnlyChanged(buffer, 0, 0)
      ensures ok ==>
                && line == FirstLine(input[old(pos)..])
                && pos == old(pos) + |line|
                && input[pos..] == OtherLines(input[old(pos)..])
                && Holds(buffer, 0, line)
    {
      ghost var start := pos;
      ok := Gets(0, BUFFER_SIZE);
      line := FirstLine(input[start..]);
      if ok { LineRead(input, start, pos); }
    }

    // ini_write(LocalBuffer, &wfp)
    method Write(ghost line: string)
      requires Valid() && Holds(buffer, 0, line)
      modifies this`output
      ensures output == old(output) + line
    {
      var n := StrLen(buffer, 0, line);
      assert buffer[..n] == line;
      output := output + buffer[..n];
    }

    // cache_accum: count the line in the buffer unless the group would get too long.
    method Accumulate(ghost line: string) returns (fits: bool)
      requires Valid() && Holds(buffer, 0, line)
      modifies this`cachelen
      ensures fits <==> old(cachelen) + |line| < BUFFER_SIZE
      ensures cachelen == if fits then old(cachelen) + |line| else old(cachelen)
    {
      var len := StrLen(buffer, 0, line);
      if cachelen + len >= BUFFER_SIZE { return false; }
      cachelen := cachelen + len;
      return true;
    }

    // cache_flush: rewind to the mark, read the group again, write it, and move the mark
    // behind it.  When the file ends before the group does, nothing in the loop changes
    // any more and it never ends: `stuck`.
    method Flush() returns (endsLine: bool, stuck: bool)
      requires Valid() && (Cached() || mark == |input|)
      modifies this, buffer
      ensures Valid()
      ensures stuck <==> old(mark) == |input| && old(cachelen) > 0
      ensures !stuck ==>
                && Cached() && cachelen == 0
                && pos == mark == old(mark) + old(cachelen)
                && output == old(output) + input[old(mark)..mark]
                && (endsLine <==> old(cachelen) > 1 && input[mark - 1] == '\n')
      ensures !stuck && old(cachelen) == 0 ==> OnlyChanged(buffer, 0, 1) && buffer[0] == '\0'
    {
      pos := mark;
      buffer[0] := '\0';
      var p := 0;
      endsLine := false;
      ghost var group := if mark < |input| then input[mark..mark + cachelen] else "";
      p, stuck := Reread(group);
      if stuck { return; }
      if buffer[0] != '\0' {
        buffer[p] := '\0';
        output := output + buffer[..p];
        assert buffer[..p] == group;
      }
      mark := pos;
      cachelen := 0;
      endsLine := p > 1 && buffer[p - 1] == '\n' && buffer[p] == '\0';
    }

    // The loop of cache_flush, from the mark.
    method Reread(ghost group: string) returns (p: nat, stuck: bool)
      requires Valid() && pos == mark && (Cached() || mark == |input|)
      requires group == if mark < |input| then input[mark..mark + cachelen] else ""
      requires buffer[0] == '\0'
      modifies this`pos, buffer
      ensures Valid()
      ensures stuck <==> mark == |input| && cachelen > 0
      ensures !stuck ==> p == cachelen == |group| && pos == mark + p && Placed(buffer, 0, group, p)
      ensures !stuck ==> p < BUFFER_SIZE && buffer[p] == '\0'
      ensures cachelen == 0 ==> OnlyChanged(buffer, 0, 0)
    {
      hide Rereads, NulFree, LineLen;
      p, stuck := 0, false;
      while p < cachelen
        invariant Rereading(group, p)
        invariant p == 0 ==> OnlyChanged(buffer, 0, 0)
        decreases cachelen - p
      {
        p, stuck := RereadLine(group, p);
        if stuck { return; }
      }
    }

    ghost predicate GroupAt(group: string, start: nat) {
      && start + |group| <= |input|
      && forall i :: 0 <= i < |group| ==> group[i] == input[start + i]
    }

    ghost predicate Rereading(group: string, p: nat)
      reads this, buffer
    {
      && Valid() && pos == mark + p
      && p <= |group| <= cachelen && |group| < BUFFER_SIZE
      && (mark == |input| ==> p == 0)
      && (mark < |input| ==>
            && |group| == cachelen && mark + cachelen <= |input| && GroupAt(group, mark)
            && Rereads(input[pos..], cachelen - p, BUFFER_SIZE - p))
      && Placed(buffer, 0, group, p) && buffer[p] == '\0'
    }

    method RereadLine(ghost group: string, p: nat) returns (q: nat, stuck: bool)
      requires Rereading(group, p) && p < cachelen
      modifies this`pos, buffer
      ensures stuck ==> q == p && mark == |input| && Valid()
      ensures !stuck ==> mark < |input| && p < q && Rereading(group, q)
    {
      hide Rereads, NulFree, LineLen, GroupAt;
      ghost var before := pos;
      if mark < |input| { RereadsFirst(input[pos..], cachelen - p, BUFFER_SIZE - p); }
      var ok := Gets(p, BUFFER_SIZE - p);
      ghost var chunk := input[before..pos];
      if ok { CharIn(buffer, p, chunk, p); }
      if buffer[p] == '\0' { return p, true; }
      GroupGrows(group, p, chunk, mark);
      DropDrop(input, before, |chunk|);
      q := EndOfChunk(p, cachelen, chunk);
      stuck := false;
    }

    lemma GroupGrows(group: string, p: nat, chunk: string, start: nat)
      requires p + |chunk| <= |group| && GroupAt(group, start)
      requires chunk == input[start + p..start + p + |chunk|]
      requires |group| < buffer.Length && Placed(buffer, 0, group, p) && Holds(buffer, p, chunk)
      ensures Placed(buffer, 0, group, p + |chunk|)
    {
      forall i | 0 <= i < p + |chunk| ensures buffer[0 + i] == group[i] {
        if i >= p {
          assert buffer[p + (i - p)] == chunk[i - p];
        }
      }
    }

    // The inner loop of cache_flush, over what the last read stored.
    method EndOfChunk(p: nat, size: nat, ghost chunk: string) returns (q: nat)
      requires Holds(buffer, p, chunk) && p + |chunk| <= size
      ensures q == p + |chunk|
    {
      q := p;
      while q < size && buffer[q] != '\0'
        invariant p <= q <= p + |chunk|
        decreases size - q
      {
        CharIn(buffer, p, chunk, q);
        q := q + 1;
      }
      CharIn(buffer, p, chunk, q);
    }

    // Copy the line that was just read: count it, or flush first and read it again.
    method CopyLine(ghost line: string)
      requires Cached() && mark + cachelen < |input|
      requires line == FirstLine(input[mark + cachelen..])
      requires pos == mark + cachelen + |line| && Holds(buffer, 0, line)
      modifies this, buffer
      ensures Cached() && pos == old(pos) == mark + cachelen
      ensures Copied() == old(Copied()) + line
      ensures cachelen == if old(cachelen) + |line| >= BUFFER_SIZE then |line| else old(cachelen) + |line|
    {
      hide Rereads, NulFree, LineLen, FirstLine;
      GroupRereads(input, mark, cachelen, line);
      GroupText(input, mark, cachelen, line);
      var fits := Accumulate(line);
      if !fits {
        FlushThenCopy(line);
      }
    }

    method FlushThenCopy(ghost line: string)
      requires Cached() && mark + cachelen < |input|
      requires line == FirstLine(input[mark + cachelen..]) && |line| < BUFFER_SIZE
      modifies this, buffer
      ensures Cached()
      ensures output == old(Copied()) && mark == old(mark + cachelen)
      ensures cachelen == |line| && pos == mark + cachelen && input[mark..pos] == line
    {
      hide Rereads, NulFree, LineLen, FirstLine;
      var _, stuck := Flush();
      ghost var again;
      var ok;
      ok, again := ReadLine();
      GroupRereads(input, mark, 0, line);
      PrefixOfDrop(input, mark, line);
      var fits := Accumulate(line);
    }
  }
}

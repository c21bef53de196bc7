/** Two memory tests of MemTesterNX on memory that may be faulty: words that are read through a
    fault, and words that share a cell. */
module MemoryTests {
  import opened Basics

  type Word = s: seq<bool> | |s| == 64 witness seq(64, _ => false)

  function Flip(w: Word): Word {
    seq(64, k requires 0 <= k < 64 => !w[k])
  }

  function Solid(bit: bool): Word {
    seq(64, _ => bit)
  }

  // ----- the memory ---------------------------------------------------------------------------

  // Which cell each word is kept in, and what reading it makes of what is there.
  datatype Wiring = Wiring(cellOf: seq<nat>, faults: seq<Word -> Word>)

  predicate IsWiring(m: Wiring, cells: nat) {
    && |m.cellOf| == |m.faults|
    && forall i :: 0 <= i < |m.cellOf| ==> m.cellOf[i] < cells
  }

  // A word that reads back what is in its cell.
  ghost predicate ReadsTrue(m: Wiring, i: nat)
    requires i < |m.faults|
  {
    forall v :: m.faults[i](v) == v
  }

  // A bit that reads the same whatever is written.
  ghost predicate StuckBit(m: Wiring, i: nat, k: nat, bit: bool)
    requires i < |m.faults| && k < 64
  {
    forall v :: m.faults[i](v)[k] == bit
  }

  // A word whose only faults are stuck bits.
  ghost predicate OnlyStuckBits(m: Wiring, i: nat)
    requires i < |m.faults|
  {
    forall k: nat :: k < 64 ==> TrueBit(m, i, k) || StuckBit(m, i, k, false) || StuckBit(m, i, k, true)
  }

  ghost predicate TrueBit(m: Wiring, i: nat, k: nat)
    requires i < |m.faults| && k < 64
  {
    forall v :: m.faults[i](v)[k] == v[k]
  }

  lemma TrueBitsReadTrue(m: Wiring, i: nat)
    requires i < |m.faults| && forall k: nat :: k < 64 ==> TrueBit(m, i, k)
    ensures ReadsTrue(m, i)
  {
    forall v: Word ensures m.faults[i](v) == v {
      forall k: nat | k < 64 ensures m.faults[i](v)[k] == v[k] { assert TrueBit(m, i, k); }
    }
  }

  // No other word is kept in word i's cell.
  ghost predicate OwnCell(m: Wiring, i: nat)
    requires i < |m.cellOf|
  {
    forall j :: 0 <= j < |m.cellOf| && j != i ==> m.cellOf[j] != m.cellOf[i]
  }

  ghost predicate Sound(m: Wiring)
    requires |m.cellOf| == |m.faults|
  {
    forall i :: 0 <= i < |m.cellOf| ==> ReadsTrue(m, i) && OwnCell(m, i)
  }

  // What is in a cell after the writes, each to a word.
  function Content(m: Wiring, writes: seq<(nat, Word)>, start: seq<Word>, c: nat): Word
    requires c < |start| && forall k :: 0 <= k < |writes| ==> writes[k].0 < |m.cellOf|
  {
    if writes == [] then start[c]
    else
      var (i, v) := writes[|writes| - 1];
      if m.cellOf[i] == c then v else Content(m, writes[..|writes| - 1], start, c)
  }

  // The last write to the cell, or -1.
  function LastWrite(m: Wiring, writes: seq<(nat, Word)>, c: nat): (k: int)
    requires forall k :: 0 <= k < |writes| ==> writes[k].0 < |m.cellOf|
    ensures -1 <= k < |writes|
    ensures k >= 0 ==> m.cellOf[writes[k].0] == c
    ensures forall j :: k < j < |writes| ==> m.cellOf[writes[j].0] != c
  {
    if writes == [] then -1
    else if m.cellOf[writes[|writes| - 1].0] == c then |writes| - 1
    else LastWrite(m, writes[..|writes| - 1], c)
  }

  lemma {:induction false} ContentIsLast(m: Wiring, writes: seq<(nat, Word)>, start: seq<Word>, c: nat)
    requires c < |start| && forall k :: 0 <= k < |writes| ==> writes[k].0 < |m.cellOf|
    ensures var k := LastWrite(m, writes, c);
            Content(m, writes, start, c) == if k >= 0 then writes[k].1 else start[c]
  {
    if writes != [] {
      var n := |writes| - 1;
      if m.cellOf[writes[n].0] != c { ContentIsLast(m, writes[..n], start, c); }
    }
  }

  class Memory {
    const wiring: Wiring
    const cells: array<Word>

    ghost predicate Valid() {
      IsWiring(wiring, cells.Length)
    }

    constructor (wiring: Wiring, cells: array<Word>)
      requires IsWiring(wiring, cells.Length)
      ensures Valid() && this.wiring == wiring && this.cells == cells
    {
      this.wiring, this.cells := wiring, cells;
    }

    method Write(i: nat, v: Word)
      requires Valid() && i < |wiring.cellOf|
      modifies cells
      ensures forall c :: 0 <= c < cells.Length ==> cells[c] == if c == wiring.cellOf[i] then v else old(cells[c])
    {
      cells[wiring.cellOf[i]] := v;
    }

    function Read(i: nat): Word
      requires Valid() && i < |wiring.cellOf|
      reads cells
    {
      wiring.faults[i](cells[wiring.cellOf[i]])
    }

    // The cells hold what the writes to cells that held `start` leave.
    ghost predicate Wrote(writes: seq<(nat, Word)>, start: seq<Word>)
      requires Valid()
      reads cells
    {
      && |start| == cells.Length
      && (forall k :: 0 <= k < |writes| ==> writes[k].0 < |wiring.cellOf|)
      && forall c :: 0 <= c < cells.Length ==> cells[c] == Content(wiring, writes, start, c)
    }

    method WriteMore(i: nat, v: Word, ghost writes: seq<(nat, Word)>, ghost start: seq<Word>)
      requires Valid() && i < |wiring.cellOf| && Wrote(writes, start)
      modifies cells
      ensures Wrote(writes + [(i, v)], start)
    {
      Write(i, v);
      ghost var more := writes + [(i, v)];
      assert more[..|writes|] == writes;
    }
  }

  // What word i reads after the writes, if its cell is among those written.
  function Seen(m: Wiring, writes: seq<(nat, Word)>, i: nat): Word
    requires i < |m.cellOf| == |m.faults|
    requires forall k :: 0 <= k < |writes| ==> writes[k].0 < |m.cellOf|
    requires LastWrite(m, writes, m.cellOf[i]) >= 0
  {
    m.faults[i](writes[LastWrite(m, writes, m.cellOf[i])].1)
  }

  lemma ReadIsSeen(memory: Memory, writes: seq<(nat, Word)>, start: seq<Word>, i: nat)
    requires memory.Valid() && memory.Wrote(writes, start) && i < |memory.wiring.cellOf|
    requires LastWrite(memory.wiring, writes, memory.wiring.cellOf[i]) >= 0
    ensures memory.Read(i) == Seen(memory.wiring, writes, i)
  {
    ContentIsLast(memory.wiring, writes, start, memory.wiring.cellOf[i]);
  }

  // ----- test_stuck_address ------------------------------------------------------------------------

  // Word i's own address, or its complement, by turns.
  function AddressPattern(addresses: seq<Word>, pass: nat, i: nat): Word
    requires i < |addresses|
  {
    if (pass + i) % 2 == 0 then addresses[i] else Flip(addresses[i])
  }

  function AddressWrites(addresses: seq<Word>, pass: nat, n: nat): (w: seq<(nat, Word)>)
    requires n <= |addresses|
    ensures |w| == n && forall k :: 0 <= k < n ==> w[k] == (k, AddressPattern(addresses, pass, k))
  {
    seq(n, k requires 0 <= k < n => (k, AddressPattern(addresses, pass, k)))
  }

  // Word i reads back its pattern in this pass.
  ghost predicate KeepsAddress(m: Wiring, addresses: seq<Word>, pass: nat, i: nat)
    requires i < |addresses| == |m.cellOf| == |m.faults|
  {
    var writes := AddressWrites(addresses, pass, |addresses|);
    && LastWrite(m, writes, m.cellOf[i]) >= 0
    && Seen(m, writes, i) == AddressPattern(addresses, pass, i)
  }

  ghost predicate KeepsAddresses(m: Wiring, addresses: seq<Word>, passes: nat)
    requires |addresses| == |m.cellOf| == |m.faults|
  {
    forall j, i :: 0 <= j < passes && 0 <= i < |addresses| ==> KeepsAddress(m, addresses, j, i)
  }

  method FillWithAddresses(memory: Memory, addresses: seq<Word>, pass: nat)
    requires memory.Valid() && |memory.wiring.cellOf| == |addresses|
    modifies memory.cells
    ensures memory.Wrote(AddressWrites(addresses, pass, |addresses|), old(memory.cells[..]))
  {
    ghost var start := memory.cells[..];
    var i := 0;
    while i < |addresses|
      invariant i <= |addresses| && memory.Wrote(AddressWrites(addresses, pass, i), start)
    {
      memory.WriteMore(i, AddressPattern(addresses, pass, i), AddressWrites(addresses, pass, i), start);
      assert AddressWrites(addresses, pass, i) + [(i, AddressPattern(addresses, pass, i))]
          == AddressWrites(addresses, pass, i + 1);
      i := i + 1;
    }
  }

  lemma WrittenSomewhere(m: Wiring, addresses: seq<Word>, pass: nat, i: nat)
    requires i < |addresses| == |m.cellOf|
    ensures LastWrite(m, AddressWrites(addresses, pass, |addresses|), m.cellOf[i]) >= i
  {
    var writes := AddressWrites(addresses, pass, |addresses|);
    assert writes[i].0 == i;
  }

  /** test_stuck_address over the words of a buffer: 0 just when every word keeps its address,
      and the address's complement, in every pass.  dividend sets the number of passes. */
  method TestStuckAddress(memory: Memory, addresses: seq<Word>, dividend: nat) returns (rc: int)
    requires memory.Valid() && |memory.wiring.cellOf| == |addresses| && dividend > 0
    modifies memory.cells
    ensures rc == 0 || rc == -1
    ensures rc == 0 <==> KeepsAddresses(memory.wiring, addresses, 16 / dividend)
  {
    var j := 0;
    while j < 16 / dividend
      invariant j <= 16 / dividend
      invariant forall p, i :: 0 <= p < j && 0 <= i < |addresses| ==> KeepsAddress(memory.wiring, addresses, p, i)
    {
      rc := AddressPass(memory, addresses, j);
      if rc != 0 { return; }
      j := j + 1;
    }
    rc := 0;
  }

  method AddressPass(memory: Memory, addresses: seq<Word>, j: nat) returns (rc: int)
    requires memory.Valid() && |memory.wiring.cellOf| == |addresses|
    modifies memory.cells
    ensures rc == 0 || rc == -1
    ensures rc == 0 <==> forall i :: 0 <= i < |addresses| ==> KeepsAddress(memory.wiring, addresses, j, i)
  {
    ghost var start := memory.cells[..];
    FillWithAddresses(memory, addresses, j);
    ghost var writes := AddressWrites(addresses, j, |addresses|);
    var i := 0;
    while i < |addresses|
      invariant i <= |addresses| && memory.Wrote(writes, start)
      invariant forall p :: 0 <= p < i ==> KeepsAddress(memory.wiring, addresses, j, p)
    {
      WrittenSomewhere(memory.wiring, addresses, j, i);
      ReadIsSeen(memory, writes, start, i);
      if memory.Read(i) != AddressPattern(addresses, j, i) {
        assert !KeepsAddress(memory.wiring, addresses, j, i);
        return -1;
      }
      i := i + 1;
    }
    rc := 0;
  }

  // Distinct addresses of 64-bit words: the lowest bit is 0.
  ghost predicate AreAddresses(addresses: seq<Word>) {
    && (forall i :: 0 <= i < |addresses| ==> !addresses[i][0])
    && forall i, j :: 0 <= i < j < |addresses| ==> addresses[i] != addresses[j]
  }

  /** On sound memory the test passes. */
  lemma SoundMemoryPasses(m: Wiring, addresses: seq<Word>, pass: nat, i: nat)
    requires |m.cellOf| == |m.faults| == |addresses| && Sound(m) && i < |addresses|
    ensures KeepsAddress(m, addresses, pass, i)
  {
    WrittenSomewhere(m, addresses, pass, i);
    assert ReadsTrue(m, i) && OwnCell(m, i);
  }

  /** A bit that is stuck is found in one of any two passes that follow each other. */
  lemma StuckBitIsFound(m: Wiring, addresses: seq<Word>, pass: nat, i: nat, k: nat, bit: bool)
    requires |m.cellOf| == |m.faults| == |addresses| && i < |addresses| && k < 64 && StuckBit(m, i, k, bit)
    ensures !(KeepsAddress(m, addresses, pass, i) && KeepsAddress(m, addresses, pass + 1, i))
  {
    var a, b := AddressPattern(addresses, pass, i), AddressPattern(addresses, pass + 1, i);
    PatternsTurn(addresses, pass, i);
    assert b[k] != a[k];
    WrittenSomewhere(m, addresses, pass, i);
    WrittenSomewhere(m, addresses, pass + 1, i);
  }

  lemma PatternsTurn(addresses: seq<Word>, pass: nat, i: nat)
    requires i < |addresses|
    ensures AddressPattern(addresses, pass + 1, i) == Flip(AddressPattern(addresses, pass, i))
  {
    FlipTwice(addresses[i]);
  }

  lemma FlipTwice(w: Word)
    ensures Flip(Flip(w)) == w
  {
  }

  /** Two words in one cell are found in every pass, by the one that is written first. */
  lemma SharedCellIsFound(m: Wiring, addresses: seq<Word>, pass: nat, i: nat, j: nat)
    requires |m.cellOf| == |m.faults| == |addresses| && AreAddresses(addresses)
    requires i < j < |addresses| && m.cellOf[i] == m.cellOf[j] && ReadsTrue(m, i)
    ensures !KeepsAddress(m, addresses, pass, i)
  {
    WrittenSomewhere(m, addresses, pass, j);
    var last := LastWrite(m, AddressWrites(addresses, pass, |addresses|), m.cellOf[i]);
    PatternsDiffer(addresses, pass, i, last);
  }

  lemma PatternsDiffer(addresses: seq<Word>, pass: nat, i: nat, j: nat)
    requires AreAddresses(addresses) && i < j < |addresses|
    ensures AddressPattern(addresses, pass, i) != AddressPattern(addresses, pass, j)
  {
    var a, b := addresses[i], addresses[j];
    assert !a[0] && !b[0] && Flip(a)[0] && Flip(b)[0];
    FlipTwice(a);
    FlipTwice(b);
  }

  /** What the test is for: with at least two passes, memory whose only faults are stuck bits
      passes if and only if it is sound: no bit is stuck and no two words share a cell. */
  lemma StuckAddressVerdict(m: Wiring, addresses: seq<Word>, passes: nat)
    requires |m.cellOf| == |m.faults| == |addresses| && AreAddresses(addresses) && passes >= 2
    requires forall i :: 0 <= i < |addresses| ==> OnlyStuckBits(m, i)
    ensures KeepsAddresses(m, addresses, passes) <==> Sound(m)
  {
    hide KeepsAddress, StuckBit, TrueBit, ReadsTrue;
    if Sound(m) {
      forall j, i | 0 <= j < passes && 0 <= i < |addresses| ensures KeepsAddress(m, addresses, j, i) {
        SoundMemoryPasses(m, addresses, j, i);
      }
    } else if i, k: nat, bit :| 0 <= i < |addresses| && k < 64 && StuckBit(m, i, k, bit) {
      StuckBitIsFound(m, addresses, 0, i, k, bit);
    } else {
      forall i | 0 <= i < |addresses| ensures ReadsTrue(m, i) {
        assert OnlyStuckBits(m, i);
        TrueBitsReadTrue(m, i);
      }
      var i :| 0 <= i < |addresses| && !OwnCell(m, i);
      var j :| 0 <= j < |addresses| && j != i && m.cellOf[j] == m.cellOf[i];
      SharedCellIsFound(m, addresses, 0, Min(i, j), if i < j then j else i);
    }
  }

  // The word that is written last of those in word i's cell.
  function LastInCell(m: Wiring, i: nat): (j: nat)
    requires i < |m.cellOf|
    ensures i <= j < |m.cellOf| && m.cellOf[j] == m.cellOf[i]
    ensures forall k :: j < k < |m.cellOf| ==> m.cellOf[k] != m.cellOf[i]
  {
    LastInCellBelow(m, i, |m.cellOf|)
  }

  function LastInCellBelow(m: Wiring, i: nat, n: nat): (j: nat)
    requires i < n <= |m.cellOf|
    ensures i <= j < n && m.cellOf[j] == m.cellOf[i]
    ensures forall k :: j < k < n ==> m.cellOf[k] != m.cellOf[i]
  {
    if m.cellOf[n - 1] == m.cellOf[i] then n - 1 else LastInCellBelow(m, i, n - 1)
  }

  /** With any faults: a word passes if and only if its fault turns what the last word of its cell
      was given into what the word itself was given. */
  lemma PassesIff(m: Wiring, addresses: seq<Word>, passes: nat)
    requires |m.cellOf| == |m.faults| == |addresses|
    ensures KeepsAddresses(m, addresses, passes) <==>
              forall p, i :: 0 <= p < passes && 0 <= i < |addresses| ==>
                m.faults[i](AddressPattern(addresses, p, LastInCell(m, i))) == AddressPattern(addresses, p, i)
  {
    hide AddressPattern, LastInCell, LastWrite;
    forall p: nat, i: nat | p < passes && i < |addresses|
      ensures KeepsAddress(m, addresses, p, i) <==>
                m.faults[i](AddressPattern(addresses, p, LastInCell(m, i))) == AddressPattern(addresses, p, i)
    {
      var j := LastInCell(m, i);
      WrittenSomewhere(m, addresses, p, j);
    }
  }

  // Reads the other word's patterns as its own.
  function Disguise(own: Word, other: Word): Word -> Word {
    v => if v == other then Flip(own) else if v == Flip(other) then own else v
  }

  lemma DisguiseHides(a: Word, b: Word, pass: nat)
    requires AreAddresses([a, b])
    ensures Disguise(a, b)(AddressPattern([a, b], pass, 1)) == AddressPattern([a, b], pass, 0)
  {
    assert b != Flip(b) by { assert b[0] != Flip(b)[0]; }
  }

  /** A fault that is more than stuck bits can hide a shared cell: two words in one cell pass
      when the first reads what the second was given as its own. */
  lemma FaultCanHideSharedCell(a: Word, b: Word, passes: nat)
    requires AreAddresses([a, b])
    ensures var m := Wiring([0, 0], [Disguise(a, b), v => v]);
            IsWiring(m, 1) && !Sound(m) && KeepsAddresses(m, [a, b], passes)
  {
    var m := Wiring([0, 0], [Disguise(a, b), v => v]);
    hide AddressPattern, KeepsAddresses, Disguise, LastInCell;
    assert !OwnCell(m, 0) by { assert m.cellOf[1] == m.cellOf[0]; }
    assert LastInCell(m, 0) == LastInCell(m, 1) == 1;
    forall p: nat ensures Disguise(a, b)(AddressPattern([a, b], p, 1)) == AddressPattern([a, b], p, 0) {
      DisguiseHides(a, b, p);
    }
    PassesIff(m, [a, b], passes);
  }

  /** With dividend 16 there is one pass only: of an otherwise sound word, a stuck bit is found
      just when it differs from what is written to it: the bit of the address in even words, and its
      complement in odd ones. */
  lemma OnePassFindsHalf(m: Wiring, addresses: seq<Word>, i: nat, k: nat, bit: bool)
    requires |m.cellOf| == |m.faults| == |addresses| && i < |addresses| && k < 64 && OwnCell(m, i)
    requires forall v: Word :: m.faults[i](v) == seq(64, n requires 0 <= n < 64 => if n == k then bit else v[n])
    ensures 16 / 16 == 1
    ensures KeepsAddress(m, addresses, 0, i) <==> if i % 2 == 0 then addresses[i][k] == bit else addresses[i][k] != bit
  {
    WrittenSomewhere(m, addresses, 0, i);
    var v := AddressPattern(addresses, 0, i);
    assert Seen(m, AddressWrites(addresses, 0, |addresses|), i) == m.faults[i](v);
    assert m.faults[i](v)[k] == bit;
    if v[k] == bit { assert m.faults[i](v) == v; }
  }

  // ----- test_solidbits_comparison --------------------------------------------------------------------

  // What both halves' i-th words get in a pass.
  function SolidPattern(pass: nat, i: nat): Word {
    var q := Solid(pass % 2 == 0);
    if i % 2 == 0 then q else Flip(q)
  }

  // The words of the two halves are 0 .. count and count .. 2 * count; the second is written first.
  function SolidWrites(count: nat, pass: nat, n: nat): (w: seq<(nat, Word)>)
    requires n <= count
    ensures |w| == 2 * n && forall k :: 0 <= k < |w| ==> w[k].0 < 2 * count
  {
    if n == 0 then []
    else SolidWrites(count, pass, n - 1) + [(count + n - 1, SolidPattern(pass, n - 1))]
         + [(n - 1, SolidPattern(pass, n - 1))]
  }

  lemma {:induction false} SolidWriteIs(count: nat, pass: nat, n: nat, i: nat)
    requires i < n <= count
    ensures SolidWrites(count, pass, n)[2 * i] == (count + i, SolidPattern(pass, i))
    ensures SolidWrites(count, pass, n)[2 * i + 1] == (i, SolidPattern(pass, i))
  {
    hide SolidPattern;
    if i < n - 1 { SolidWriteIs(count, pass, n - 1, i); }
  }

  // The writes of the i-th step are the only ones to these words.
  lemma SolidWriteOf(count: nat, pass: nat, k: nat, i: nat, w: nat)
    requires i < count && k < 2 * count && (w == i || w == count + i)
    requires SolidWrites(count, pass, count)[k].0 == w
    ensures SolidWrites(count, pass, count)[k].1 == SolidPattern(pass, i)
  {
    hide SolidPattern, SolidWrites;
    SolidWriteIs(count, pass, count, k / 2);
    assert k == 2 * (k / 2) || k == 2 * (k / 2) + 1;
  }

  lemma SolidWrittenSomewhere(m: Wiring, count: nat, pass: nat, i: nat)
    requires |m.cellOf| == 2 * count && i < count
    ensures LastWrite(m, SolidWrites(count, pass, count), m.cellOf[i]) >= 0
    ensures LastWrite(m, SolidWrites(count, pass, count), m.cellOf[count + i]) >= 0
  {
    hide SolidWrites, SolidPattern;
    SolidWriteIs(count, pass, count, i);
  }

  // The i-th words of the two halves read the same in this pass.
  ghost predicate Agree(m: Wiring, count: nat, pass: nat, i: nat)
    requires |m.cellOf| == |m.faults| == 2 * count && i < count
  {
    var writes := SolidWrites(count, pass, count);
    && LastWrite(m, writes, m.cellOf[i]) >= 0 && LastWrite(m, writes, m.cellOf[count + i]) >= 0
    && Seen(m, writes, i) == Seen(m, writes, count + i)
  }

  method FillSolid(memory: Memory, count: nat, j: nat)
    requires memory.Valid() && |memory.wiring.cellOf| == 2 * count
    modifies memory.cells
    ensures memory.Wrote(SolidWrites(count, j, count), old(memory.cells[..]))
  {
    hide Memory.Wrote;
    ghost var start := memory.cells[..];
    NothingWritten(memory, start);
    var q := Solid(j % 2 == 0);
    var i := 0;
    while i < count
      invariant i <= count && memory.Wrote(SolidWrites(count, j, i), start)
    {
      var v := if i % 2 == 0 then q else Flip(q);
      ghost var writes := SolidWrites(count, j, i);
      memory.WriteMore(count + i, v, writes, start);
      memory.WriteMore(i, v, writes + [(count + i, v)], start);
      i := i + 1;
    }
  }

  lemma NothingWritten(memory: Memory, start: seq<Word>)
    requires memory.Valid() && start == memory.cells[..]
    ensures memory.Wrote([], start)
  {
  }

  // compare_regions reads all words, and does not stop at the first difference.
  method CompareRegions(memory: Memory, count: nat) returns (r: int)
    requires memory.Valid() && |memory.wiring.cellOf| == 2 * count
    ensures r == 0 || r == -1
    ensures r == 0 <==> forall i :: 0 <= i < count ==> memory.Read(i) == memory.Read(count + i)
  {
    r := 0;
    var i := 0;
    while i < count
      invariant i <= count && (r == 0 || r == -1)
      invariant r == 0 <==> forall p :: 0 <= p < i ==> memory.Read(p) == memory.Read(count + p)
    {
      if memory.Read(i) != memory.Read(count + i) { r := -1; }
      i := i + 1;
    }
  }

  function SolidPasses(dividend: nat): nat
    requires dividend > 0
  {
    64 / dividend / dividend
  }

  /** test_solidbits_comparison: 0 just when the two halves agree in every pass. */
  method TestSolidBits(memory: Memory, count: nat, dividend: nat) returns (rc: int)
    requires memory.Valid() && |memory.wiring.cellOf| == 2 * count && dividend > 0
    modifies memory.cells
    ensures rc == 0 || rc == -1
    ensures rc == 0 <==> AgreesThroughout(memory.wiring, count, SolidPasses(dividend))
  {
    hide Agree, SolidPasses;
    var j := 0;
    while j < SolidPasses(dividend)
      invariant j <= SolidPasses(dividend)
      invariant forall p, i :: 0 <= p < j && 0 <= i < count ==> Agree(memory.wiring, count, p, i)
    {
      rc := SolidPass(memory, count, j);
      if rc != 0 { return -1; }
      j := j + 1;
    }
    rc := 0;
  }

  method SolidPass(memory: Memory, count: nat, j: nat) returns (rc: int)
    requires memory.Valid() && |memory.wiring.cellOf| == 2 * count
    modifies memory.cells
    ensures rc == 0 || rc == -1
    ensures rc == 0 <==> forall i :: 0 <= i < count ==> Agree(memory.wiring, count, j, i)
  {
    hide Memory.Wrote, SolidWrites, LastWrite, Agree;
    ghost var start := memory.cells[..];
    FillSolid(memory, count, j);
    rc := CompareRegions(memory, count);
    if rc == 0 {
      forall i | 0 <= i < count ensures Agree(memory.wiring, count, j, i) {
        AgreeIsRead(memory, count, j, start, i);
      }
    } else {
      ghost var i :| 0 <= i < count && memory.Read(i) != memory.Read(count + i);
      AgreeIsRead(memory, count, j, start, i);
    }
  }

  lemma AgreeIsRead(memory: Memory, count: nat, j: nat, start: seq<Word>, i: nat)
    requires memory.Valid() && |memory.wiring.cellOf| == 2 * count && i < count
    requires memory.Wrote(SolidWrites(count, j, count), start)
    ensures Agree(memory.wiring, count, j, i) <==> memory.Read(i) == memory.Read(count + i)
  {
    hide SolidWrites, LastWrite, Memory.Wrote;
    SolidWrittenSomewhere(memory.wiring, count, j, i);
    ReadIsSeen(memory, SolidWrites(count, j, count), start, i);
    ReadIsSeen(memory, SolidWrites(count, j, count), start, count + i);
  }

  // Word w is the only one in its cell, so it is the pattern it was given that it holds.
  lemma SolidSeen(m: Wiring, count: nat, pass: nat, i: nat, w: nat)
    requires |m.cellOf| == |m.faults| == 2 * count && i < count && (w == i || w == count + i)
    requires OwnCell(m, w)
    ensures LastWrite(m, SolidWrites(count, pass, count), m.cellOf[w]) >= 0
    ensures Seen(m, SolidWrites(count, pass, count), w) == m.faults[w](SolidPattern(pass, i))
  {
    hide SolidWrites, SolidPattern;
    SolidWrittenSomewhere(m, count, pass, i);
    SolidWriteOf(count, pass, LastWrite(m, SolidWrites(count, pass, count), m.cellOf[w]), i, w);
  }

  lemma SolidPatternsTurn(pass: nat, i: nat, k: nat)
    requires k < 64
    ensures SolidPattern(pass, i)[k] != SolidPattern(pass + 1, i)[k]
  {
  }

  // The two halves agree in all the passes.
  ghost predicate AgreesThroughout(m: Wiring, count: nat, passes: nat)
    requires |m.cellOf| == |m.faults| == 2 * count
  {
    forall j, i :: 0 <= j < passes && 0 <= i < count ==> Agree(m, count, j, i)
  }

  // The same bits are stuck in the i-th words of both halves, and at the same values.
  ghost predicate SameFaults(m: Wiring, count: nat, i: nat)
    requires |m.faults| == 2 * count && i < count
  {
    forall k: nat :: k < 64 ==> SameBit(m, count, i, k)
  }

  ghost predicate SameBit(m: Wiring, count: nat, i: nat, k: nat)
    requires |m.faults| == 2 * count && i < count && k < 64
  {
    forall v :: m.faults[i](v)[k] == m.faults[count + i](v)[k]
  }

  lemma BothPatterns(pass: nat, i: nat)
    ensures SolidPattern(pass, i) == Solid(true) || SolidPattern(pass, i) == Solid(false)
    ensures SolidPattern(pass, i) != SolidPattern(pass + 1, i)
  {
    assert Flip(Solid(true)) == Solid(false) && Flip(Solid(false)) == Solid(true);
    SolidPatternsTurn(pass, i, 0);
  }

  // Stuck bits are told apart by the two patterns.
  lemma SameBitIff(m: Wiring, count: nat, i: nat, k: nat)
    requires |m.faults| == 2 * count && i < count && k < 64 && OnlyStuckBits(m, i) && OnlyStuckBits(m, count + i)
    ensures SameBit(m, count, i, k) <==>
              && m.faults[i](Solid(true))[k] == m.faults[count + i](Solid(true))[k]
              && m.faults[i](Solid(false))[k] == m.faults[count + i](Solid(false))[k]
  {
    var a, b := i, count + i;
    assert TrueBit(m, a, k) || StuckBit(m, a, k, false) || StuckBit(m, a, k, true);
    assert TrueBit(m, b, k) || StuckBit(m, b, k, false) || StuckBit(m, b, k, true);
  }

  lemma SameFaultsIff(m: Wiring, count: nat, i: nat)
    requires |m.faults| == 2 * count && i < count && OnlyStuckBits(m, i) && OnlyStuckBits(m, count + i)
    ensures SameFaults(m, count, i) <==>
              && m.faults[i](Solid(true)) == m.faults[count + i](Solid(true))
              && m.faults[i](Solid(false)) == m.faults[count + i](Solid(false))
  {
    hide OnlyStuckBits, SameBit, Solid;
    forall k: nat | k < 64
      ensures SameBit(m, count, i, k) <==>
                && m.faults[i](Solid(true))[k] == m.faults[count + i](Solid(true))[k]
                && m.faults[i](Solid(false))[k] == m.faults[count + i](Solid(false))[k]
    {
      SameBitIff(m, count, i, k);
    }
  }

  /** What the comparison is for, on memory whose only faults are stuck bits in words with a cell
      of their own: with at least two passes the test says 0 if and only if every two partners
      have the same bits stuck at the same values. */
  lemma SolidBitsVerdict(m: Wiring, count: nat, passes: nat)
    requires |m.cellOf| == |m.faults| == 2 * count && passes >= 2
    requires forall w :: 0 <= w < 2 * count ==> OwnCell(m, w) && OnlyStuckBits(m, w)
    ensures AgreesThroughout(m, count, passes) <==> forall i: nat :: i < count ==> SameFaults(m, count, i)
  {
    hide Agree, SameFaults, OnlyStuckBits, OwnCell;
    if AgreesThroughout(m, count, passes) {
      forall i: nat | i < count ensures SameFaults(m, count, i) {
        assert Agree(m, count, 0, i) && Agree(m, count, 1, i);
        PairVerdict(m, count, i, 0);
      }
    } else {
      var j, i :| 0 <= j < passes && 0 <= i < count && !Agree(m, count, j, i);
      PairVerdict(m, count, i, j);
    }
  }

  lemma PairVerdict(m: Wiring, count: nat, i: nat, pass: nat)
    requires |m.cellOf| == |m.faults| == 2 * count && i < count
    requires forall w :: 0 <= w < 2 * count ==> OwnCell(m, w) && OnlyStuckBits(m, w)
    ensures SameFaults(m, count, i) <==> Agree(m, count, 0, i) && Agree(m, count, 1, i)
    ensures SameFaults(m, count, i) ==> Agree(m, count, pass, i)
  {
    hide SameFaults, OnlyStuckBits, SolidPattern, OwnCell, SolidWrites, LastWrite, Solid;
    PairAgrees(m, count, i, 0);
    PairAgrees(m, count, i, 1);
    PairAgrees(m, count, i, pass);
    BothPatterns(0, i);
    BothPatterns(1, i);
    BothPatterns(pass, i);
    SameFaultsIff(m, count, i);
  }

  lemma PairAgrees(m: Wiring, count: nat, i: nat, pass: nat)
    requires |m.cellOf| == |m.faults| == 2 * count && i < count && OwnCell(m, i) && OwnCell(m, count + i)
    ensures Agree(m, count, pass, i) <==>
              m.faults[i](SolidPattern(pass, i)) == m.faults[count + i](SolidPattern(pass, i))
  {
    hide SolidPattern, OwnCell, SolidWrites, LastWrite;
    SolidSeen(m, count, pass, i, i);
    SolidSeen(m, count, pass, i, count + i);
  }

  // The word that word w is compared with.
  function Partner(count: nat, w: nat): (p: nat)
    requires w < 2 * count
    ensures p < 2 * count
  {
    if w < count then count + w else w - count
  }

  // Word w has a stuck bit, and its partner is sound.
  ghost predicate StuckBeside(m: Wiring, count: nat, w: nat, k: nat, bit: bool)
    requires |m.cellOf| == |m.faults| == 2 * count
  {
    && w < 2 * count && k < 64 && StuckBit(m, w, k, bit)
    && ReadsTrue(m, Partner(count, w)) && OwnCell(m, Partner(count, w))
  }

  /** With any faults and shared cells elsewhere: sound memory agrees in every pass, and two passes
      find a stuck bit whose partner word is sound. */
  lemma SolidBitsFinds(m: Wiring, count: nat, passes: nat)
    requires |m.cellOf| == |m.faults| == 2 * count
    ensures Sound(m) ==> AgreesThroughout(m, count, passes)
    ensures passes >= 2 && (exists w: nat, k: nat, bit :: StuckBeside(m, count, w, k, bit)) ==>
              !AgreesThroughout(m, count, passes)
  {
    hide Agree, StuckBit, ReadsTrue, OwnCell;
    if Sound(m) {
      forall j, i | 0 <= j < passes && 0 <= i < count ensures Agree(m, count, j, i) {
        assert ReadsTrue(m, i) && ReadsTrue(m, count + i) && OwnCell(m, i) && OwnCell(m, count + i);
        SoundPairAgrees(m, count, j, i);
      }
    }
    if passes >= 2 && exists w: nat, k: nat, bit :: StuckBeside(m, count, w, k, bit) {
      var w: nat, k: nat, bit :| StuckBeside(m, count, w, k, bit);
      StuckBitDisagrees(m, count, if w < count then w else w - count, w, k, bit);
    }
  }

  lemma SoundPairAgrees(m: Wiring, count: nat, pass: nat, i: nat)
    requires |m.cellOf| == |m.faults| == 2 * count && i < count && OwnCell(m, i) && OwnCell(m, count + i)
    requires ReadsTrue(m, i) && ReadsTrue(m, count + i)
    ensures Agree(m, count, pass, i)
  {
    hide OwnCell, Agree;
    PairAgrees(m, count, i, pass);
  }

  lemma StuckBitDisagrees(m: Wiring, count: nat, i: nat, w: nat, k: nat, bit: bool)
    requires |m.cellOf| == |m.faults| == 2 * count && i < count && (w == i || w == count + i)
    requires StuckBeside(m, count, w, k, bit)
    ensures !(Agree(m, count, 0, i) && Agree(m, count, 1, i))
  {
    hide SolidWrites, SolidPattern, LastWrite, OwnCell;
    SolidSeen(m, count, 0, i, Partner(count, w));
    SolidSeen(m, count, 1, i, Partner(count, w));
    SolidWrittenSomewhere(m, count, 0, i);
    SolidPatternsTurn(0, i, k);
  }

  // The k-th step writes to the cell of word w, in one half or the other.
  predicate StepWrites(m: Wiring, count: nat, w: nat, k: nat)
    requires |m.cellOf| == 2 * count && w < 2 * count
  {
    k < count && (m.cellOf[k] == m.cellOf[w] || m.cellOf[count + k] == m.cellOf[w])
  }

  // The j-th step is the last one that writes to the cell of word w.
  ghost predicate LastStep(m: Wiring, count: nat, w: nat, j: nat)
    requires |m.cellOf| == 2 * count && w < 2 * count
  {
    StepWrites(m, count, w, j) && forall k: nat :: j < k ==> !StepWrites(m, count, w, k)
  }

  // Where the last write to word w's cell is among the writes of a pass.
  lemma LastStepWrites(m: Wiring, count: nat, pass: nat, w: nat)
    requires |m.cellOf| == 2 * count && w < 2 * count
    ensures var k := LastWrite(m, SolidWrites(count, pass, count), m.cellOf[w]);
            && k >= 0 && LastStep(m, count, w, k / 2)
            && SolidWrites(count, pass, count)[k].1 == SolidPattern(pass, k / 2)
  {
    hide SolidPattern, SolidWrites, LastWrite;
    SolidWrittenSomewhere(m, count, pass, if w < count then w else w - count);
    var k := LastWrite(m, SolidWrites(count, pass, count), m.cellOf[w]);
    SolidWriteIs(count, pass, count, k / 2);
    assert k == 2 * (k / 2) || k == 2 * (k / 2) + 1;
    forall j: nat | k / 2 < j ensures !StepWrites(m, count, w, j) {
      if j < count { NoLaterStep(m, count, pass, w, j); }
    }
  }

  lemma NoLaterStep(m: Wiring, count: nat, pass: nat, w: nat, j: nat)
    requires |m.cellOf| == 2 * count && w < 2 * count && j < count
    requires LastWrite(m, SolidWrites(count, pass, count), m.cellOf[w]) < 2 * j
    ensures !StepWrites(m, count, w, j)
  {
    hide SolidPattern, SolidWrites, LastWrite;
    SolidWriteIs(count, pass, count, j);
    var writes := SolidWrites(count, pass, count);
    assert m.cellOf[writes[2 * j].0] != m.cellOf[w] && m.cellOf[writes[2 * j + 1].0] != m.cellOf[w];
  }

  lemma OneLastStep(m: Wiring, count: nat, w: nat, j: nat, k: nat)
    requires |m.cellOf| == 2 * count && w < 2 * count && LastStep(m, count, w, j) && LastStep(m, count, w, k)
    ensures j == k
  {
  }

  // A word without faults reads what the last step for its cell wrote.
  lemma SeenOfLastStep(m: Wiring, count: nat, pass: nat, w: nat, j: nat)
    requires |m.cellOf| == |m.faults| == 2 * count && w < 2 * count && ReadsTrue(m, w) && LastStep(m, count, w, j)
    ensures LastWrite(m, SolidWrites(count, pass, count), m.cellOf[w]) >= 0
    ensures Seen(m, SolidWrites(count, pass, count), w) == SolidPattern(pass, j)
  {
    hide SolidPattern, SolidWrites, LastStep, LastWrite;
    LastStepWrites(m, count, pass, w);
    OneLastStep(m, count, w, j, LastWrite(m, SolidWrites(count, pass, count), m.cellOf[w]) / 2);
  }

  lemma PatternsAlternate(pass: nat, i: nat, j: nat)
    ensures SolidPattern(pass, i) == SolidPattern(pass, j) <==> i % 2 == j % 2
  {
    var p, q := SolidPattern(pass, i), SolidPattern(pass, j);
    if i % 2 != j % 2 { assert p[0] != q[0]; }
  }

  ghost predicate StepsOf(m: Wiring, count: nat, i: nat, a: nat, b: nat)
    requires |m.cellOf| == 2 * count
  {
    i < count && LastStep(m, count, i, a) && LastStep(m, count, count + i, b)
  }

  // The last steps for the two cells of every pair are both even or both odd.
  ghost predicate StepsMatch(m: Wiring, count: nat)
    requires |m.cellOf| == 2 * count
  {
    forall i, a, b :: StepsOf(m, count, i, a, b) ==> a % 2 == b % 2
  }

  lemma PairMatches(m: Wiring, count: nat, pass: nat, i: nat, a: nat, b: nat)
    requires |m.cellOf| == |m.faults| == 2 * count && i < count && ReadsTrue(m, i) && ReadsTrue(m, count + i)
    requires StepsOf(m, count, i, a, b)
    ensures Agree(m, count, pass, i) <==> a % 2 == b % 2
  {
    hide SolidPattern, SolidWrites, LastStep, LastWrite, ReadsTrue;
    SeenOfLastStep(m, count, pass, i, a);
    SeenOfLastStep(m, count, pass, count + i, b);
    PatternsAlternate(pass, a, b);
  }

  lemma StepsOfPair(m: Wiring, count: nat, i: nat) returns (a: nat, b: nat)
    requires |m.cellOf| == 2 * count && i < count
    ensures StepsOf(m, count, i, a, b)
  {
    hide SolidPattern, SolidWrites, LastStep, LastWrite;
    LastStepWrites(m, count, 0, i);
    LastStepWrites(m, count, 0, count + i);
    a := LastWrite(m, SolidWrites(count, 0, count), m.cellOf[i]) / 2;
    b := LastWrite(m, SolidWrites(count, 0, count), m.cellOf[count + i]) / 2;
  }

  /** What the alternation of the patterns is for, on memory without faults in which words may share
      cells: the comparison says 0 if and only if the words that were last given to the two cells of
      each pair are both even or both odd. */
  lemma SharedCellsVerdict(m: Wiring, count: nat, passes: nat)
    requires |m.cellOf| == |m.faults| == 2 * count && passes >= 1
    requires forall w :: 0 <= w < 2 * count ==> ReadsTrue(m, w)
    ensures AgreesThroughout(m, count, passes) <==> StepsMatch(m, count)
  {
    hide Agree, LastStep, ReadsTrue;
    if AgreesThroughout(m, count, passes) {
      forall i: nat, a: nat, b: nat | StepsOf(m, count, i, a, b) ensures a % 2 == b % 2 {
        assert Agree(m, count, 0, i);
        PairMatches(m, count, 0, i, a, b);
      }
    } else {
      var j, i :| 0 <= j < passes && 0 <= i < count && !Agree(m, count, j, i);
      var a, b := StepsOfPair(m, count, i);
      PairMatches(m, count, j, i, a, b);
    }
  }

  /** So two neighbours in one cell that no other word shares are found by one pass. */
  lemma NeighboursAreFound(m: Wiring, count: nat, passes: nat, i: nat)
    requires |m.cellOf| == |m.faults| == 2 * count && passes >= 1 && i + 1 < count
    requires forall w :: 0 <= w < 2 * count ==> ReadsTrue(m, w)
    requires m.cellOf[i] == m.cellOf[i + 1] && OwnCell(m, count + i)
    requires forall w :: 0 <= w < 2 * count && w != i && w != i + 1 ==> m.cellOf[w] != m.cellOf[i]
    ensures !AgreesThroughout(m, count, passes)
  {
    hide AgreesThroughout, ReadsTrue;
    SharedCellsVerdict(m, count, passes);
    assert LastStep(m, count, i, i + 1) by { assert StepWrites(m, count, i, i + 1); }
    assert LastStep(m, count, count + i, i) by { assert StepWrites(m, count, count + i, i); }
    assert StepsOf(m, count, i, i + 1, i);
  }

  /** How many passes there are: at least two for any dividend up to 5, but none at all from 9
      on, and then the comparison says 0 of any memory; the address test has two up to 8. */
  lemma PassesOf(d: nat)
    requires d > 0
    ensures SolidPasses(d) >= 2 <==> d <= 5
    ensures SolidPasses(d) == 0 <==> d >= 9
    ensures 16 / d >= 2 <==> d <= 8
  {
    if d >= 9 {
      ManyPasses(d);
    } else if d >= 6 {
      assert d == 6 || d == 7 || d == 8;
    } else {
      assert d == 1 || d == 2 || d == 3 || d == 4 || d == 5;
    }
  }

  lemma ManyPasses(d: nat)
    requires d >= 9
    ensures SolidPasses(d) == 0 && 16 / d <= 1
  {
    QuotientBound(64, d, 7);
    QuotientBound(16, d, 1);
    SmallQuotient(64 / d, d);
  }

  lemma SmallQuotient(q: nat, d: nat)
    requires q < d
    ensures q / d == 0
  {
  }

  lemma QuotientBound(n: nat, d: nat, most: nat)
    requires d >= 9 && n < (most + 1) * 9
    ensures n / d <= most
  {
    var q := n / d;
    Quotient(n, d);
    if q > most {
      ProductGrows(most + 1, q, 9);
      ProductGrows(9, d, q);
      assert false;
    }
  }

  lemma Quotient(n: nat, d: nat)
    requires d > 0
    ensures n / d * d <= n
  {
  }
}

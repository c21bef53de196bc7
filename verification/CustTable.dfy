/** The loader.kip editor: a table of settings behind a magic number in a file, read into numbers,
    checked, and written back in place. */
module CustTable {
  import opened Basics

  const MAGIC: nat := 0x54535543
  const CUST_REV_ADV: nat := 11

  // The value of an input field: a number, or something that is none.
  datatype Number = NaN | Num(value: real)

  datatype Spec = Spec(size: nat, min: int, max: int, step: int, zeroable: bool)

  // offset is 0 until the table has been parsed.
  datatype Entry = Entry(spec: Spec, value: Number, offset: nat)

  function Pow256(k: nat): (p: nat)
    ensures p >= 1
  {
    if k == 0 then 1 else 256 * Pow256(k - 1)
  }

  // The tables hold two- and four-byte entries whose ranges fit them.
  predicate IsSpec(s: Spec) {
    && (s.size == 2 || s.size == 4) && s.step >= 1
    && 0 <= s.min && s.max < Pow256(s.size)
  }

  // x % step == 0 for a number that is not negative.
  predicate IsMultiple(x: real, step: int)
    requires step >= 1
  {
    x == (x / step as real).Floor as real * step as real
  }

  predicate Validates(s: Spec, n: Number)
    requires s.step >= 1
  {
    && n.Num?
    && ((s.zeroable && n.value == 0.0)
        || (s.min as real <= n.value <= s.max as real && IsMultiple(n.value, s.step)))
  }

  /** What passes the check: 0 where it is allowed, or a multiple of the step within the bounds. */
  lemma ValidatesIff(s: Spec, n: Number)
    requires IsSpec(s)
    ensures Validates(s, n) <==>
              n.Num? && ((s.zeroable && n.value == 0.0)
                         || exists k: int :: n.value == (k * s.step) as real && s.min <= k * s.step <= s.max)
  {
    hide Pow256;
    if n.Num? && s.min as real <= n.value <= s.max as real {
      var f := (n.value / s.step as real).Floor;
      if IsMultiple(n.value, s.step) { assert n.value == (f * s.step) as real; }
      if k: int :| n.value == (k * s.step) as real && s.min <= k * s.step <= s.max { FloorOfMultiple(k, s.step); }
    }
  }

  lemma FloorOfMultiple(k: int, step: int)
    requires step >= 1
    ensures (((k * step) as real) / step as real).Floor == k
  {
    assert (k * step) as real == k as real * step as real;
    assert (k as real * step as real) / step as real == k as real;
  }

  /** What passes the check is a whole number that fits the entry. */
  lemma ValidIsWhole(s: Spec, n: Number)
    requires IsSpec(s) && Validates(s, n)
    ensures n.value == n.value.Floor as real && 0 <= n.value.Floor < Pow256(s.size)
  {
    hide Pow256;
    PowPositive(s.size);
    if !(s.zeroable && n.value == 0.0) {
      var k := (n.value / s.step as real).Floor;
      assert n.value == (k * s.step) as real;
    }
  }

  lemma PowPositive(k: nat)
    ensures Pow256(k) >= 1
  {
  }

  // ----- bytes ---------------------------------------------------------------------------------

  // A little-endian number of `size` bytes.
  function Get(data: seq<byte>, offset: nat, size: nat): nat
    requires offset + size <= |data|
    decreases size
  {
    if size == 0 then 0
    else var low: int := data[offset]; low + 256 * Get(data, offset + 1, size - 1)
  }

  function Put(data: seq<byte>, offset: nat, size: nat, v: nat): (r: seq<byte>)
    requires offset + size <= |data|
    ensures |r| == |data|
    ensures forall i :: 0 <= i < |data| && (i < offset || offset + size <= i) ==> r[i] == data[i]
    decreases size
  {
    if size == 0 then data else Put(data[offset := v % 256], offset + 1, size - 1, v / 256)
  }

  lemma {:induction false} GetSame(a: seq<byte>, b: seq<byte>, offset: nat, size: nat)
    requires offset + size <= |a| == |b|
    requires forall i :: offset <= i < offset + size ==> a[i] == b[i]
    ensures Get(a, offset, size) == Get(b, offset, size)
    decreases size
  {
    if size > 0 { GetSame(a, b, offset + 1, size - 1); }
  }

  function ByteAt(data: seq<byte>, o: nat): int
    requires o < |data|
  {
    data[o]
  }

  /** The lowest byte comes first, in what is read and in what is written. */
  lemma LittleEndian(data: seq<byte>, o: nat, v: nat)
    ensures o + 2 <= |data| ==> Get(data, o, 2) == ByteAt(data, o) + 0x100 * ByteAt(data, o + 1)
    ensures o + 4 <= |data| ==>
              Get(data, o, 4) == ByteAt(data, o) + 0x100 * ByteAt(data, o + 1) + 0x1_0000 * ByteAt(data, o + 2)
                                 + 0x100_0000 * ByteAt(data, o + 3)
    ensures o + 2 <= |data| ==> Put(data, o, 2, v)[o..o + 2] == [v % 0x100, v / 0x100 % 0x100]
    ensures o + 4 <= |data| ==>
              Put(data, o, 4, v)[o..o + 4]
                == [v % 0x100, v / 0x100 % 0x100, v / 0x1_0000 % 0x100, v / 0x100_0000 % 0x100]
  {
    if o + 2 <= |data| { LittleEndianTwo(data, o, v); }
    if o + 4 <= |data| {
      LittleEndianTwo(data, o + 2, v);
      GetStep(data, o, 4);
      GetStep(data, o + 1, 3);
      PutStep(data, o, 4, v);
      var one := data[o := v % 256];
      PutStep(one, o + 1, 3, v / 256);
      var two := one[o + 1 := v / 256 % 256];
      LittleEndianTwo(two, o + 2, v / 256 / 256);
      assert v / 256 / 256 == v / 0x1_0000 && v / 0x1_0000 / 0x100 == v / 0x100_0000;
      hide Put;
      var r := Put(two, o + 2, 2, v / 256 / 256);
      assert r[o..o + 4] == [r[o], r[o + 1]] + r[o + 2..o + 4];
    }
  }

  lemma GetStep(data: seq<byte>, o: nat, size: nat)
    requires o + size <= |data| && size > 0
    ensures Get(data, o, size) == ByteAt(data, o) + 256 * Get(data, o + 1, size - 1)
  {
  }

  lemma PutStep(data: seq<byte>, o: nat, size: nat, v: nat)
    requires o + size <= |data| && size > 0
    ensures Put(data, o, size, v) == Put(data[o := v % 256], o + 1, size - 1, v / 256)
  {
  }

  lemma LittleEndianTwo(data: seq<byte>, o: nat, v: nat)
    requires o + 2 <= |data|
    ensures Get(data, o, 2) == ByteAt(data, o) + 0x100 * ByteAt(data, o + 1)
    ensures Put(data, o, 2, v)[o..o + 2] == [v % 0x100, v / 0x100 % 0x100]
  {
    GetStep(data, o, 2);
    GetStep(data, o + 1, 1);
    PutStep(data, o, 2, v);
    PutStep(data[o := v % 256], o + 1, 1, v / 256);
  }

  // What is written is read back.
  lemma {:induction false} GetPut(data: seq<byte>, offset: nat, size: nat, v: nat)
    requires offset + size <= |data| && v < Pow256(size)
    ensures Get(Put(data, offset, size, v), offset, size) == v
    decreases size
  {
    if size > 0 { GetPut(data[offset := v % 256], offset + 1, size - 1, v / 256); }
  }

  // Writing what is there changes nothing.
  lemma {:induction false} PutGet(data: seq<byte>, offset: nat, size: nat)
    requires offset + size <= |data|
    ensures Put(data, offset, size, Get(data, offset, size)) == data
    decreases size
  {
    if size > 0 {
      var low: int := data[offset];
      var high := Get(data, offset + 1, size - 1);
      assert (low + 256 * high) % 256 == low && (low + 256 * high) / 256 == high;
      assert data[offset := low] == data;
      PutGet(data, offset + 1, size - 1);
    }
  }

  // ----- the file -------------------------------------------------------------------------------

  // The first multiple of four from o on with the magic; |data| when the search runs out.
  function MagicFrom(data: seq<byte>, o: nat): (m: nat)
    ensures m < |data| ==> m + 4 <= |data| && Get(data, m, 4) == MAGIC && m % 4 == o % 4 && m >= o
    ensures m <= |data|
    decreases |data| - o
  {
    if o + 4 > |data| then |data|
    else if Get(data, o, 4) == MAGIC then o
    else MagicFrom(data, o + 4)
  }

  lemma {:induction false} NoMagicBefore(data: seq<byte>, o: nat, k: nat)
    requires o <= k < MagicFrom(data, o) && k + 4 <= |data| && (k - o) % 4 == 0
    ensures Get(data, k, 4) != MAGIC
    decreases |data| - o
  {
    hide Get;
    if k > o { NoMagicBefore(data, o + 4, k); }
  }

  // The file says CUST there.
  predicate SaysCust(data: seq<byte>, o: nat) {
    o + 4 <= |data| && data[o] == 'C' as int && data[o + 1] == 'U' as int && data[o + 2] == 'S' as int
    && data[o + 3] == 'T' as int
  }

  lemma MagicSpells(data: seq<byte>, o: nat)
    requires o + 4 <= |data|
    ensures Get(data, o, 4) == MAGIC <==> SaysCust(data, o)
  {
    LittleEndian(data, o, 0);
  }

  /** The table is where the file says CUST for the first time at a multiple of four, and nowhere if it
      does not. */
  lemma MagicIsFirst(data: seq<byte>)
    ensures MagicFrom(data, 0) < |data| ==> SaysCust(data, MagicFrom(data, 0)) && MagicFrom(data, 0) % 4 == 0
    ensures forall o :: 0 <= o < MagicFrom(data, 0) && o % 4 == 0 ==> !SaysCust(data, o)
  {
    hide MagicFrom, Get, SaysCust;
    var first := MagicFrom(data, 0);
    if first < |data| { MagicSpells(data, first); }
    forall o | 0 <= o < first && o % 4 == 0 ensures !SaysCust(data, o) {
      if o + 4 <= |data| {
        NoMagicBefore(data, 0, o);
        MagicSpells(data, o);
      } else {
        NoRoomForCust(data, o);
      }
    }
  }

  lemma NoRoomForCust(data: seq<byte>, o: nat)
    requires o + 4 > |data|
    ensures !SaysCust(data, o)
  {
  }

  function Sizes(specs: seq<Spec>): nat {
    if specs == [] then 0 else Sizes(specs[..|specs| - 1]) + specs[|specs| - 1].size
  }

  // Where the k-th entry is in a table that starts at begin.
  function OffsetOf(specs: seq<Spec>, begin: nat, k: nat): nat
    requires k <= |specs|
  {
    begin + 8 + Sizes(specs[..k])
  }

  lemma OffsetStep(specs: seq<Spec>, begin: nat, k: nat)
    requires k < |specs|
    ensures OffsetOf(specs, begin, k + 1) == OffsetOf(specs, begin, k) + specs[k].size
  {
    assert specs[..k + 1][..k] == specs[..k];
  }

  /** The entries follow one another without gaps, the first one right behind the four bytes of the magic
      and the four of the revision. */
  lemma OffsetsArePacked(specs: seq<Spec>, begin: nat, k: nat)
    requires k < |specs|
    ensures OffsetOf(specs, begin, 0) == begin + 4 + 4
    ensures OffsetOf(specs, begin, k + 1) == OffsetOf(specs, begin, k) + specs[k].size
  {
    OffsetStep(specs, begin, k);
  }

  lemma {:induction false} OffsetsGrow(specs: seq<Spec>, begin: nat, j: nat, k: nat)
    requires j <= k <= |specs|
    ensures OffsetOf(specs, begin, j) <= OffsetOf(specs, begin, k)
    decreases k - j
  {
    if j < k {
      OffsetsGrow(specs, begin, j, k - 1);
      OffsetStep(specs, begin, k - 1);
    }
  }

  /** The entries do not overlap each other, nor the magic and the revision. */
  lemma OffsetsAreDisjoint(specs: seq<Spec>, begin: nat, j: nat, k: nat)
    requires j < k < |specs|
    ensures begin + 8 <= OffsetOf(specs, begin, j)
    ensures OffsetOf(specs, begin, j) + specs[j].size <= OffsetOf(specs, begin, k)
  {
    OffsetStep(specs, begin, j);
    OffsetsGrow(specs, begin, j + 1, k);
    OffsetsGrow(specs, begin, 0, j);
  }

  // A file with a table of this revision in it.
  predicate IsFile(data: seq<byte>, specs: seq<Spec>) {
    var begin := MagicFrom(data, 0);
    && begin < |data|
    && OffsetOf(specs, begin, |specs|) <= |data|
    && Get(data, begin + 4, 4) == CUST_REV_ADV
  }

  function ValueAt(data: seq<byte>, specs: seq<Spec>, k: nat): nat
    requires k < |specs| && OffsetOf(specs, MagicFrom(data, 0), k) + specs[k].size <= |data|
  {
    Get(data, OffsetOf(specs, MagicFrom(data, 0), k), specs[k].size)
  }

  // The file after the first k entries are written.
  function Written(data: seq<byte>, specs: seq<Spec>, begin: nat, values: seq<nat>, k: nat): (r: seq<byte>)
    requires k <= |specs| == |values| && (k > 0 ==> OffsetOf(specs, begin, k) <= |data|)
    ensures |r| == |data|
    decreases k
  {
    if k == 0 then data
    else
      OffsetStep(specs, begin, k - 1);
      Put(Written(data, specs, begin, values, k - 1), OffsetOf(specs, begin, k - 1), specs[k - 1].size, values[k - 1])
  }

  /** Only the bytes of the table change. */
  lemma {:induction false} WrittenFrame(data: seq<byte>, specs: seq<Spec>, begin: nat, values: seq<nat>, k: nat, i: nat)
    requires k <= |specs| == |values| && OffsetOf(specs, begin, k) <= |data| && i < |data|
    requires i < begin + 8 || OffsetOf(specs, begin, k) <= i
    ensures Written(data, specs, begin, values, k)[i] == data[i]
    decreases k
  {
    if k > 0 {
      OffsetStep(specs, begin, k - 1);
      OffsetsGrow(specs, begin, 0, k - 1);
      WrittenFrame(data, specs, begin, values, k - 1, i);
    }
  }

  lemma {:induction false} WrittenIsRead(data: seq<byte>, specs: seq<Spec>, begin: nat, values: seq<nat>, k: nat,
      j: nat)
    requires j < k <= |specs| == |values| && OffsetOf(specs, begin, k) <= |data|
    requires values[j] < Pow256(specs[j].size)
    ensures OffsetOf(specs, begin, j) + specs[j].size <= |data|
    ensures Get(Written(data, specs, begin, values, k), OffsetOf(specs, begin, j), specs[j].size) == values[j]
    decreases k
  {
    hide Pow256, Get, Put, OffsetOf;
    OffsetStep(specs, begin, k - 1);
    var before := Written(data, specs, begin, values, k - 1);
    if j == k - 1 {
      GetPut(before, OffsetOf(specs, begin, j), specs[j].size, values[j]);
    } else {
      WrittenIsRead(data, specs, begin, values, k - 1, j);
      OffsetsAreDisjoint(specs, begin, j, k - 1);
      GetSame(before, Written(data, specs, begin, values, k), OffsetOf(specs, begin, j), specs[j].size);
    }
  }

  // Up to the magic and the revision the file is as it was, so the table is found where it was.
  lemma {:induction false} SameMagic(a: seq<byte>, b: seq<byte>, o: nat)
    requires |a| == |b| && MagicFrom(a, o) < |a|
    requires forall i :: 0 <= i < MagicFrom(a, o) + 4 ==> a[i] == b[i]
    ensures MagicFrom(b, o) == MagicFrom(a, o)
    decreases |a| - o
  {
    hide Get;
    GetSame(a, b, o, 4);
    if Get(a, o, 4) != MAGIC { SameMagic(a, b, o + 4); }
  }

  /** A file whose table was overwritten with values that fit has its table in the same place,
      reads back those values, and is unchanged outside the table. */
  lemma WrittenReadsBack(data: seq<byte>, specs: seq<Spec>, values: seq<nat>)
    requires IsFile(data, specs) && |values| == |specs|
    requires forall k :: 0 <= k < |specs| ==> values[k] < Pow256(specs[k].size)
    ensures var begin := MagicFrom(data, 0);
            var after := Written(data, specs, begin, values, |specs|);
            && IsFile(after, specs) && MagicFrom(after, 0) == begin
            && (forall k :: 0 <= k < |specs| ==>
                  OffsetOf(specs, begin, k) + specs[k].size <= |after| && ValueAt(after, specs, k) == values[k])
            && (forall i :: 0 <= i < |data| && (i < begin + 8 || OffsetOf(specs, begin, |specs|) <= i) ==>
                after[i] == data[i])
  {
    hide Get, Pow256, OffsetOf, Written;
    var begin := MagicFrom(data, 0);
    OffsetStart(specs, begin);
    var after := Written(data, specs, begin, values, |specs|);
    forall i: nat | i < |data| && (i < begin + 8 || OffsetOf(specs, begin, |specs|) <= i) ensures after[i] == data[i] {
      WrittenFrame(data, specs, begin, values, |specs|, i);
    }
    SameMagic(data, after, 0);
    GetSame(data, after, begin + 4, 4);
    forall k: nat | k < |specs|
      ensures OffsetOf(specs, begin, k) + specs[k].size <= |after| && ValueAt(after, specs, k) == values[k]
    {
      WrittenIsRead(data, specs, begin, values, |specs|, k);
    }
  }

  lemma OffsetStart(specs: seq<Spec>, begin: nat)
    ensures begin + 8 <= OffsetOf(specs, begin, |specs|)
  {
  }

  /** Writing the values that were read changes nothing. */
  lemma {:induction false} WritingBackIsIdentity(data: seq<byte>, specs: seq<Spec>, values: seq<nat>, k: nat)
    requires IsFile(data, specs) && |values| == |specs| && k <= |specs|
    requires OffsetOf(specs, MagicFrom(data, 0), k) <= |data|
    requires forall j :: 0 <= j < |specs| ==>
               OffsetOf(specs, MagicFrom(data, 0), j) + specs[j].size <= |data| && values[j] == ValueAt(data, specs, j)
    ensures Written(data, specs, MagicFrom(data, 0), values, k) == data
    decreases k
  {
    hide Get, Put, IsFile, OffsetOf, MagicFrom;
    if k > 0 {
      OffsetStep(specs, MagicFrom(data, 0), k - 1);
      WritingBackIsIdentity(data, specs, values, k - 1);
      PutGet(data, OffsetOf(specs, MagicFrom(data, 0), k - 1), specs[k - 1].size);
    }
  }

  // ----- the editor ------------------------------------------------------------------------------

  // The k-th entry is as it was read from the data.
  ghost predicate IsRead(e: Entry, data: seq<byte>, specs: seq<Spec>, k: nat)
    requires k < |specs|
  {
    && e.offset == OffsetOf(specs, MagicFrom(data, 0), k)
    && e.offset + specs[k].size <= |data|
    && e.value == Num(ValueAt(data, specs, k) as real)
  }

  // The whole numbers in the input fields.
  function Whole(n: Number): nat
    requires n.Num? && n.value >= 0.0
  {
    n.value.Floor
  }

  predicate AreSpecs(specs: seq<Spec>) {
    forall k :: 0 <= k < |specs| ==> IsSpec(specs[k])
  }

  predicate AllValid(specs: seq<Spec>, inputs: seq<Number>)
    requires AreSpecs(specs) && |inputs| == |specs|
  {
    forall k :: 0 <= k < |specs| ==> Validates(specs[k], inputs[k])
  }

  function Wholes(specs: seq<Spec>, inputs: seq<Number>): (r: seq<nat>)
    requires AreSpecs(specs) && |inputs| == |specs| && AllValid(specs, inputs)
    ensures |r| == |inputs|
  {
    WholesFit(specs, inputs);
    seq(|inputs|, k requires 0 <= k < |inputs| => Whole(inputs[k]))
  }

  lemma WholesFit(specs: seq<Spec>, inputs: seq<Number>)
    requires AreSpecs(specs) && |inputs| == |specs| && AllValid(specs, inputs)
    ensures forall k :: 0 <= k < |specs| ==>
              && inputs[k].Num? && inputs[k].value >= 0.0 && Whole(inputs[k]) < Pow256(specs[k].size)
              && Whole(inputs[k]) as real == inputs[k].value
  {
    hide Pow256, IsMultiple;
    forall k | 0 <= k < |specs|
      ensures inputs[k].Num? && inputs[k].value >= 0.0 && Whole(inputs[k]) < Pow256(specs[k].size)
              && Whole(inputs[k]) as real == inputs[k].value
    {
      ValidIsWhole(specs[k], inputs[k]);
    }
  }

  class Cust {
    const specs: seq<Spec>
    var buffer: array<byte>
    var beginOffset: nat
    var rev: nat
    var table: seq<Entry>
    // The input fields are on the page.
    var form: bool

    // While the fields are there, the entries have the offsets of the table they were made for.
    ghost predicate Valid()
      reads this
    {
      && AreSpecs(specs) && |table| == |specs|
      && (forall k :: 0 <= k < |specs| ==> table[k].spec == specs[k])
      && (form ==> forall k :: 0 <= k < |specs| ==> table[k].offset == OffsetOf(specs, beginOffset, k))
    }

    // The buffer holds that table.
    ghost predicate Loaded()
      reads this, buffer
    {
      Valid() && form && IsFile(buffer[..], specs) && beginOffset == MagicFrom(buffer[..], 0)
    }

    constructor (specs: seq<Spec>, buffer: array<byte>)
      requires AreSpecs(specs)
      ensures Valid() && this.specs == specs && this.buffer == buffer && !form
    {
      this.specs, this.buffer := specs, buffer;
      beginOffset, rev, form := 0, 0, false;
      table := seq(|specs|, k requires 0 <= k < |specs| => Entry(specs[k], NaN, 0));
    }

    // view.getUint16 and view.getUint32, little-endian; a position outside throws.
    method GetNumber(offset: nat, size: nat) returns (ok: bool, v: nat)
      ensures ok <==> offset + size <= buffer.Length
      ensures ok ==> v == Get(buffer[..], offset, size)
    {
      if offset + size > buffer.Length { return false, 0; }
      ok, v := true, Get(buffer[offset..offset + size], 0, size);
      GetSlice(buffer[..], offset, size, 0);
      assert buffer[..][offset..offset + size] == buffer[offset..offset + size];
    }

    method SetNumber(offset: nat, size: nat, v: nat)
      requires offset + size <= buffer.Length
      modifies buffer
      ensures buffer[..] == Put(old(buffer[..]), offset, size, v)
    {
      var rest, i := v, 0;
      while i < size
        invariant i <= size
        invariant Put(buffer[..], offset + i, size - i, rest) == Put(old(buffer[..]), offset, size, v)
      {
        ghost var before := buffer[..];
        buffer[offset + i] := rest % 256;
        assert buffer[..] == before[offset + i := rest % 256];
        rest, i := rest / 256, i + 1;
      }
    }

    // An error is thrown when there is no magic, or when the last read is cut short.
    method FindMagicOffset() returns (ok: bool)
      modifies this`beginOffset
      ensures ok <==> MagicFrom(buffer[..], 0) < buffer.Length
      ensures beginOffset == if ok then MagicFrom(buffer[..], 0) else old(beginOffset)
    {
      var offset := 0;
      while offset < buffer.Length
        invariant MagicFrom(buffer[..], offset) == MagicFrom(buffer[..], 0) && beginOffset == old(beginOffset)
        decreases buffer.Length - offset
      {
        var read, v := GetNumber(offset, 4);
        if !read { return false; }
        if v == MAGIC {
          beginOffset := offset;
          return true;
        }
        offset := offset + 4;
      }
      ok := false;
    }

    /** parse: the entries behind the magic and the revision, one after the other. */
    method Parse() returns (ok: bool)
      requires Valid() && !form && beginOffset == MagicFrom(buffer[..], 0) < buffer.Length
      modifies this`rev, this`table
      ensures Valid() && (ok <==> IsFile(buffer[..], specs))
      ensures ok ==> rev == CUST_REV_ADV
      ensures ok ==> forall k :: 0 <= k < |specs| ==>
                OffsetOf(specs, beginOffset, k) + specs[k].size <= buffer.Length
                && table[k].offset == OffsetOf(specs, beginOffset, k)
                && table[k].value == Num(ValueAt(buffer[..], specs, k) as real)
    {
      hide Get, Pow256, Sizes, MagicFrom;
      ghost var data := buffer[..];
      OffsetStart(specs, beginOffset);
      var offset := beginOffset + 4;
      var read, revision := GetNumber(offset, 4);
      if !read { return false; }
      rev := revision;
      if rev != CUST_REV_ADV { return false; }
      offset := offset + 4;
      StartOfTable(specs, beginOffset);
      var i := 0;
      while i < |specs|
        invariant i <= |specs| && Valid() && rev == CUST_REV_ADV
        invariant beginOffset == MagicFrom(buffer[..], 0) < buffer.Length
        invariant offset == OffsetOf(specs, beginOffset, i) <= buffer.Length
        invariant buffer[..] == data && forall k :: 0 <= k < i ==> IsRead(table[k], data, specs, k)
      {
        OffsetStep(specs, beginOffset, i);
        OffsetsGrow(specs, beginOffset, i + 1, |specs|);
        var v;
        table := table[i := table[i].(offset := offset)];
        read, v := GetNumber(offset, specs[i].size);
        if !read { return false; }
        table := table[i := table[i].(value := Num(v as real))];
        assert IsRead(table[i], data, specs, i);
        offset := offset + specs[i].size;
        i := i + 1;
      }
      assert forall k :: 0 <= k < |specs| ==> IsRead(table[k], data, specs, k);
      ok := true;
    }

    /** load: the fields are replaced when the file has the magic, and stay as they are, for the table
        that was loaded before, when it has not. */
    method Load(file: array<byte>) returns (ok: bool)
      requires Valid()
      modifies this
      ensures Valid() && buffer == file && (ok <==> IsFile(file[..], specs))
      ensures ok ==> Loaded() && rev == CUST_REV_ADV && forall k :: 0 <= k < |specs| ==>
                OffsetOf(specs, beginOffset, k) + specs[k].size <= buffer.Length
                && table[k].value == Num(ValueAt(buffer[..], specs, k) as real)
      ensures MagicFrom(file[..], 0) == file.Length ==>
                !ok && form == old(form) && table == old(table) && beginOffset == old(beginOffset)
      ensures MagicFrom(file[..], 0) < file.Length && !ok ==> !form
    {
      hide Get, Pow256, Sizes, MagicFrom;
      buffer := file;
      ok := FindMagicOffset();
      if !ok { return; }
      form := false;
      ok := Parse();
      form := ok;
    }

    // storage.updateFromTable: take over the inputs up to the first that is not valid.
    method UpdateFromInputs(inputs: seq<Number>) returns (ok: bool)
      requires Valid() && |inputs| == |specs|
      modifies this`table
      ensures Valid() && (ok <==> AllValid(specs, inputs))
      ensures forall k :: 0 <= k < |specs| ==> table[k].offset == old(table[k].offset)
      ensures ok ==> forall k :: 0 <= k < |specs| ==> table[k].value == inputs[k]
    {
      hide IsSpec, IsMultiple;
      var i := 0;
      while i < |specs|
        invariant i <= |specs| && Valid()
        invariant forall k :: 0 <= k < |specs| ==> table[k].offset == old(table[k].offset)
        invariant forall k :: 0 <= k < i ==> table[k].value == inputs[k] && StepOk(k) && Validates(specs[k], inputs[k])
      {
        StepIsOk(i);
        table := table[i := table[i].(value := inputs[i])];
        if !Validates(specs[i], table[i].value) { return false; }
        i := i + 1;
      }
      ok := true;
    }

    ghost predicate StepOk(k: nat)
      requires k < |specs|
    {
      specs[k].step >= 1
    }

    lemma StepIsOk(k: nat)
      requires AreSpecs(specs) && k < |specs|
      ensures StepOk(k)
    {
    }

    /** save: nothing is written unless every input is valid; then every entry is, up to the first
        for which the buffer is too short.  After a load that found no magic that is a buffer that
        the entries' offsets were not made for. */
    method Save(inputs: seq<Number>) returns (ok: bool)
      requires Valid() && |inputs| == |specs|
      modifies this`table, buffer
      ensures Valid() && form == old(form) && (old(Loaded()) ==> Loaded())
      ensures !form || !AllValid(specs, inputs) ==> (ok ==> specs == []) && buffer[..] == old(buffer[..])
      ensures form && AllValid(specs, inputs) ==>
                var n := Fitting(specs, beginOffset, buffer.Length, 0);
                && (ok <==> n == |specs|)
                && buffer[..] == Written(old(buffer[..]), specs, beginOffset, Wholes(specs, inputs), n)
                && forall k :: 0 <= k < |specs| ==> table[k].value == inputs[k]
      ensures old(Loaded()) ==> (ok <==> AllValid(specs, inputs))
    {
      hide Get, Put, Pow256, Sizes, MagicFrom, Written, AllValid, IsSpec, OffsetOf;
      // A field that is gone is not a number.
      ok := UpdateFromInputs(if form then inputs else seq(|specs|, _ => NaN));
      if !form { NoNumber(specs); }
      if !ok || !form { return; }
      ghost var data := buffer[..];
      ok := WriteTable(inputs);
      if old(Loaded()) {
        WholesFit(specs, inputs);
        WrittenReadsBack(data, specs, Wholes(specs, inputs));
        AllFit(specs, beginOffset, buffer.Length, 0);
      }
    }

    method WriteTable(inputs: seq<Number>) returns (ok: bool)
      requires Valid() && form && |inputs| == |specs| && AllValid(specs, inputs)
      requires forall k :: 0 <= k < |specs| ==> table[k].value == inputs[k]
      modifies buffer
      ensures var n := Fitting(specs, beginOffset, buffer.Length, 0);
              && (ok <==> n == |specs|)
              && buffer[..] == Written(old(buffer[..]), specs, beginOffset, Wholes(specs, inputs), n)
    {
      hide Get, Put, Pow256, Sizes, MagicFrom, AllValid, IsSpec;
      ghost var data, values := buffer[..], Wholes(specs, inputs);
      OffsetsGrow(specs, beginOffset, 0, |specs|);
      WholesFit(specs, inputs);
      var i := 0;
      while i < |specs|
        invariant i <= |specs| && (i > 0 ==> OffsetOf(specs, beginOffset, i) <= |data|)
        invariant buffer[..] == Written(data, specs, beginOffset, values, i)
        invariant Fitting(specs, beginOffset, buffer.Length, i) == Fitting(specs, beginOffset, buffer.Length, 0)
      {
        OffsetStep(specs, beginOffset, i);
        // The offset is not zero; DataView throws when the number does not fit.
        if table[i].offset + specs[i].size > buffer.Length { return false; }
        SetNumber(table[i].offset, specs[i].size, Whole(table[i].value));
        i := i + 1;
      }
      ok := true;
    }
  }

  // How many of the entries from the k-th on fit the buffer, one after the other, and those before.
  function Fitting(specs: seq<Spec>, begin: nat, length: nat, k: nat): (n: nat)
    requires k <= |specs| && (k > 0 ==> OffsetOf(specs, begin, k) <= length)
    ensures k <= n <= |specs| && (n > 0 ==> OffsetOf(specs, begin, n) <= length)
    ensures n < |specs| ==> OffsetOf(specs, begin, n + 1) > length
    decreases |specs| - k
  {
    if k == |specs| || OffsetOf(specs, begin, k + 1) > length then k else Fitting(specs, begin, length, k + 1)
  }

  lemma {:induction false} AllFit(specs: seq<Spec>, begin: nat, length: nat, k: nat)
    requires k <= |specs| && OffsetOf(specs, begin, |specs|) <= length
              && (k > 0 ==> OffsetOf(specs, begin, k) <= length)
    ensures Fitting(specs, begin, length, k) == |specs|
    decreases |specs| - k
  {
    hide OffsetOf;
    if k < |specs| {
      OffsetsGrow(specs, begin, k + 1, |specs|);
      AllFit(specs, begin, length, k + 1);
    }
  }

  lemma NoNumber(specs: seq<Spec>)
    requires AreSpecs(specs)
    ensures AllValid(specs, seq(|specs|, _ => NaN)) ==> specs == []
  {
    if specs != [] { assert !Validates(specs[0], NaN); }
  }

  lemma StartOfTable(specs: seq<Spec>, begin: nat)
    ensures OffsetOf(specs, begin, 0) == begin + 8
  {
  }

  lemma {:induction false} GetSlice(data: seq<byte>, offset: nat, size: nat, k: nat)
    requires offset + size <= |data| && k <= size
    ensures Get(data[offset..offset + size], k, size - k) == Get(data, offset + k, size - k)
    decreases size - k
  {
    if k < size { GetSlice(data, offset, size, k + 1); }
  }

  // The inputs that parse puts into the fields.
  function Shown(data: seq<byte>, specs: seq<Spec>): (r: seq<Number>)
    requires IsFile(data, specs)
    ensures |r| == |specs|
  {
    AllInside(data, specs);
    seq(|specs|, k requires 0 <= k < |specs| => Num(ValueAt(data, specs, k) as real))
  }

  lemma AllInside(data: seq<byte>, specs: seq<Spec>)
    requires IsFile(data, specs)
    ensures forall k :: 0 <= k < |specs| ==> OffsetOf(specs, MagicFrom(data, 0), k) + specs[k].size <= |data|
  {
    hide Get, MagicFrom, OffsetOf;
    forall k | 0 <= k < |specs| ensures OffsetOf(specs, MagicFrom(data, 0), k) + specs[k].size <= |data| {
      OffsetStep(specs, MagicFrom(data, 0), k);
      OffsetsGrow(specs, MagicFrom(data, 0), k + 1, |specs|);
    }
  }

  /** What a save leaves in the file is what a later load shows. */
  lemma SaveThenLoad(data: seq<byte>, specs: seq<Spec>, inputs: seq<Number>)
    requires IsFile(data, specs) && AreSpecs(specs) && |inputs| == |specs| && AllValid(specs, inputs)
    ensures var after := Written(data, specs, MagicFrom(data, 0), Wholes(specs, inputs), |specs|);
            IsFile(after, specs) && Shown(after, specs) == inputs
  {
    hide Get, Put, Pow256, MagicFrom, Written, AllValid, IsSpec, OffsetOf;
    WholesFit(specs, inputs);
    WrittenReadsBack(data, specs, Wholes(specs, inputs));
    var after := Written(data, specs, MagicFrom(data, 0), Wholes(specs, inputs), |specs|);
    AllInside(after, specs);
    forall k | 0 <= k < |specs| ensures Shown(after, specs)[k] == inputs[k] {
    }
  }

  /** What a save leaves in any file, also in one that was loaded in vain and has no table: the
      entries that fit, at the offsets of the table that was loaded last, and all else as it was. */
  lemma SaveIntoAnyFile(data: seq<byte>, specs: seq<Spec>, begin: nat, inputs: seq<Number>)
    requires AreSpecs(specs) && |inputs| == |specs| && AllValid(specs, inputs)
    ensures var n := Fitting(specs, begin, |data|, 0);
            var after := Written(data, specs, begin, Wholes(specs, inputs), n);
            && (forall k :: 0 <= k < n ==>
                  OffsetOf(specs, begin, k) + specs[k].size <= |data|
                  && Num(Get(after, OffsetOf(specs, begin, k), specs[k].size) as real) == inputs[k])
            && (forall i :: 0 <= i < |data| && (n == 0 || i < begin + 8 || OffsetOf(specs, begin, n) <= i) ==>
                  after[i] == data[i])
  {
    hide Get, Put, Pow256, AllValid, IsSpec, OffsetOf;
    var n := Fitting(specs, begin, |data|, 0);
    var values := Wholes(specs, inputs);
    WholesFit(specs, inputs);
    if n > 0 {
      hide Written;
      forall k: nat | k < n
        ensures OffsetOf(specs, begin, k) + specs[k].size <= |data|
                && Get(Written(data, specs, begin, values, n), OffsetOf(specs, begin, k), specs[k].size) == values[k]
      {
        WrittenIsRead(data, specs, begin, values, n, k);
      }
      forall i: nat | i < |data| && (i < begin + 8 || OffsetOf(specs, begin, n) <= i)
        ensures Written(data, specs, begin, values, n)[i] == data[i]
      {
        WrittenFrame(data, specs, begin, values, n, i);
      }
    }
  }

  /** Loading a file with valid values and saving it without an edit leaves it byte for byte. */
  lemma LoadThenSave(data: seq<byte>, specs: seq<Spec>)
    requires IsFile(data, specs) && AreSpecs(specs) && AllValid(specs, Shown(data, specs))
    ensures Written(data, specs, MagicFrom(data, 0), Wholes(specs, Shown(data, specs)), |specs|) == data
  {
    hide Get, Put, Pow256, MagicFrom, Written, AllValid, IsSpec, OffsetOf;
    AllInside(data, specs);
    WritingBackIsIdentity(data, specs, Wholes(specs, Shown(data, specs)), |specs|);
  }
}

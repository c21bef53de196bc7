/** The character arrays in which sys-clk prints the keys and values for ini_putsection: a fixed
    number of slots of one size, and a pointer to the next slot that nothing checks. */
module ConfigSlots {
  import opened Basics
  import opened CText
  import opened IniBuffer

  lemma SlotInside(count: nat, size: nat, k: nat)
    requires size > 0
    ensures k < count ==> k * size + size <= count * size
    ensures k * size + size == (k + 1) * size
  {
    if k < count { ProductGrows(k + 1, count, size); }
  }

  // The first slots hold the texts.
  ghost predicate HoldsAll(chars: array<char>, size: nat, texts: seq<string>)
    reads chars
  {
    forall k :: 0 <= k < |texts| ==> |texts[k]| < size && Holds(chars, k * size, texts[k])
  }

  class Slots {
    const size: nat
    const count: nat
    const chars: array<char>
    var next: nat
    ghost var texts: seq<string>

    ghost predicate Valid()
      reads this, chars
    {
      && size > 0 && chars.Length == count * size
      && |texts| <= count && next == |texts| * size
      && HoldsAll(chars, size, texts)
    }

    constructor (count: nat, size: nat)
      requires size > 0
      ensures Valid() && this.count == count && this.size == size && texts == [] && fresh(chars)
    {
      this.count, this.size := count, size;
      chars := new char[count * size];
      next, texts := 0, [];
    }

    /** snprintf of a text that fits a slot, and on to the next slot.  The text is printed inside the
        array just when there is a slot left; if not, this says so and prints nothing. */
    method Print(s: string) returns (inside: bool)
      requires Valid() && NulFree(s) && |s| < size
      modifies this, chars
      ensures Valid() && (inside <==> old(|texts|) < count)
      ensures texts == if inside then old(texts) + [s] else old(texts)
    {
      SlotInside(count, size, |texts|);
      inside := next + |s| < chars.Length;
      if !inside { return; }
      var i := 0;
      while i < |s|
        invariant i <= |s|
        invariant forall k :: 0 <= k < i ==> chars[next + k] == s[k]
        invariant forall k :: 0 <= k < next ==> chars[k] == old(chars[k])
        modifies chars
      {
        chars[next + i] := s[i];
        i := i + 1;
      }
      chars[next + i] := '\0';
      forall k | 0 <= k < |texts| ensures |texts[k]| < size && Holds(chars, k * size, texts[k]) {
        SlotInside(|texts|, size, k);
        assert old(Holds(chars, k * size, texts[k]));
      }
      next := next + size;
      texts := texts + [s];
    }

    /** The strings that ini_putsection finds at the pointers to the slots used. */
    method Read() returns (r: seq<string>)
      requires Valid()
      ensures r == texts
    {
      r := [];
      var at := 0;
      while at < next
        invariant |r| <= |texts| && at == |r| * size && r == texts[..|r|]
        decreases next - at
      {
        if |r| >= |texts| { ProductGrows(|texts|, |r|, size); }
        SlotInside(|texts|, size, |r|);
        var t := TextAt(chars, at, texts[|r|]);
        r := r + [t];
        at := at + size;
      }
      if |r| < |texts| { SlotInside(|texts|, size, |r|); }
    }
  }
}

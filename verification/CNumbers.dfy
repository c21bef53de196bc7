/** Printing and parsing of integers as the C library does it: "%d", "%ld", "%016lX" and
    strtoul with 64-bit unsigned long. */
module CNumbers {
  import opened CText

  const TWO_32: nat := 0x1_0000_0000
  const TWO_64: nat := 0x1_0000_0000_0000_0000

  // ----- strtoul --------------------------------------------------------------------------

  // The value of a digit in a base above 10, or 36 for any other character.
  function DigitValue(c: char): nat {
    if '0' <= c <= '9' then c as int - '0' as int
    else if 'A' <= c <= 'Z' then c as int - 'A' as int + 10
    else if 'a' <= c <= 'z' then c as int - 'a' as int + 10
    else 36
  }

  predicate Space(c: char) {
    c == ' ' || '\t' <= c <= '\r'
  }

  function AfterSpaces(s: string): string {
    if s != "" && Space(s[0]) then AfterSpaces(s[1..]) else s
  }

  function DigitsValue(s: string, base: nat, acc: nat): nat {
    if s == "" || DigitValue(s[0]) >= base then acc
    else DigitsValue(s[1..], base, acc * base + DigitValue(s[0]))
  }

  predicate HasHexPrefix(s: string) {
    |s| > 2 && s[0] == '0' && (s[1] == 'x' || s[1] == 'X') && DigitValue(s[2]) < 16
  }

  // The number at the start of s, without a sign.
  function Magnitude(s: string, base: nat): nat {
    if (base == 0 || base == 16) && HasHexPrefix(s) then DigitsValue(s[2..], 16, 0)
    else if base == 0 then DigitsValue(s, if s != "" && s[0] == '0' then 8 else 10, 0)
    else DigitsValue(s, base, 0)
  }

  function StrToUL(s: string, base: nat): (n: nat)
    ensures n < TWO_64
  {
    var t := AfterSpaces(s);
    var signed := t != "" && (t[0] == '-' || t[0] == '+');
    var m := Magnitude(if signed then t[1..] else t, base);
    if m >= TWO_64 then TWO_64 - 1
    else if signed && t[0] == '-' && m > 0 then TWO_64 - m
    else m
  }

  // ----- printing -------------------------------------------------------------------------

  function Digit(n: nat): (c: char)
    requires n < 16
    ensures DigitValue(c) == n
    ensures ('0' <= c <= '9') || ('A' <= c <= 'F')
    ensures c == '0' <==> n == 0
  {
    if n < 10 then ('0' as int + n) as char else ('A' as int + n - 10) as char
  }

  function Decimal(n: nat): (s: string)
    ensures s != ""
  {
    if n < 10 then [Digit(n)] else Decimal(n / 10) + [Digit(n % 10)]
  }

  // "%d" of a 32-bit pattern.
  function SignedDecimal32(n: nat): string
    requires n < TWO_32
  {
    if n < TWO_32 / 2 then Decimal(n) else "-" + Decimal(TWO_32 - n)
  }

  // "%ld" of a 64-bit pattern.
  function SignedDecimal64(n: nat): string
    requires n < TWO_64
  {
    if n < TWO_64 / 2 then Decimal(n) else "-" + Decimal(TWO_64 - n)
  }

  // The lowest `width` hexadecimal digits of n, in upper case.
  function Hex(n: nat, width: nat): (s: string)
    ensures |s| == width
  {
    if width == 0 then "" else Hex(n / 16, width - 1) + [Digit(n % 16)]
  }

  // ----- reading what was printed -----------------------------------------------------------

  ghost predicate AllDigits(s: string, base: nat) {
    forall i :: 0 <= i < |s| ==> DigitValue(s[i]) < base
  }

  lemma {:induction false} DigitsValueLast(s: string, c: char, base: nat, acc: nat)
    requires AllDigits(s, base) && DigitValue(c) < base
    ensures DigitsValue(s + [c], base, acc) == DigitsValue(s, base, acc) * base + DigitValue(c)
    decreases |s|
  {
    if s == "" {
      assert s + [c] == [c] && [c][1..] == "";
    } else {
      assert (s + [c])[1..] == s[1..] + [c] && (s + [c])[0] == s[0];
      DigitsValueLast(s[1..], c, base, acc * base + DigitValue(s[0]));
    }
  }

  lemma {:induction false} DecimalDigits(n: nat)
    ensures forall i :: 0 <= i < |Decimal(n)| ==> '0' <= Decimal(n)[i] <= '9'
    ensures DigitsValue(Decimal(n), 10, 0) == n
    ensures Decimal(n)[0] == '0' <==> n == 0
    ensures AllDigits(Decimal(n), 10)
  {
    if n < 10 {
      DigitsValueLast("", Digit(n), 10, 0);
      assert "" + [Digit(n)] == [Digit(n)];
    } else {
      DecimalDigits(n / 10);
      DigitsValueLast(Decimal(n / 10), Digit(n % 10), 10, 0);
    }
  }

  function Power10(k: nat): nat {
    if k == 0 then 1 else 10 * Power10(k - 1)
  }

  lemma {:induction false} DecimalLength(n: nat, k: nat)
    requires k > 0 && n < Power10(k)
    ensures |Decimal(n)| <= k
    decreases k
  {
    if n >= 10 {
      DecimalLength(n / 10, k - 1);
    }
  }

  lemma DecimalOfZero()
    ensures Decimal(0) == ['0'] && DigitsValue(Decimal(0), 8, 0) == 0
  {
    assert ['0'][1..] == "";
  }

  lemma MagnitudeOfDecimal(n: nat, base: nat)
    requires base == 0 || base == 10
    ensures Magnitude(Decimal(n), base) == n
  {
    DecimalDigits(n);
    DecimalOfZero();
    if base == 0 && n == 0 {
      assert Magnitude(Decimal(0), 0) == DigitsValue(Decimal(0), 8, 0);
    }
  }

  lemma StrToULDecimal(n: nat, base: nat)
    requires n < TWO_64 && (base == 0 || base == 10)
    ensures StrToUL(Decimal(n), base) == n
  {
    DecimalDigits(n);
    MagnitudeOfDecimal(n, base);
    assert !Space(Decimal(n)[0]);
  }

  lemma StrToULMinusDecimal(n: nat, base: nat)
    requires 0 < n < TWO_64 && (base == 0 || base == 10)
    ensures StrToUL("-" + Decimal(n), base) == TWO_64 - n
  {
    var s := "-" + Decimal(n);
    MagnitudeOfDecimal(n, base);
    assert s[0] == '-' && s[1..] == Decimal(n);
  }

  /** A 32-bit number printed with "%d" reads back modulo 2^32, also above 2^31. */
  lemma ReadSigned32(n: nat)
    requires n < TWO_32
    ensures StrToUL(SignedDecimal32(n), 10) % TWO_32 == n
  {
    if n < TWO_32 / 2 {
      StrToULDecimal(n, 10);
    } else {
      StrToULMinusDecimal(TWO_32 - n, 10);
      assert TWO_64 == TWO_32 * TWO_32;
      assert (TWO_64 - (TWO_32 - n)) == (TWO_32 - 1) * TWO_32 + n;
    }
  }

  /** A 64-bit number printed with "%ld" reads back as itself, also above 2^63. */
  lemma ReadSigned64(n: nat)
    requires n < TWO_64
    ensures StrToUL(SignedDecimal64(n), 0) == n
  {
    if n < TWO_64 / 2 {
      StrToULDecimal(n, 0);
    } else {
      StrToULMinusDecimal(TWO_64 - n, 0);
    }
  }

  // The hexadecimal digits `width` wide are those of n modulo 16^width.
  function Power16(k: nat): nat {
    if k == 0 then 1 else 16 * Power16(k - 1)
  }

  lemma {:induction false} HexDigits(n: nat, width: nat)
    requires n < Power16(width)
    ensures forall i :: 0 <= i < width ==> ('0' <= Hex(n, width)[i] <= '9') || ('A' <= Hex(n, width)[i] <= 'F')
    ensures AllDigits(Hex(n, width), 16)
    ensures DigitsValue(Hex(n, width), 16, 0) == n
    decreases width
  {
    if width > 0 {
      HexDigits(n / 16, width - 1);
      DigitsValueLast(Hex(n / 16, width - 1), Digit(n % 16), 16, 0);
    }
  }

  lemma DigitValueNoCase(a: char, b: char)
    requires Upper(a) == Upper(b)
    ensures DigitValue(a) == DigitValue(b)
  {
  }

  lemma EqualNoCaseTail(a: string, b: string)
    requires EqualNoCase(a, b) && a != ""
    ensures Upper(a[0]) == Upper(b[0]) && EqualNoCase(a[1..], b[1..])
  {
  }

  // Upper and lower case make no difference to the value.
  lemma {:induction false} DigitsValueNoCase(a: string, b: string, base: nat, acc: nat)
    requires EqualNoCase(a, b)
    ensures DigitsValue(a, base, acc) == DigitsValue(b, base, acc)
    decreases |a|
  {
    hide EqualNoCase, Upper, DigitValue;
    assert |a| == |b| by { SameLength(a, b); }
    if a != "" {
      EqualNoCaseTail(a, b);
      DigitValueNoCase(a[0], b[0]);
      if DigitValue(a[0]) < base {
        DigitsValueNoCase(a[1..], b[1..], base, acc * base + DigitValue(a[0]));
      }
    }
  }

  lemma SameLength(a: string, b: string)
    requires EqualNoCase(a, b)
    ensures |a| == |b|
  {
  }

  lemma Power16Of16()
    ensures Power16(16) == TWO_64
  {
    assert Power16(4) == 0x1_0000;
    assert Power16(8) == 0x1_0000 * Power16(4);
    assert Power16(12) == 0x1_0000 * Power16(8);
    assert Power16(16) == 0x1_0000 * Power16(12);
  }

  /** A title id printed with "%016lX" is read back by strtoul, in whatever case it is
      written. */
  lemma ReadTitleId(tid: nat, name: string)
    requires tid < TWO_64 && EqualNoCase(name, Hex(tid, 16))
    ensures StrToUL(name, 16) == tid && |name| == 16
  {
    hide EqualNoCase, Upper, DigitValue, Hex, DigitsValue;
    Power16Of16();
    HexDigits(tid, 16);
    var printed := Hex(tid, 16);
    SameLength(name, printed);
    DigitsValueNoCase(name, printed, 16, 0);
    HexCharNoCase(name, printed, 0);
    HexCharNoCase(name, printed, 1);
  }

  // A character that matches a hexadecimal digit is no space, sign or prefix.
  lemma HexCharNoCase(name: string, printed: string, i: nat)
    requires EqualNoCase(name, printed) && i < |printed|
    requires ('0' <= printed[i] <= '9') || ('A' <= printed[i] <= 'F')
    ensures !Space(name[i]) && name[i] != '-' && name[i] != '+' && name[i] != 'x' && name[i] != 'X'
  {
    assert Upper(name[i]) == Upper(printed[i]);
  }
}

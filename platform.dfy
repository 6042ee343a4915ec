/** The platform calls `convertNumber` relies on, written out with the
    semantics of the Kotlin and Java standard libraries: Kotlin's
    `String.toIntOrNull()` (radix 10) and Java's `Integer.toBinaryString`,
    `Integer.toOctalString` and `Integer.toHexString`. Integers are
    mathematical; the 32-bit range of Kotlin's `Int` is checked explicitly. */
module Platform {
  import opened Wrappers
  import opened Digits

  /** Int.MIN_VALUE and Int.MAX_VALUE. */
  const IntMin: int := -0x8000_0000
  const IntMax: int := 0x7fff_ffff

  predicate IsInt(x: int) {
    IntMin <= x <= IntMax
  }

  /** A value if it fits in an Int, null otherwise. */
  function FitInt(x: int): (r: Option<int>)
    ensures r.Some? <==> IsInt(x)
    ensures r.Some? ==> r.value == x
  {
    if IsInt(x) then Some(x) else None
  }

  predicate IsDecimal(s: string) {
    IsDigitString(s, 10)
  }

  /** Kotlin's `String.toIntOrNull()`: null for empty text; a first character
      below '0' must be a single '-' or '+' sign followed by at least one
      digit; all remaining characters must be decimal digits (leading zeros
      are allowed); and the value must fit in an Int. Only ASCII digits are
      modelled. */
  function ToIntOrNull(s: string): (r: Option<int>)
    ensures r.Some? ==> IsInt(r.value)
    ensures r.Some? ==> |s| > 0
  {
    if |s| == 0 then None
    else if s[0] < '0' then
      if |s| == 1 then None
      else if s[0] == '-' then
        if IsDecimal(s[1..]) then FitInt(-(ReadDigits(s[1..], 10) as int)) else None
      else if s[0] == '+' then
        if IsDecimal(s[1..]) then FitInt(ReadDigits(s[1..], 10)) else None
      else None
    else if IsDecimal(s) then FitInt(ReadDigits(s, 10))
    else None
  }

  /** The text syntax `ToIntOrNull` accepts, before the range check: an
      optional single sign followed by one or more decimal digits. */
  predicate IsIntegerLiteral(s: string) {
    || (|s| > 0 && IsDecimal(s))
    || (|s| > 1 && (s[0] == '-' || s[0] == '+') && IsDecimal(s[1..]))
  }

  /** The mathematical value of an integer literal. */
  function LiteralValue(s: string): (v: int)
    requires IsIntegerLiteral(s)
  {
    if s[0] == '-' then -(ReadDigits(s[1..], 10) as int)
    else if s[0] == '+' then ReadDigits(s[1..], 10)
    else ReadDigits(s, 10)
  }

  /** `Int.toString()`: the canonical decimal text of an Int, with a '-' for
      negative values. Used here as the reference text the parser must read
      back. */
  function DecimalText(n: int): (s: string)
    ensures IsIntegerLiteral(s) && LiteralValue(s) == n
  {
    if n < 0 then "-" + ToDigits(-n, 10) else ToDigits(n, 10)
  }

  /** The unsigned reading of an Int's 32 bits, as Java's formatters use it. */
  function Unsigned(i: int): (u: nat)
    requires IsInt(i)
    ensures u < 0x1_0000_0000
    ensures u % 0x1_0000_0000 == i % 0x1_0000_0000
  {
    if i < 0 then i + 0x1_0000_0000 else i
  }

  /** 2^30, 2^31 and 2^32, the powers of two the Int range is made of. */
  lemma PowersOfTwo()
    ensures Pow(2, 30) == 0x4000_0000
    ensures Pow(2, 31) == 0x8000_0000
    ensures Pow(2, 32) == 0x1_0000_0000
  {
    PowSquare(2, 16);
    PowSquare(4, 8);
    assert Pow(16, 8) == 0x1_0000_0000;
    assert Pow(2, 32) == 2 * Pow(2, 31);
    assert Pow(2, 31) == 2 * Pow(2, 30);
  }

  /** `Integer.toBinaryString`: the shortest base-2 digits of the unsigned
      32-bit reading of i; a non-negative Int needs at most 31 of them. */
  function ToBinaryString(i: int): (s: string)
    requires IsInt(i)
    ensures Canonical(s, 2) && ReadDigits(s, 2) == Unsigned(i)
    ensures |s| <= 32
    ensures i >= 0 ==> |s| <= 31
  {
    PowersOfTwo();
    ToDigitsLength(Unsigned(i), 2, 32);
    ToDigitsLength(Unsigned(i), 2, 31);
    ToDigits(Unsigned(i), 2)
  }

  /** `Integer.toOctalString`: the shortest base-8 digits of the unsigned
      32-bit reading of i. */
  function ToOctalString(i: int): (s: string)
    requires IsInt(i)
    ensures Canonical(s, 8) && ReadDigits(s, 8) == Unsigned(i)
    ensures |s| <= 11
  {
    assert Pow(8, 11) == 0x2_0000_0000;
    ToDigitsLength(Unsigned(i), 8, 11);
    ToDigits(Unsigned(i), 8)
  }

  /** `Integer.toHexString`: the shortest lowercase base-16 digits of the
      unsigned 32-bit reading of i. */
  function ToHexString(i: int): (s: string)
    requires IsInt(i)
    ensures Canonical(s, 16) && ReadDigits(s, 16) == Unsigned(i)
    ensures |s| <= 8
  {
    assert Pow(16, 8) == 0x1_0000_0000;
    ToDigitsLength(Unsigned(i), 16, 8);
    ToDigits(Unsigned(i), 16)
  }

  /** The parser accepts exactly the integer literals whose value fits in an
      Int, and then returns that value. */
  lemma ToIntOrNullCharacterization(s: string)
    ensures ToIntOrNull(s).Some? <==> IsIntegerLiteral(s) && IsInt(LiteralValue(s))
    ensures ToIntOrNull(s).Some? ==> ToIntOrNull(s).value == LiteralValue(s)
  {
    if |s| > 0 && IsDecimal(s) {
      assert IsDigitOf(s[0], 10);
    }
  }

  /** Round trip: the decimal text of every Int parses back to that Int. */
  lemma ParseDecimalText(n: int)
    requires IsInt(n)
    ensures ToIntOrNull(DecimalText(n)) == Some(n)
  {
    var s := DecimalText(n);
    if n < 0 {
      assert s[1..] == ToDigits(-n, 10);
    } else {
      assert IsDigitOf(s[0], 10);
    }
    ToIntOrNullCharacterization(s);
  }

  /** An explicit '+' sign changes nothing: "+" + s parses as s does. */
  lemma PlusSignIgnored(s: string)
    requires |s| > 0 && IsDecimal(s)
    ensures ToIntOrNull("+" + s) == ToIntOrNull(s)
  {
    assert ("+" + s)[1..] == s;
    assert IsDigitOf(s[0], 10);
  }

  /** Leading zeros change nothing: "0" + s parses as s does. */
  lemma LeadingZeroIgnored(s: string)
    requires |s| > 0 && IsDecimal(s)
    ensures ToIntOrNull("0" + s) == ToIntOrNull(s)
  {
    LeadingZeroValue(s, 10);
    assert IsDigitOf(s[0], 10);
  }

  /** Any integer literal whose value is above Int.MAX_VALUE is refused,
      signed or not. */
  lemma OverflowRejected(s: string)
    requires IsIntegerLiteral(s) && LiteralValue(s) > IntMax
    ensures ToIntOrNull(s) == None
  {
    ToIntOrNullCharacterization(s);
  }

  /** Text that is not an integer literal, the empty text included, is
      refused. */
  lemma NonLiteralRejected(s: string)
    requires !IsIntegerLiteral(s)
    ensures ToIntOrNull(s) == None
  {
    ToIntOrNullCharacterization(s);
  }
}

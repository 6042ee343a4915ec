/** Positional digit strings in radix 2 to 16, with the lowercase digit set
    0-9, a-f that Java's integer formatters and Kotlin's parser share.
    `ToDigits` is the shortest rendering of a natural number; `ReadDigits`
    reads a digit string back, and is the partner every rendering is checked
    against. */
module Digits {

  predicate ValidRadix(radix: int) {
    2 <= radix <= 16
  }

  /** The digit character for d: '0'..'9', then lowercase 'a'..'f'. */
  function DigitChar(d: nat): (c: char)
    requires d < 16
    ensures DigitValue(c) == d
  {
    if d < 10 then '0' + d as char else 'a' + (d - 10) as char
  }

  /** The value of a digit character, or -1 for a character that is not one. */
  function DigitValue(c: char): (v: int) {
    if '0' <= c <= '9' then c as int - '0' as int
    else if 'a' <= c <= 'f' then c as int - 'a' as int + 10
    else -1
  }

  predicate IsDigitOf(c: char, radix: int) {
    0 <= DigitValue(c) < radix
  }

  predicate IsDigitString(s: string, radix: int) {
    forall i :: 0 <= i < |s| ==> IsDigitOf(s[i], radix)
  }

  /** A non-empty digit string with no leading zero, except "0" itself. */
  predicate Canonical(s: string, radix: int) {
    && IsDigitString(s, radix)
    && |s| > 0
    && (|s| > 1 ==> s[0] != '0')
  }

  /** The value of a digit string, most significant digit first. */
  function ReadDigits(s: string, radix: int): (n: nat)
    requires ValidRadix(radix) && IsDigitString(s, radix)
  {
    if s == [] then 0
    else ReadDigits(s[..|s| - 1], radix) * radix + DigitValue(s[|s| - 1])
  }

  /** The shortest digit string of n in the given radix; "0" for zero. */
  function ToDigits(n: nat, radix: int): (s: string)
    requires ValidRadix(radix)
    ensures Canonical(s, radix)
    ensures ReadDigits(s, radix) == n
    decreases n
  {
    if n < radix then [DigitChar(n)]
    else
      var prefix := ToDigits(n / radix, radix);
      var s := prefix + [DigitChar(n % radix)];
      assert s[..|s| - 1] == prefix;
      s
  }

  function Pow(base: nat, k: nat): (p: nat) {
    if k == 0 then 1 else base * Pow(base, k - 1)
  }

  /** A canonical string longer than one digit starts with a non-zero digit,
      so its value is at least radix^(length - 1). */
  lemma {:induction false} CanonicalLowerBound(s: string, radix: int)
    requires ValidRadix(radix) && Canonical(s, radix) && |s| > 1
    ensures ReadDigits(s, radix) >= Pow(radix, |s| - 1)
    ensures ReadDigits(s, radix) >= radix
  {
    if |s| > 1 {
      var prefix := s[..|s| - 1];
      assert Canonical(prefix, radix) by {
        assert prefix[0] == s[0];
        forall i | 0 <= i < |prefix| ensures IsDigitOf(prefix[i], radix) {
          assert prefix[i] == s[i];
        }
      }
      var m := ReadDigits(prefix, radix);
      if |prefix| == 1 {
        assert prefix[..0] == [] && prefix[0] == s[0];
        assert m == ReadDigits([], radix) * radix + DigitValue(s[0]);
        assert IsDigitOf(s[0], radix) && s[0] != '0';
        assert DigitValue(s[0]) >= 1;
      } else {
        CanonicalLowerBound(prefix, radix);
      }
      assert m >= Pow(radix, |prefix| - 1) && m >= 1;
      assert Pow(radix, |s| - 1) == radix * Pow(radix, |prefix| - 1);
      MulAtMost(Pow(radix, |prefix| - 1), m, radix);
      MulAtMost(1, m, radix);
    }
  }

  lemma MulAtMost(a: nat, b: nat, c: nat)
    requires a <= b
    ensures a * c <= b * c
  {
  }

  /** Appending a digit to a value below p gives a value below p * radix. */
  lemma DigitStep(m: nat, d: nat, p: nat, radix: nat)
    requires m < p && d < radix
    ensures m * radix + d < p * radix
  {
    MulAtMost(m + 1, p, radix);
    assert (m + 1) * radix == m * radix + radix;
  }

  /** Quotient and remainder of a value built by appending a digit. */
  lemma DivModDigit(m: nat, d: nat, radix: nat)
    requires d < radix
    ensures (m * radix + d) / radix == m
    ensures (m * radix + d) % radix == d
  {
    var n := m * radix + d;
    var q, r := n / radix, n % radix;
    assert q * radix + r == n && 0 <= r < radix;
    if q > m {
      assert (m + 1) * radix == m * radix + radix;
      MulAtMost(m + 1, q, radix);
    } else if q < m {
      assert (q + 1) * radix == q * radix + radix;
      MulAtMost(q + 1, m, radix);
    }
  }

  /** Every digit string of length k has value below radix^k. */
  lemma {:induction false} ReadDigitsUpperBound(s: string, radix: int)
    requires ValidRadix(radix) && IsDigitString(s, radix)
    ensures ReadDigits(s, radix) < Pow(radix, |s|)
  {
    if s != [] {
      var prefix := s[..|s| - 1];
      assert IsDigitString(prefix, radix) by {
        forall i | 0 <= i < |prefix| ensures IsDigitOf(prefix[i], radix) {
          assert prefix[i] == s[i];
        }
      }
      ReadDigitsUpperBound(prefix, radix);
      var m, d, p := ReadDigits(prefix, radix), DigitValue(s[|s| - 1]), Pow(radix, |prefix|);
      DigitStep(m, d, p, radix);
      assert ReadDigits(s, radix) == m * radix + d;
      assert Pow(radix, |s|) == radix * p;
    }
  }

  /** The shortest rendering is the only canonical one: a canonical string is
      exactly ToDigits of its own value. */
  lemma {:induction false} CanonicalUnique(s: string, radix: int)
    requires ValidRadix(radix) && Canonical(s, radix)
    ensures s == ToDigits(ReadDigits(s, radix), radix)
  {
    var n := ReadDigits(s, radix);
    var last := DigitValue(s[|s| - 1]);
    if |s| == 1 {
      assert s[..0] == [];
      assert n == last < radix;
      assert DigitChar(n) == s[0];
    } else {
      var prefix := s[..|s| - 1];
      assert Canonical(prefix, radix) by {
        assert prefix[0] == s[0];
        forall i | 0 <= i < |prefix| ensures IsDigitOf(prefix[i], radix) {
          assert prefix[i] == s[i];
        }
      }
      CanonicalLowerBound(s, radix);
      CanonicalUnique(prefix, radix);
      var m := ReadDigits(prefix, radix);
      DivModDigit(m, last, radix);
      assert DigitChar(last) == s[|s| - 1];
      assert s == prefix + [s[|s| - 1]];
    }
  }

  /** ReadDigits and ToDigits are inverse on canonical strings: two canonical
      strings with the same value are the same string. */
  lemma CanonicalInjective(s: string, t: string, radix: int)
    requires ValidRadix(radix) && Canonical(s, radix) && Canonical(t, radix)
    requires ReadDigits(s, radix) == ReadDigits(t, radix)
    ensures s == t
  {
    CanonicalUnique(s, radix);
    CanonicalUnique(t, radix);
  }

  /** The rendering of n fits in k digits exactly when n < radix^k. */
  lemma ToDigitsLength(n: nat, radix: int, k: nat)
    requires ValidRadix(radix) && k >= 1
    ensures |ToDigits(n, radix)| <= k <==> n < Pow(radix, k)
  {
    var s := ToDigits(n, radix);
    ReadDigitsUpperBound(s, radix);
    if |s| > 1 {
      CanonicalLowerBound(s, radix);
    }
    if |s| <= k {
      PowMonotone(radix, |s|, k);
    } else {
      PowMonotone(radix, k, |s| - 1);
    }
  }

  lemma {:induction false} PowMonotone(base: nat, i: nat, j: nat)
    requires base >= 1 && i <= j
    ensures Pow(base, i) <= Pow(base, j)
  {
    if i < j {
      PowMonotone(base, i, j - 1);
      assert Pow(base, j - 1) >= 1 by { PowPositive(base, j - 1); }
    }
  }

  lemma {:induction false} PowSquare(base: nat, k: nat)
    ensures Pow(base * base, k) == Pow(base, 2 * k)
  {
    if k > 0 {
      PowSquare(base, k - 1);
      assert Pow(base, 2 * k) == base * (base * Pow(base, 2 * (k - 1)));
    }
  }

  lemma {:induction false} PowPositive(base: nat, k: nat)
    requires base >= 1
    ensures Pow(base, k) >= 1
  {
    if k > 0 {
      PowPositive(base, k - 1);
    }
  }

  /** Leading zeros do not change the value of a digit string. */
  lemma {:induction false} LeadingZeroValue(s: string, radix: int)
    requires ValidRadix(radix) && IsDigitString(s, radix)
    ensures IsDigitString("0" + s, radix)
    ensures ReadDigits("0" + s, radix) == ReadDigits(s, radix)
  {
    var z := "0" + s;
    assert IsDigitString(z, radix) by {
      forall i | 0 <= i < |z| ensures IsDigitOf(z[i], radix) {
        if i > 0 { assert z[i] == s[i - 1]; }
      }
    }
    if s == [] {
      assert z[..0] == [];
    } else {
      var prefix := s[..|s| - 1];
      assert IsDigitString(prefix, radix) by {
        forall i | 0 <= i < |prefix| ensures IsDigitOf(prefix[i], radix) {
          assert prefix[i] == s[i];
        }
      }
      LeadingZeroValue(prefix, radix);
      assert z[..|z| - 1] == "0" + prefix;
      assert z[|z| - 1] == s[|s| - 1];
    }
  }
}

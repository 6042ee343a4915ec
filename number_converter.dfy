/** `convertNumber` and its selector `NumberBase`: decimal text in, the
    number's digits in base 2, 8 or 16 out, or one fixed Polish error
    message for text that is not a non-negative Int. */
module NumberConverter {
  import opened Wrappers
  import opened Digits
  import opened Platform

  datatype NumberBase = BIN | OCT | HEX

  function Radix(b: NumberBase): (radix: int)
    ensures ValidRadix(radix)
  {
    match b
    case BIN => 2
    case OCT => 8
    case HEX => 16
  }

  /** The most digits a non-negative Int takes in each base. */
  function MaxDigits(b: NumberBase): (k: nat) {
    match b
    case BIN => 31
    case OCT => 11
    case HEX => 8
  }

  /** The message returned for every rejected input ("You entered a wrong
      number."). */
  const ErrorMessage: string := "Wprowadziłeś złą liczbę."

  /** The inputs `convertNumber` converts: text that parses as an Int and is
      not negative. Such text is an integer literal valued 0 to
      Int.MAX_VALUE. */
  predicate Accepted(inputText: string)
    ensures Accepted(inputText) ==>
      IsIntegerLiteral(inputText) && 0 <= LiteralValue(inputText) <= IntMax
  {
    ToIntOrNullCharacterization(inputText);
    ToIntOrNull(inputText).Some? && ToIntOrNull(inputText).value >= 0
  }

  /** A digit string in any base 2..16 can never be the error message: the
      message starts with 'W', which is no digit. */
  lemma DigitsAreNotError(s: string, radix: int)
    requires ValidRadix(radix) && Canonical(s, radix)
    ensures s != ErrorMessage
  {
    assert DigitValue(ErrorMessage[0]) == -1;
  }

  /** Parse the text as an Int; reject it if that fails or the number is
      negative; otherwise format it in the selected base. Rejection returns
      the error message, and success returns a canonical digit string (no
      leading zero) that reads back, in the selected base, as the parsed
      number and fits in the base's digit budget. */
  function ConvertNumber(inputText: string, selectedBase: NumberBase): (r: string)
    ensures r == ErrorMessage <==> !Accepted(inputText)
    ensures Accepted(inputText) ==> Canonical(r, Radix(selectedBase))
    ensures Accepted(inputText) ==> ReadDigits(r, Radix(selectedBase)) == ToIntOrNull(inputText).value
    ensures Accepted(inputText) ==> |r| <= MaxDigits(selectedBase)
  {
    match ToIntOrNull(inputText)
    case None => ErrorMessage
    case Some(number) =>
      if number < 0 then ErrorMessage
      else
        var r := match selectedBase
          case BIN => ToBinaryString(number)
          case OCT => ToOctalString(number)
          case HEX => ToHexString(number);
        DigitsAreNotError(r, Radix(selectedBase));
        r
  }

  /** On success the output is exactly the shortest digit string of the
      parsed number: the only rendering without leading zeros. */
  lemma ConvertIsShortest(inputText: string, selectedBase: NumberBase)
    requires Accepted(inputText)
    ensures ConvertNumber(inputText, selectedBase) == ToDigits(ToIntOrNull(inputText).value, Radix(selectedBase))
  {
    CanonicalUnique(ConvertNumber(inputText, selectedBase), Radix(selectedBase));
  }

  /** Every n from 0 to Int.MAX_VALUE, written in decimal, converts to its
      standard digits in each base. */
  lemma ConvertNaturals(n: int, selectedBase: NumberBase)
    requires 0 <= n <= IntMax
    ensures ConvertNumber(DecimalText(n), selectedBase) == ToDigits(n, Radix(selectedBase))
  {
    ParseDecimalText(n);
    ConvertIsShortest(DecimalText(n), selectedBase);
  }

  /** Text that parses to 0, however written ("0", "000", "+0", "-0"),
      converts to "0" in every base. */
  lemma ConvertZero(inputText: string, selectedBase: NumberBase)
    requires ToIntOrNull(inputText) == Some(0)
    ensures ConvertNumber(inputText, selectedBase) == "0"
  {
    ConvertIsShortest(inputText, selectedBase);
  }

  /** Empty text, and any text that is not an optionally signed run of
      decimal digits, is rejected. */
  lemma RejectsNonNumeric(inputText: string, selectedBase: NumberBase)
    requires !IsIntegerLiteral(inputText)
    ensures ConvertNumber(inputText, selectedBase) == ErrorMessage
  {
    NonLiteralRejected(inputText);
  }

  /** A number above Int.MAX_VALUE is rejected for every base. */
  lemma RejectsOverflow(inputText: string, selectedBase: NumberBase)
    requires IsIntegerLiteral(inputText) && LiteralValue(inputText) > IntMax
    ensures ConvertNumber(inputText, selectedBase) == ErrorMessage
  {
    OverflowRejected(inputText);
  }

  /** A negative number is rejected for every base, including those that
      parse (down to Int.MIN_VALUE). */
  lemma RejectsNegative(inputText: string, selectedBase: NumberBase)
    requires IsIntegerLiteral(inputText) && LiteralValue(inputText) < 0
    ensures ConvertNumber(inputText, selectedBase) == ErrorMessage
  {
    ToIntOrNullCharacterization(inputText);
  }

  /** Accepted inputs are exactly the integer literals from 0 to
      Int.MAX_VALUE. */
  lemma AcceptedRange(inputText: string)
    ensures Accepted(inputText) <==>
      IsIntegerLiteral(inputText) && 0 <= LiteralValue(inputText) <= IntMax
  {
    ToIntOrNullCharacterization(inputText);
  }

  /** Int.MAX_VALUE takes exactly the digit budget of each base, so the
      bound MaxDigits is tight. */
  lemma MaxDigitsTight(selectedBase: NumberBase)
    ensures |ConvertNumber(DecimalText(IntMax), selectedBase)| == MaxDigits(selectedBase)
  {
    ConvertNaturals(IntMax, selectedBase);
    IntMaxDigits(selectedBase);
  }

  lemma IntMaxDigits(selectedBase: NumberBase)
    ensures |ToDigits(IntMax, Radix(selectedBase))| == MaxDigits(selectedBase)
  {
    match selectedBase
    case BIN =>
      PowersOfTwo();
      ToDigitsLength(IntMax, 2, 30);
      ToDigitsLength(IntMax, 2, 31);
    case OCT =>
      assert Pow(8, 10) == 0x4000_0000;
      assert Pow(8, 11) == 0x2_0000_0000;
      ToDigitsLength(IntMax, 8, 10);
      ToDigitsLength(IntMax, 8, 11);
    case HEX =>
      assert Pow(16, 7) == 0x1000_0000;
      assert Pow(16, 8) == 0x1_0000_0000;
      ToDigitsLength(IntMax, 16, 7);
      ToDigitsLength(IntMax, 16, 8);
  }

  /** "0" and "-0" both convert to "0" in every base. */
  lemma ZeroExamples(selectedBase: NumberBase)
    ensures ConvertNumber("0", selectedBase) == "0"
    ensures ConvertNumber("-0", selectedBase) == "0"
  {
    ConvertZero("0", selectedBase);
    ConvertZero("-0", selectedBase);
  }

  /** "-1" and "2147483648" (one past Int.MAX_VALUE) are rejected in every
      base. */
  lemma OutOfRangeExamples(selectedBase: NumberBase)
    ensures ConvertNumber("-1", selectedBase) == ErrorMessage
    ensures ConvertNumber("2147483648", selectedBase) == ErrorMessage
  {
    assert DecimalText(-1) == "-1";
    RejectsNegative(DecimalText(-1), selectedBase);
    assert DecimalText(0x8000_0000) == "2147483648";
    RejectsOverflow(DecimalText(0x8000_0000), selectedBase);
  }

  /** "abc", a lone "+" and the empty text are rejected in every base. */
  lemma NonNumericExamples(selectedBase: NumberBase)
    ensures ConvertNumber("abc", selectedBase) == ErrorMessage
    ensures ConvertNumber("+", selectedBase) == ErrorMessage
    ensures ConvertNumber("", selectedBase) == ErrorMessage
  {
    assert !IsDigitOf("abc"[0], 10) && !IsDigitOf("+"[0], 10);
    RejectsNonNumeric("abc", selectedBase);
    RejectsNonNumeric("+", selectedBase);
    RejectsNonNumeric("", selectedBase);
  }

  /** "255" gives "11111111", "377" and "ff". */
  lemma ConversionExample255()
    ensures ConvertNumber("255", BIN) == "11111111"
    ensures ConvertNumber("255", OCT) == "377"
    ensures ConvertNumber("255", HEX) == "ff"
  {
    assert DecimalText(255) == "255";
    ConvertNaturals(255, BIN);
    ConvertNaturals(255, OCT);
    ConvertNaturals(255, HEX);
  }
}

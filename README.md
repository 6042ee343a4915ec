# NumberConverter in Dafny

A model of the number-base converter of the NumberConverter Android app.
The screen takes text from the user and a base (`NumberBase`: BIN, OCT or
HEX). `convertNumber` parses the text as a Kotlin `Int`. It returns the error
message "Wprowadziłeś złą liczbę." ("You entered a wrong number.") if the text
does not parse or the number is negative. Otherwise it returns the number's
digits in base 2, 8 or 16.

The library calls that `convertNumber` makes are written out as Dafny
functions with the standard-library semantics:

- Kotlin's `String.toIntOrNull()` becomes `Platform.ToIntOrNull`.
- Java's `Integer.toBinaryString`, `toOctalString` and `toHexString` become
  `Platform.ToBinaryString`, `ToOctalString` and `ToHexString`.

Integers are mathematical. The 32-bit range of `Int` is stated explicitly.

Modules:

- `Wrappers`: `Option`, which stands in for Kotlin's nullable `Int?`.
- `Digits`: digit strings in radix 2..16. `ToDigits` gives the shortest
  digit string of a natural number and `ReadDigits` reads one back. Each
  output is proved to read back under `ReadDigits`.
- `Platform`: the `Int` range, `ToIntOrNull`, the three Java formatters,
  and `DecimalText` (`Int.toString`). `DecimalText` is the reference text
  that the parser must read back.
- `NumberConverter`: `NumberBase`, the error message, `ConvertNumber`, and
  the properties the app promises.
- `ConverterView`: which of three things the result area shows for a
  conversion: the labelled digits, the error message, or nothing. This is
  the subject of the finding below.

Kotlin's `toIntOrNull` (line 143) accepts a leading '+', so "+5" converts
like "5" (`Platform.PlusSignIgnored`). Text such as "-0" parses to 0, so it
converts to "0" (`NumberConverter.ZeroExamples`).

The enum `NumberBase` (lines 45-47) is the datatype
`NumberConverter.NumberBase`. The error literal at lines 143 and 145 is the
constant `NumberConverter.ErrorMessage`.

## Model

| member | source | states |
|---|---|---|
| `NumberConverter.ConvertNumber` | app/src/main/java/com/example/numberconverter/MainActivity.kt:142-159 | The result is the error message exactly when the text does not parse as an Int or the number is negative. Otherwise the result is a canonical digit string in the selected base (non-empty, no leading zero) that reads back as the parsed number and is at most 31/11/8 digits long. |
| `NumberConverter.Radix` | app/src/main/java/com/example/numberconverter/MainActivity.kt:147-158 | Each of the three `NumberBase` constants (lines 45-47) selects a valid radix: 2 for BIN, 8 for OCT, 16 for HEX. |
| `NumberConverter.Accepted` | app/src/main/java/com/example/numberconverter/MainActivity.kt:143-146 | An input that passes both guards, `toIntOrNull` and `number < 0`, is an integer literal whose value is from 0 to Int.MAX_VALUE. Every other input gets `ErrorMessage`, the literal at lines 143 and 145. |
| `NumberConverter.DigitsAreNotError` | app/src/main/java/com/example/numberconverter/MainActivity.kt:142-159 | No digit string in any base can equal the error message. So comparing the returned string with the message does tell results and errors apart. |
| `NumberConverter.ConvertIsShortest` | app/src/main/java/com/example/numberconverter/MainActivity.kt:147-158 | On success the output is exactly the shortest digit string of the parsed number in the selected base. |
| `NumberConverter.ConvertNaturals` | app/src/main/java/com/example/numberconverter/MainActivity.kt:142-159 | For every n from 0 to Int.MAX_VALUE, the decimal text of n converts to the standard digits of n in each base. |
| `NumberConverter.ConvertZero` | app/src/main/java/com/example/numberconverter/MainActivity.kt:143-157 | Any text that parses to 0 converts to "0" in every base. |
| `NumberConverter.RejectsNonNumeric` | app/src/main/java/com/example/numberconverter/MainActivity.kt:143 | Empty text, and any text that is not an optionally signed run of decimal digits, gives the error message in every base. |
| `NumberConverter.RejectsOverflow` | app/src/main/java/com/example/numberconverter/MainActivity.kt:143 | An integer literal whose value is above 2147483647 gives the error message in every base. |
| `NumberConverter.RejectsNegative` | app/src/main/java/com/example/numberconverter/MainActivity.kt:144-146 | An integer literal with a negative value gives the error message in every base, including values that parse as an Int. |
| `NumberConverter.AcceptedRange` | app/src/main/java/com/example/numberconverter/MainActivity.kt:143-146 | The accepted inputs are exactly the integer literals whose value is between 0 and Int.MAX_VALUE. This is the range the help text at lines 200-201 announces. |
| `NumberConverter.MaxDigitsTight` | app/src/main/java/com/example/numberconverter/MainActivity.kt:148-157 | Int.MAX_VALUE takes exactly 31 binary, 11 octal and 8 hex digits. So the length bound in `ConvertNumber` is the best possible. |
| `NumberConverter.IntMaxDigits` | app/src/main/java/com/example/numberconverter/MainActivity.kt:148-157 | The shortest digit string of Int.MAX_VALUE is exactly 31 digits long in base 2, 11 in base 8 and 8 in base 16. |
| `NumberConverter.ZeroExamples` | app/src/main/java/com/example/numberconverter/MainActivity.kt:142-159 | "0" and "-0" both give "0" in every base. |
| `NumberConverter.OutOfRangeExamples` | app/src/main/java/com/example/numberconverter/MainActivity.kt:143-146 | "-1" and "2147483648" give the error message in every base. |
| `NumberConverter.NonNumericExamples` | app/src/main/java/com/example/numberconverter/MainActivity.kt:143 | "abc", "+" and "" give the error message in every base. |
| `NumberConverter.ConversionExample255` | app/src/main/java/com/example/numberconverter/MainActivity.kt:147-158 | "255" gives "11111111", "377" and "ff". |
| `Platform.ToIntOrNull` | app/src/main/java/com/example/numberconverter/MainActivity.kt:143 | A parsed value always lies in the Int range, and empty text never parses. |
| `Platform.ToIntOrNullCharacterization` | app/src/main/java/com/example/numberconverter/MainActivity.kt:143 | The parser succeeds exactly on integer literals (an optional single '+' or '-', then one or more ASCII digits) whose value fits in an Int, and then returns that value. |
| `Platform.ParseDecimalText` | app/src/main/java/com/example/numberconverter/MainActivity.kt:143 | Round trip: the decimal text of every Int parses back to that Int. |
| `Platform.PlusSignIgnored` | app/src/main/java/com/example/numberconverter/MainActivity.kt:143 | "+" followed by digits parses the same as the digits alone. |
| `Platform.LeadingZeroIgnored` | app/src/main/java/com/example/numberconverter/MainActivity.kt:143 | A leading "0" in front of digits does not change the parse. |
| `Platform.OverflowRejected` | app/src/main/java/com/example/numberconverter/MainActivity.kt:143 | An integer literal above Int.MAX_VALUE does not parse. |
| `Platform.NonLiteralRejected` | app/src/main/java/com/example/numberconverter/MainActivity.kt:143 | Text that is not an integer literal does not parse. |
| `Platform.ToBinaryString` | app/src/main/java/com/example/numberconverter/MainActivity.kt:149 | The output is canonical binary digits that read back as the unsigned 32-bit value of the argument, at most 32 digits long, and at most 31 for a non-negative argument. |
| `Platform.ToOctalString` | app/src/main/java/com/example/numberconverter/MainActivity.kt:152 | The output is canonical octal digits that read back as the unsigned 32-bit value of the argument, at most 11 digits long. |
| `Platform.ToHexString` | app/src/main/java/com/example/numberconverter/MainActivity.kt:156 | The output is canonical lowercase hex digits that read back as the unsigned 32-bit value of the argument, at most 8 digits long. |
| `Digits.ToDigits` | app/src/main/java/com/example/numberconverter/MainActivity.kt:148-157 | The output is canonical (non-empty, only digits of the radix, no leading zero unless it is "0") and reads back as the input number. |
| `Digits.CanonicalUnique` | app/src/main/java/com/example/numberconverter/MainActivity.kt:148-157 | A canonical digit string is exactly `ToDigits` of its own value, so the formatters' output is the only rendering without leading zeros. |
| `Digits.CanonicalInjective` | app/src/main/java/com/example/numberconverter/MainActivity.kt:148-157 | Two canonical digit strings with the same value are equal. |
| `Digits.ToDigitsLength` | app/src/main/java/com/example/numberconverter/MainActivity.kt:148-157 | The rendering of n fits in k digits exactly when n < radix^k. |
| `ConverterView.BaseName` | app/src/main/java/com/example/numberconverter/MainActivity.kt:116 | `selectedBase.name` is the constant's declared name: three capital letters. |
| `ConverterView.BaseNameDistinct` | app/src/main/java/com/example/numberconverter/MainActivity.kt:116 | Different bases get different labels. |
| `ConverterView.IsBlank` | app/src/main/java/com/example/numberconverter/MainActivity.kt:101 | The empty text is blank, and text that starts with a digit is never blank. So the `isNotBlank` test always holds for a conversion result. |
| `ConverterView.Labelled` | app/src/main/java/com/example/numberconverter/MainActivity.kt:102-118 | The displayed text starts with the converted text, has the base name in parentheses at the end, and is six characters longer than the converted text. |
| `ConverterView.ResultAreaAsWritten` | app/src/main/java/com/example/numberconverter/MainActivity.kt:100-137 | The result area as the screen code decides it never shows the error message. |
| `ConverterView.RejectedInputShowsNothing` | app/src/main/java/com/example/numberconverter/MainActivity.kt:100-137 | As written, every rejected input leaves the result area empty. |
| `ConverterView.NonNumberShowsNothing` | app/src/main/java/com/example/numberconverter/MainActivity.kt:100-137 | As written, converting "abc" in base BIN shows nothing. |
| `ConverterView.ResultAreaFor` | app/src/main/java/com/example/numberconverter/MainActivity.kt:100-137 | The corrected result area shows the error text exactly when the converted text is the error message. |
| `ConverterView.ResultAreaShowsOutcome` | app/src/main/java/com/example/numberconverter/MainActivity.kt:100-137 | With the corrected result area, rejected input shows the error message and accepted input shows its digits labelled "(BIN)", "(OCT)" or "(HEX)". |
| `ConverterView.ResultAreaAgreesOnSuccess` | app/src/main/java/com/example/numberconverter/MainActivity.kt:100-126 | For accepted input, the corrected result area and the written one show the same thing. |

## Findings

| source | as written | input that shows it | evidently intended | confidence | as-written member | corrected member |
|---|---|---|---|---|---|---|
| app/src/main/java/com/example/numberconverter/MainActivity.kt:100-137 | The outer test at line 100 requires the converted text to differ from the error message. The inner `else if` at line 131 then tests for the error message, so it can never be taken, and the error message is never displayed. | Text "abc" with base BIN: `convertNumber` returns the error message and the result area stays empty. | Show the error message when the conversion is rejected. | high; not executed | `ConverterView.NonNumberShowsNothing` | `ConverterView.ResultAreaShowsOutcome` |

## Left out

- The Android and Compose shell (`MainActivity.onCreate`, `NumberConverterView` layout, `HeaderThemePanel`, `ConverterChoicePanel`, `RadioGroup`, the previews) is not modelled: it is layout, theming and remembered view state. Only the choice made by the result-display condition at lines 100-137 is modelled, in `ConverterView`.
- The view state (input text, selected base, converted text) and its updates are not modelled. This covers clearing the result when the input or base changes (lines 75-76, 81-82) and the button's enabled test (line 94).
- The `convertedText != null` test at line 100 is left out: a Kotlin `String` is never null.
- `Platform.ToIntOrNull` accepts only ASCII digits '0'-'9'. Kotlin also accepts other Unicode decimal digits.
- `Platform.ToIntOrNull` computes the exact value and then checks it against the Int range. Kotlin instead accumulates the value negatively with overflow checks. Both accept and reject the same texts and return the same value.
- `ConverterView.IsBlank` counts only ASCII whitespace. Kotlin's `isBlank` also counts Unicode space separators. No output of `ConvertNumber` contains either kind.
- The Java formatters are modelled by their result, not by their shift-and-mask loop. Negative arguments are modelled through their unsigned 32-bit value, although `convertNumber` never passes one.

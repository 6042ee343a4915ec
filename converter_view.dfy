/** The choice of what the result area of the screen shows for the text
    `convertNumber` returned: the digits labelled with the base, the error
    message, or nothing. Layout, fonts and the rest of the screen are not
    modelled. */
module ConverterView {
  import opened Digits
  import opened NumberConverter

  datatype ResultArea = Empty | ResultText(text: string) | ErrorText(text: string)

  /** `NumberBase.name`: the constant's declared name, three capital
      letters, different for each base. */
  function BaseName(b: NumberBase): (name: string)
    ensures |name| == 3 && forall i :: 0 <= i < 3 ==> 'A' <= name[i] <= 'Z'
  {
    match b
    case BIN => "BIN"
    case OCT => "OCT"
    case HEX => "HEX"
  }

  /** Different bases are labelled differently. */
  lemma BaseNameDistinct(a: NumberBase, b: NumberBase)
    ensures BaseName(a) == BaseName(b) ==> a == b
  {
  }

  /** The ASCII part of Java's `Character.isWhitespace`. */
  predicate IsWhitespace(c: char) {
    c == ' ' || '\t' <= c <= '\r' || '\U{1C}' <= c <= '\U{1F}'
  }

  /** Kotlin's `CharSequence.isBlank()`. The empty text is blank; text that
      starts with a digit is not. */
  predicate IsBlank(s: string)
    ensures s == "" ==> IsBlank(s)
    ensures |s| > 0 && IsDigitOf(s[0], 16) ==> !IsBlank(s)
  {
    forall i :: 0 <= i < |s| ==> IsWhitespace(s[i])
  }

  /** The labelled result: the digits, a space, and the base name in
      parentheses. */
  function Labelled(convertedText: string, selectedBase: NumberBase): (text: string)
    ensures |text| == |convertedText| + 6
    ensures text[..|convertedText|] == convertedText
    ensures text[|text| - 4..|text| - 1] == BaseName(selectedBase)
  {
    convertedText + " (" + BaseName(selectedBase) + ")"
  }

  /** The result area as the screen code decides it: the outer test already
      excludes the error message, so its inner error branch is dead and the
      error message is never shown. */
  function ResultAreaAsWritten(convertedText: string, selectedBase: NumberBase): (area: ResultArea)
    ensures !area.ErrorText?
  {
    if convertedText != "" && convertedText != ErrorMessage then
      if !IsBlank(convertedText) then ResultText(Labelled(convertedText, selectedBase))
      else if convertedText == ErrorMessage then ErrorText(convertedText)
      else Empty
    else Empty
  }

  /** As written, a rejected input leaves the result area empty: typing "abc"
      and pressing the button shows nothing at all. */
  lemma RejectedInputShowsNothing(inputText: string, selectedBase: NumberBase)
    requires !Accepted(inputText)
    ensures ResultAreaAsWritten(ConvertNumber(inputText, selectedBase), selectedBase) == Empty
  {
  }

  /** The concrete case: "abc" in base BIN shows nothing. */
  lemma NonNumberShowsNothing()
    ensures ResultAreaAsWritten(ConvertNumber("abc", BIN), BIN) == Empty
  {
    NonNumericExamples(BIN);
  }

  /** The result area as evidently intended: the error message when the
      conversion was rejected, the labelled digits otherwise. */
  function ResultAreaFor(convertedText: string, selectedBase: NumberBase): (area: ResultArea)
    ensures area.ErrorText? <==> convertedText == ErrorMessage
  {
    if convertedText == "" then Empty
    else if convertedText == ErrorMessage then ErrorText(convertedText)
    else if !IsBlank(convertedText) then ResultText(Labelled(convertedText, selectedBase))
    else Empty
  }

  /** With the intended result area every conversion is visible: rejected
      input shows the error message and accepted input shows its digits
      labelled with the base. */
  lemma ResultAreaShowsOutcome(inputText: string, selectedBase: NumberBase)
    ensures ResultAreaFor(ConvertNumber(inputText, selectedBase), selectedBase) ==
      if Accepted(inputText) then ResultText(Labelled(ConvertNumber(inputText, selectedBase), selectedBase))
      else ErrorText(ErrorMessage)
  {
    var r := ConvertNumber(inputText, selectedBase);
    if Accepted(inputText) {
      assert IsDigitOf(r[0], Radix(selectedBase));
      assert !IsWhitespace(r[0]);
    }
  }

  /** The intended result area differs from the written one only for the
      error message; successful conversions display the same. */
  lemma ResultAreaAgreesOnSuccess(inputText: string, selectedBase: NumberBase)
    requires Accepted(inputText)
    ensures ResultAreaAsWritten(ConvertNumber(inputText, selectedBase), selectedBase) ==
      ResultAreaFor(ConvertNumber(inputText, selectedBase), selectedBase)
  {
    ResultAreaShowsOutcome(inputText, selectedBase);
  }
}

/** `validateInput`: whether the raw text is acceptable for the selected base. */
module Validation {
  import opened Numerals

  /** The base the user types in. */
  datatype InputType = Decimal | Binary

  /** The regular expression `^\d+$`, scanned one character at a time. */
  function MatchesDigits(s: string): (b: bool)
    ensures b <==> |s| > 0 && AllDigits(s)
  {
    |s| > 0 && IsDigit(s[0]) && (|s| == 1 || MatchesDigits(s[1..]))
  }

  /** The regular expression `^[01]+$`, scanned one character at a time. */
  function MatchesBits(s: string): (b: bool)
    ensures b <==> |s| > 0 && AllBits(s)
  {
    |s| > 0 && IsBit(s[0]) && (|s| == 1 || MatchesBits(s[1..]))
  }

  /** The empty text is accepted for either base; otherwise decimal text must be
      all ASCII digits (its parsed value is then never negative) and binary text
      all `0`s and `1`s. */
  function ValidateInput(value: string, inputType: InputType): (ok: bool)
    ensures value == "" ==> ok
    ensures value != "" && inputType == Decimal ==> (ok <==> AllDigits(value))
    ensures value != "" && inputType == Binary ==> (ok <==> AllBits(value))
  {
    if value == "" then true
    else if inputType == Decimal then MatchesDigits(value) && ParseDecimal(value) >= 0
    else MatchesBits(value)
  }

  /** The validator's examples: the empty text, "101", "42" accepted; "102" as
      binary and "12a" as decimal rejected. */
  lemma ValidateExamples()
    ensures ValidateInput("", Decimal) && ValidateInput("", Binary)
    ensures ValidateInput("101", Binary) && ValidateInput("42", Decimal)
    ensures !ValidateInput("102", Binary)
    ensures !ValidateInput("12a", Decimal)
  {
  }
}

/** Converting a number to binary and the binary text back gives the number. */
module RoundTrip {
  import opened Numerals
  import opened DecimalInput
  import opened BinaryInput

  lemma {:induction false} BinaryDigitsValue(n: nat)
    ensures AllDigits(BinaryDigits(n))
    ensures BinaryValue(BinaryDigits(n)) == n
  {
    var s := BinaryDigits(n);
    BitsAreDigits(s);
    if n > 0 {
      assert s[..|s| - 1] == BinaryDigits(n / 2);
      BinaryDigitsValue(n / 2);
    }
  }

  /** For every n, the binary text decimal-to-binary returns reads back as n. */
  lemma ToBinaryRoundTrip(n: nat)
    ensures AllDigits(ToBinary(n))
    ensures BinaryValue(ToBinary(n)) == n
  {
    if n == 0 {
      assert "0"[..0] == "";
    } else {
      BinaryDigitsValue(n);
    }
  }

  /** Running both loops one after the other: binary-to-decimal of the binary
      text from decimal-to-binary gives back the number. */
  method ConvertAndBack(n: nat) returns (m: nat)
    ensures m == n
  {
    var binary, _ := DecimalToBinary(n);
    ToBinaryRoundTrip(n);
    var decimal, _ := BinaryToDecimal(binary);
    m := decimal;
  }
}

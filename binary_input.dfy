/** `binaryToDecimal`: a left-to-right scan that weighs each character by its
    power of two and keeps a running total, with one recorded step per character. */
module BinaryInput {
  import opened Numerals
  import opened Steps

  /** The value of a numeral read in base two, most significant digit first
      (Horner's rule); the reference the scan is checked against. */
  function BinaryValue(s: string): nat
    requires AllDigits(s)
  {
    if s == [] then 0 else 2 * BinaryValue(s[..|s| - 1]) + DigitValue(s[|s| - 1])
  }

  /** `bit * Math.pow(2, power)` for position i: a `0` adds nothing, a `1` adds
      two to the power of the places after it. */
  function PlaceValue(s: string, i: nat): (v: nat)
    requires AllDigits(s) && i < |s|
    ensures v == 0 <==> s[i] == '0'
    ensures s[i] == '1' ==> v == Pow2(|s| - 1 - i)
  {
    var d, p := DigitValue(s[i]), Pow2(|s| - 1 - i);
    assert d >= 1 ==> d * p >= p;
    d * p
  }

  /** The running total after the first k positions; it is 0 exactly when they
      are all `0`. */
  function SumPlaces(s: string, k: nat): (r: nat)
    requires AllDigits(s) && k <= |s|
    ensures r == 0 <==> forall j :: 0 <= j < k ==> s[j] == '0'
  {
    if k == 0 then 0 else SumPlaces(s, k - 1) + PlaceValue(s, k - 1)
  }

  /** The sum of the `value` fields of a list of steps. */
  function SumValues(t: seq<PowerStep>): nat {
    if t == [] then 0 else SumValues(t[..|t| - 1]) + t[|t| - 1].value
  }

  /** The steps `binaryToDecimal` records, one per character, left to right. */
  function PowerTrace(s: string): (t: seq<PowerStep>)
    requires AllDigits(s)
    ensures |t| == |s|
  {
    seq(|s|, i requires 0 <= i < |s| =>
      PowerStep(i + 1, DigitValue(s[i]), |s| - 1 - i, PlaceValue(s, i), SumPlaces(s, i + 1)))
  }

  /** Step i is numbered i + 1, carries the digit at position i, the power
      `|s| - 1 - i`, and the value digit × 2^power. */
  lemma PowerTraceShape(s: string)
    requires AllDigits(s)
    ensures var t := PowerTrace(s);
      |t| == |s| &&
      forall i :: 0 <= i < |t| ==>
        t[i].index == i + 1 && t[i].bit == DigitValue(s[i]) && t[i].power == |s| - 1 - i &&
        t[i].value == t[i].bit * Pow2(t[i].power)
  {
  }

  lemma {:induction false} SumValuesIsSumPlaces(s: string, k: nat)
    requires AllDigits(s) && k <= |s|
    ensures SumValues(PowerTrace(s)[..k]) == SumPlaces(s, k)
  {
    if k > 0 {
      var t := PowerTrace(s);
      assert t[..k][..k - 1] == t[..k - 1];
      SumValuesIsSumPlaces(s, k - 1);
    }
  }

  /** The running total of step i is the sum of the values of steps 0..i. */
  lemma RunningTotals(s: string)
    requires AllDigits(s)
    ensures var t := PowerTrace(s);
      forall i :: 0 <= i < |t| ==> t[i].total == SumValues(t[..i + 1])
  {
    forall i | 0 <= i < |s|
      ensures PowerTrace(s)[i].total == SumValues(PowerTrace(s)[..i + 1])
    {
      SumValuesIsSumPlaces(s, i + 1);
    }
  }

  lemma {:induction false} SumPlacesMonotone(s: string, j: nat, k: nat)
    requires AllDigits(s) && j <= k <= |s|
    ensures SumPlaces(s, j) <= SumPlaces(s, k)
  {
    if j < k {
      SumPlacesMonotone(s, j, k - 1);
    }
  }

  /** The running total never decreases. */
  lemma TotalsNeverDecrease(s: string)
    requires AllDigits(s)
    ensures var t := PowerTrace(s);
      forall i, j :: 0 <= i <= j < |t| ==> t[i].total <= t[j].total
  {
    forall i, j | 0 <= i <= j < |s|
      ensures PowerTrace(s)[i].total <= PowerTrace(s)[j].total
    {
      SumPlacesMonotone(s, i + 1, j + 1);
    }
  }

  /** Appending a digit doubles the weight of every earlier position. */
  lemma {:induction false} SumPlacesAppend(s: string, c: char, k: nat)
    requires AllDigits(s) && IsDigit(c) && k <= |s|
    ensures AllDigits(s + [c])
    ensures SumPlaces(s + [c], k) == 2 * SumPlaces(s, k)
  {
    if k > 0 {
      SumPlacesAppend(s, c, k - 1);
      PlaceValueAppend(s, c, k - 1);
      assert SumPlaces(s + [c], k) == SumPlaces(s + [c], k - 1) + PlaceValue(s + [c], k - 1);
    }
  }

  lemma PlaceValueAppend(s: string, c: char, i: nat)
    requires AllDigits(s) && IsDigit(c) && i < |s|
    ensures AllDigits(s + [c])
    ensures PlaceValue(s + [c], i) == 2 * PlaceValue(s, i)
  {
    var s' := s + [c];
    var d := DigitValue(s[i]);
    var p := Pow2(|s| - 1 - i);
    assert s'[i] == s[i];
    assert Pow2(|s'| - 1 - i) == 2 * p;
    assert d * (2 * p) == 2 * (d * p);
  }

  /** Summing the positional weights gives the same value as Horner's rule. */
  lemma {:induction false} SumPlacesIsBinaryValue(s: string)
    requires AllDigits(s)
    ensures SumPlaces(s, |s|) == BinaryValue(s)
  {
    if s != [] {
      var init := s[..|s| - 1];
      var c := s[|s| - 1];
      assert s == init + [c];
      SumPlacesAppend(init, c, |init|);
      SumPlacesIsBinaryValue(init);
    }
  }

  /** The loop of `binaryToDecimal`: for each character, left to right, weigh its
      digit by two to the power of the places after it, add it to the running
      total and append one step. */
  method BinaryToDecimal(binary: string) returns (decimal: nat, steps: seq<PowerStep>)
    requires AllDigits(binary)
    ensures steps == PowerTrace(binary)
    ensures decimal == BinaryValue(binary)
    ensures decimal == if steps == [] then 0 else steps[|steps| - 1].total
  {
    steps := [];
    decimal := 0;
    var length := |binary|;
    for i := 0 to length
      invariant steps == PowerTrace(binary)[..i]
      invariant decimal == SumPlaces(binary, i)
    {
      var bit := DigitValue(binary[i]);
      var power := length - 1 - i;
      var value := bit * Pow2(power);
      decimal := decimal + value;
      assert PowerTrace(binary)[..i + 1] == PowerTrace(binary)[..i] + [PowerTrace(binary)[i]];
      steps := steps + [PowerStep(i + 1, bit, power, value, decimal)];
    }
    assert PowerTrace(binary)[..length] == PowerTrace(binary);
    SumPlacesIsBinaryValue(binary);
  }

  /** The worked example "1010": running totals 8, 8, 10, 10 and value 10. */
  lemma ExampleTen()
    ensures AllDigits("1010")
    ensures var t := PowerTrace("1010");
      t[0].total == 8 && t[1].total == 8 && t[2].total == 10 && t[3].total == 10
    ensures BinaryValue("1010") == 10
  {
    var s := "1010";
    assert s[..3] == "101" && s[..2] == "10" && s[..1] == "1";
    assert BinaryValue("1") == 1 && BinaryValue("10") == 2 && BinaryValue("101") == 5;
  }

  /** "0" has the one step 0 × 2^0 = 0 with total 0; "" has no step and value 0. */
  lemma ExampleZeroAndEmpty()
    ensures AllDigits("0") && AllDigits("")
    ensures PowerTrace("0") == [PowerStep(1, 0, 0, 0, 0)] && BinaryValue("0") == 0
    ensures PowerTrace("") == [] && BinaryValue("") == 0
  {
  }
}

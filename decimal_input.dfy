/** `decimalToBinary`: conversion by repeated division by two, with one
    recorded step per division. */
module DecimalInput {
  import opened Numerals
  import opened Steps

  /** The number of divisions by two that bring n down to 0. */
  function BitLength(n: nat): nat {
    if n == 0 then 0 else 1 + BitLength(n / 2)
  }

  /** For n > 0 the division count is floor(log2 n) + 1. */
  lemma {:induction false} BitLengthBounds(n: nat)
    requires n > 0
    ensures Pow2(BitLength(n) - 1) <= n < Pow2(BitLength(n))
  {
    if n > 1 {
      BitLengthBounds(n / 2);
      assert BitLength(n) == BitLength(n / 2) + 1;
    }
  }

  /** The divisions the loop performs starting from `num`, the first one numbered `index`. */
  function Divisions(num: nat, index: nat): (t: seq<DivisionStep>)
    ensures |t| == BitLength(num)
    decreases num
  {
    if num == 0 then []
    else [DivisionStep(index, num, num / 2, num % 2)] + Divisions(num / 2, index + 1)
  }

  /** Every division step is numbered in order, records a positive number with its
      quotient and remainder by two, and hands its quotient to the next step; the
      first step starts at `num` and the last ends with quotient 0. */
  lemma {:induction false} DivisionsShape(num: nat, index: nat)
    ensures var t := Divisions(num, index);
      (forall i :: 0 <= i < |t| ==>
        t[i].index == index + i && t[i].num > 0 &&
        t[i].quotient == t[i].num / 2 && t[i].remainder == t[i].num % 2) &&
      (num > 0 ==> t[0].num == num && t[|t| - 1].quotient == 0) &&
      (forall i :: 0 < i < |t| ==> t[i].num == t[i - 1].quotient)
  {
    if num > 0 {
      var t := Divisions(num, index);
      var rest := Divisions(num / 2, index + 1);
      assert t == [t[0]] + rest;
      DivisionsShape(num / 2, index + 1);
      forall i | 0 < i < |t| ensures t[i] == rest[i - 1] { }
    }
  }

  /** The steps `decimalToBinary` records: for 0 the single step `0 ÷ 2 = 0`.
      There is always a step; the first is numbered 1 and records n, and the
      last has quotient 0. */
  function DivisionTrace(n: nat): (t: seq<DivisionStep>)
    ensures |t| == if n == 0 then 1 else BitLength(n)
    ensures t[0].index == 1 && t[0].num == n && t[|t| - 1].quotient == 0
  {
    if n == 0 then [DivisionStep(1, 0, 0, 0)]
    else
      DivisionsShape(n, 1);
      Divisions(n, 1)
  }

  /** The base-two numeral of n without leading zeros, most significant bit first
      (empty for 0). */
  function BinaryDigits(n: nat): (s: string)
    ensures |s| == BitLength(n) && AllBits(s)
    ensures n > 0 ==> s[0] == '1'
  {
    if n == 0 then "" else BinaryDigits(n / 2) + [DigitChar(n % 2)]
  }

  /** The binary text `decimalToBinary` returns: one `0`/`1` per step, starting
      with `1` unless n is 0. */
  function ToBinary(n: nat): (s: string)
    ensures |s| == |DivisionTrace(n)| && AllBits(s)
    ensures s[0] == if n == 0 then '0' else '1'
  {
    if n == 0 then "0" else BinaryDigits(n)
  }

  function Remainders(t: seq<DivisionStep>): seq<nat> {
    seq(|t|, i requires 0 <= i < |t| => t[i].remainder)
  }

  function Reverse<T>(s: seq<T>): seq<T> {
    if s == [] then [] else Reverse(s[1..]) + [s[0]]
  }

  /** `Array.prototype.join('')` over numbers: their decimal texts, concatenated.
      Numbers below ten give one digit each. */
  function Join(rs: seq<nat>): (s: string)
    ensures AllDigits(s)
    ensures (forall i :: 0 <= i < |rs| ==> rs[i] < 10) ==>
      |s| == |rs| && forall i :: 0 <= i < |rs| ==> s[i] == DigitChar(rs[i])
  {
    if rs == [] then "" else NatToString(rs[0]) + Join(rs[1..])
  }

  lemma {:induction false} JoinAppend(xs: seq<nat>, ys: seq<nat>)
    ensures Join(xs + ys) == Join(xs) + Join(ys)
  {
    if xs != [] {
      assert (xs + ys)[1..] == xs[1..] + ys;
      JoinAppend(xs[1..], ys);
    } else {
      assert xs + ys == ys;
    }
  }

  lemma {:induction false} ReverseAppend<T>(xs: seq<T>, x: T)
    ensures Reverse(xs + [x]) == [x] + Reverse(xs)
  {
    if xs != [] {
      assert (xs + [x])[1..] == xs[1..] + [x];
      ReverseAppend(xs[1..], x);
    } else {
      assert xs + [x] == [x];
    }
  }

  /** Putting a new remainder in front of the collected ones keeps them the
      reverse of the recorded steps' remainders. */
  lemma CollectRemainder(steps: seq<DivisionStep>, step: DivisionStep)
    ensures [step.remainder] + Reverse(Remainders(steps)) == Reverse(Remainders(steps + [step]))
  {
    assert Remainders(steps + [step]) == Remainders(steps) + [step.remainder];
    ReverseAppend(Remainders(steps), step.remainder);
  }

  lemma RecordDivision(steps: seq<DivisionStep>, num: nat, index: nat)
    requires num > 0
    ensures steps + Divisions(num, index)
      == (steps + [DivisionStep(index, num, num / 2, num % 2)]) + Divisions(num / 2, index + 1)
  {
  }

  /** Zero is a special case: text "0" and the one step `0 ÷ 2 = 0`, remainder 0, step 1. */
  lemma ZeroConversion()
    ensures ToBinary(0) == "0"
    ensures DivisionTrace(0) == [DivisionStep(1, 0, 0, 0)]
    ensures RenderDivision(DivisionTrace(0)[0]) == ConversionStep("1", "0 ÷ 2 = 0", "Remainder: 0")
  {
  }

  /** For n > 0 the trace starts at n, numbers its steps 1..k, divides each
      step's number by two, feeds each quotient to the next step and ends
      with quotient 0; k is floor(log2 n) + 1. */
  lemma TraceShape(n: nat)
    requires n > 0
    ensures var t := DivisionTrace(n);
      |t| == BitLength(n) && t[0].num == n && t[|t| - 1].quotient == 0 &&
      (forall i :: 0 <= i < |t| ==>
        t[i].index == i + 1 && t[i].quotient == t[i].num / 2 && t[i].remainder == t[i].num % 2) &&
      (forall i :: 0 < i < |t| ==> t[i].num == t[i - 1].quotient)
    ensures Pow2(|DivisionTrace(n)| - 1) <= n < Pow2(|DivisionTrace(n)|)
  {
    BitLengthBounds(n);
    DivisionsShape(n, 1);
  }

  /** The remainders of the divisions, read from the last division back to the
      first, spell the binary text of the number. */
  lemma {:induction false} RemaindersSpellBinary(num: nat, index: nat)
    ensures Join(Reverse(Remainders(Divisions(num, index)))) == BinaryDigits(num)
  {
    if num > 0 {
      var t := Divisions(num, index);
      var rest := Divisions(num / 2, index + 1);
      assert t == [t[0]] + rest;
      var rs := Remainders(t);
      assert rs[1..] == Remainders(rest);
      assert rs != [] && rs[0] == num % 2;
      assert Reverse(rs) == Reverse(rs[1..]) + [rs[0]];
      JoinAppend(Reverse(Remainders(rest)), [num % 2]);
      RemaindersSpellBinary(num / 2, index + 1);
    } else {
      assert Remainders(Divisions(num, index)) == [];
    }
  }

  /** For n > 0 the binary text has one character per step and starts with `1`. */
  lemma BinaryLengthMatchesSteps(n: nat)
    requires n > 0
    ensures |ToBinary(n)| == |DivisionTrace(n)| && ToBinary(n)[0] == '1'
    ensures AllBits(ToBinary(n))
  {
  }

  /** The loop of `decimalToBinary`: divide by two while the number is positive,
      put each remainder in front of the collected ones and append one step per
      division. */
  method DecimalToBinary(decimal: nat) returns (binary: string, steps: seq<DivisionStep>)
    ensures steps == DivisionTrace(decimal)
    ensures binary == ToBinary(decimal)
    ensures binary == Join(Reverse(Remainders(steps)))
  {
    if decimal == 0 {
      steps := [DivisionStep(1, 0, 0, 0)];
      assert Reverse(Remainders(steps)) == [0];
      return "0", steps;
    }
    steps := [];
    var num := decimal;
    var stepCount := 1;
    var remainders: seq<nat> := [];
    while num > 0
      invariant stepCount == |steps| + 1
      invariant steps + Divisions(num, stepCount) == Divisions(decimal, 1)
      invariant remainders == Reverse(Remainders(steps))
    {
      var quotient := num / 2;
      var remainder := num % 2;
      CollectRemainder(steps, DivisionStep(stepCount, num, quotient, remainder));
      RecordDivision(steps, num, stepCount);
      remainders := [remainder] + remainders;
      steps := steps + [DivisionStep(stepCount, num, quotient, remainder)];
      num := quotient;
      stepCount := stepCount + 1;
    }
    assert steps == Divisions(decimal, 1);
    binary := Join(remainders);
    RemaindersSpellBinary(decimal, 1);
  }

  /** The worked example 10: text "1010" after four divisions. */
  lemma ExampleTen()
    ensures ToBinary(10) == "1010"
    ensures DivisionTrace(10) == [DivisionStep(1, 10, 5, 0), DivisionStep(2, 5, 2, 1),
                                  DivisionStep(3, 2, 1, 0), DivisionStep(4, 1, 0, 1)]
  {
  }

  /** The worked example 255: eight divisions, text "11111111". */
  lemma ExampleTwoFiftyFive()
    ensures ToBinary(255) == "11111111" && |DivisionTrace(255)| == 8
  {
    assert BinaryDigits(15) == "1111";
  }
}

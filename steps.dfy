/** The steps the converter records. The page keeps each step as three display
    strings (`ConversionStep`); the model keeps the numbers the strings are made
    of and renders them separately. */
module Steps {
  import opened Numerals

  /** One division of decimal-to-binary: `num ÷ 2 = quotient`, `Remainder: remainder`. */
  datatype DivisionStep = DivisionStep(index: nat, num: nat, quotient: nat, remainder: nat)

  /** One bit of binary-to-decimal: `bit × 2^power = value`, `Running total: total`. */
  datatype PowerStep = PowerStep(index: nat, bit: nat, power: nat, value: nat, total: nat)

  /** The record shown on the page: the step number, the calculation and its result. */
  datatype ConversionStep = ConversionStep(step: string, calculation: string, result: string)

  const RemainderPrefix: string := "Remainder: "
  const TotalPrefix: string := "Running total: "
  const DivideBy2: string := " ÷ 2 = "
  const TimesPow2: string := " × 2^"
  const Equals: string := " = "

  /** `${num} ÷ 2 = ${quotient}`: the calculation field of `RenderDivision`. */
  function DivisionCalculation(d: DivisionStep): string {
    NatToString(d.num) + DivideBy2 + NatToString(d.quotient)
  }

  /** `${bit} × 2^${power} = ${value}`: the calculation field of `RenderPower`. */
  function PowerCalculation(p: PowerStep): string {
    NatToString(p.bit) + TimesPow2 + NatToString(p.power) + Equals + NatToString(p.value)
  }

  /** The display record of a division step: its step number, the number and
      quotient in its calculation, and its remainder can be read back. */
  function RenderDivision(d: DivisionStep): (c: ConversionStep)
    ensures AllDigits(c.step) && ParseDecimal(c.step) == d.index
    ensures exists a, b ::
      (c.calculation == a + DivideBy2 + b &&
       AllDigits(a) && AllDigits(b) && ParseDecimal(a) == d.num && ParseDecimal(b) == d.quotient)
    ensures |c.result| > |RemainderPrefix| && c.result[..|RemainderPrefix|] == RemainderPrefix
    ensures AllDigits(c.result[|RemainderPrefix|..])
    ensures ParseDecimal(c.result[|RemainderPrefix|..]) == d.remainder
  {
    ParseNatToString(d.index);
    ParseNatToString(d.num);
    ParseNatToString(d.quotient);
    ParseNatToString(d.remainder);
    var r := RemainderPrefix + NatToString(d.remainder);
    assert r[|RemainderPrefix|..] == NatToString(d.remainder);
    ConversionStep(NatToString(d.index), DivisionCalculation(d), r)
  }

  /** The display record of a bit step: its step number, the bit, power and
      value in its calculation, and its running total can be read back. */
  function RenderPower(p: PowerStep): (c: ConversionStep)
    ensures AllDigits(c.step) && ParseDecimal(c.step) == p.index
    ensures exists a, b, e ::
      (c.calculation == a + TimesPow2 + b + Equals + e &&
       AllDigits(a) && AllDigits(b) && AllDigits(e) &&
       ParseDecimal(a) == p.bit && ParseDecimal(b) == p.power && ParseDecimal(e) == p.value)
    ensures |c.result| > |TotalPrefix| && c.result[..|TotalPrefix|] == TotalPrefix
    ensures AllDigits(c.result[|TotalPrefix|..])
    ensures ParseDecimal(c.result[|TotalPrefix|..]) == p.total
  {
    ParseNatToString(p.index);
    ParseNatToString(p.bit);
    ParseNatToString(p.power);
    ParseNatToString(p.value);
    ParseNatToString(p.total);
    var r := TotalPrefix + NatToString(p.total);
    assert r[|TotalPrefix|..] == NatToString(p.total);
    ConversionStep(NatToString(p.index), PowerCalculation(p), r)
  }

  lemma RegroupTail(x: string, y: string, z: string, u: string, v: string)
    ensures x + y + z + u + v == x + y + (z + u + v)
  {
  }

  /** However a division's calculation text is split into digits, `" ÷ 2 = "` and
      digits, the two numbers read are the step's number and quotient. */
  lemma ReadDivisionCalculation(d: DivisionStep, a: string, b: string)
    requires AllDigits(a) && AllDigits(b)
    requires DivisionCalculation(d) == a + DivideBy2 + b
    ensures ParseDecimal(a) == d.num && ParseDecimal(b) == d.quotient
  {
    ParseNatToString(d.num);
    ParseNatToString(d.quotient);
    SplitAtSeparator(a, DivideBy2, b, NatToString(d.num), NatToString(d.quotient));
  }

  /** However a bit step's calculation text is split into digits, `" × 2^"`,
      digits, `" = "` and digits, the three numbers read are the step's bit,
      power and value. */
  lemma ReadPowerCalculation(p: PowerStep, a: string, b: string, e: string)
    requires AllDigits(a) && AllDigits(b) && AllDigits(e)
    requires PowerCalculation(p) == a + TimesPow2 + b + Equals + e
    ensures ParseDecimal(a) == p.bit && ParseDecimal(b) == p.power && ParseDecimal(e) == p.value
  {
    ParseNatToString(p.bit);
    ParseNatToString(p.power);
    ParseNatToString(p.value);
    var bit, power, value := NatToString(p.bit), NatToString(p.power), NatToString(p.value);
    RegroupTail(a, TimesPow2, b, Equals, e);
    RegroupTail(bit, TimesPow2, power, Equals, value);
    SplitAtSeparator(a, TimesPow2, b + Equals + e, bit, power + Equals + value);
    SplitAtSeparator(b, Equals, e, power, value);
  }
}

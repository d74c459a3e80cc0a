# Decimal/binary converter engine, in Dafny

This project models the conversion engine of a small decimal/binary converter
web page (`app/page.tsx`). The engine has three parts:

- `validateInput` decides whether raw text is acceptable for the selected base.
  The empty text is always accepted. Decimal text must match `^\d+$`. Binary
  text must match `^[01]+$`.
- `decimalToBinary` divides by two until the number is 0. Each division is
  recorded as a step (`num ÷ 2 = quotient`, `Remainder: r`). Each remainder is
  put in front of the ones already collected, and those remainders joined give
  the binary text. Zero is a special case: text `"0"` and one step.
- `binaryToDecimal` scans the text left to right. The character at position i
  is weighed by `2^(L-1-i)`, the digit times its weight is added to a running
  total, and one step is recorded per character (`bit × 2^power = value`, `Running total: t`).

Modules:

- `Numerals`: ASCII digits and bits, `parseInt` of digit strings
  (`ParseDecimal`), `toString` of naturals (`NatToString`), `Math.pow(2, k)`
  (`Pow2`).
- `Steps`: the `ConversionStep` record the page shows. The numeric steps are
  `DivisionStep(index, num, quotient, remainder)` and
  `PowerStep(index, bit, power, value, total)`. Two functions render them into
  the page's text.
- `Validation`: `validateInput`, with each regular expression modelled as a
  scan over the characters.
- `DecimalInput`: the `decimalToBinary` loop as the method `DecimalToBinary`.
  It is proved against `DivisionTrace`/`Divisions` (the steps) and
  `BinaryDigits`/`ToBinary` (the text).
- `BinaryInput`: the `binaryToDecimal` loop as the method `BinaryToDecimal`.
  It is proved against `PowerTrace` (the steps), and its result against
  `BinaryValue`, Horner's-rule reading of a base-two numeral.
- `RoundTrip`: binary-to-decimal of the decimal-to-binary text gives back the number.

Numbers are unbounded naturals, and `/` and `%` are exact. Each method returns
the numeric steps. The page's list of `ConversionStep` records is those steps
mapped through `RenderDivision` or `RenderPower`.

`binaryToDecimal` does not check its input itself: it runs `parseInt` on each
character. On `'0'`..`'9'` that gives the digit's value, so the model accepts any
string of ASCII digits (`AllDigits`), not only `0`/`1`. A binary input that
passed validation is one such string.

## Model

| member | source | states |
|---|---|---|
| `Numerals.ParseDecimal` | app/page.tsx:29 | `parseInt` of an all-digit string is never negative, so the `parseInt(value) >= 0` conjunct of decimal validation always holds |
| `Numerals.NatToString` | app/page.tsx:49-51 | the text of a number is non-empty, all ASCII digits, and has no leading zero |
| `Numerals.ParseNatToString` | app/page.tsx:49-51 | reading back the text a number is written as gives the number |
| `Numerals.DigitValue` | app/page.tsx:67 | `parseInt` of one digit character gives a number below ten |
| `Numerals.DigitChar` | app/page.tsx:58 | the character written for a number below ten is the ASCII digit that reads back as that number, and a `0`/`1` for a number below two |
| `Numerals.Pow2` | app/page.tsx:69 | every power of two is at least 1 |
| `Steps.RenderDivision` | app/page.tsx:48-52 | the rendered step number reads back as the step's index; the calculation is digits, ` ÷ 2 = `, digits, reading back as the number and the quotient; the result is `Remainder: ` followed by text that reads back as the remainder |
| `Steps.RenderPower` | app/page.tsx:72-76 | the rendered step number reads back as the step's index; the calculation is digits, ` × 2^`, digits, ` = `, digits, reading back as the bit, the power and the value; the result is `Running total: ` followed by text that reads back as the running total |
| `Steps.ReadDivisionCalculation` | app/page.tsx:50 | every way of splitting a division's calculation text (`DivisionCalculation`, the `calculation` field of `RenderDivision`) into digits, ` ÷ 2 = ` and digits reads back the step's number and quotient, so the text is unambiguous |
| `Steps.ReadPowerCalculation` | app/page.tsx:74 | every way of splitting a bit step's calculation text (`PowerCalculation`, the `calculation` field of `RenderPower`) into digits, ` × 2^`, digits, ` = ` and digits reads back the step's bit, power and value |
| `Validation.MatchesDigits` | app/page.tsx:29 | `^\d+$` matches exactly the non-empty strings of ASCII digits |
| `Validation.MatchesBits` | app/page.tsx:31 | `^[01]+$` matches exactly the non-empty strings of `0`s and `1`s |
| `Validation.ValidateInput` | app/page.tsx:25-33 | the empty text is valid for both bases; non-empty text is decimal-valid iff every character is `0`..`9`, and binary-valid iff every character is `0` or `1` |
| `Validation.ValidateExamples` | app/page.tsx:25-33 | `""` is valid for both bases, `"101"` as binary and `"42"` as decimal are valid, `"102"` as binary and `"12a"` as decimal are not |
| `DecimalInput.BitLengthBounds` | app/page.tsx:43-56 | for n > 0 the number of divisions k satisfies 2^(k-1) <= n < 2^k, that is k = floor(log2 n) + 1 |
| `DecimalInput.Divisions` | app/page.tsx:43-56 | the loop performs one division per halving that brings the number to 0 |
| `DecimalInput.DivisionsShape` | app/page.tsx:43-56 | steps are numbered consecutively from the first index; each records a positive number with its quotient and remainder by two; each later step's number is the previous quotient; the first step starts at the given number and the last has quotient 0 |
| `DecimalInput.DivisionTrace` | app/page.tsx:36-56 | the steps `decimalToBinary` records: 1 step for 0, floor(log2 n) + 1 otherwise; the first is numbered 1 and records n, the last has quotient 0 |
| `DecimalInput.BinaryDigits` | app/page.tsx:46 | the binary text of n has one character per division, only `0`/`1`, and starts with `1` when n > 0 |
| `DecimalInput.ToBinary` | app/page.tsx:36-58 | the returned text has one `0`/`1` per step and starts with `1`, or is `0` for n = 0 |
| `DecimalInput.Join` | app/page.tsx:58 | joining numbers gives ASCII digits, and numbers below ten give one digit each, in order |
| `DecimalInput.ZeroConversion` | app/page.tsx:36 | 0 converts to `"0"` with the single step numbered 1 recording `0 ÷ 2 = 0`, remainder 0, rendered exactly as on the page |
| `DecimalInput.TraceShape` | app/page.tsx:43-56 | for n > 0: step 1 records n, steps are numbered 1..k, each records quotient num / 2 and remainder num % 2, each later number is the previous quotient, the last quotient is 0, and 2^(k-1) <= n < 2^k |
| `DecimalInput.RemaindersSpellBinary` | app/page.tsx:46 | the remainders read from the last division back to the first, joined, spell the binary text |
| `DecimalInput.BinaryLengthMatchesSteps` | app/page.tsx:58 | for n > 0 the binary text has exactly as many characters as there are steps, starts with `1`, and holds only `0`/`1` |
| `DecimalInput.DecimalToBinary` | app/page.tsx:35-59 | the loop returns exactly the specified steps and binary text, and for every n, 0 included, the text is its own steps' remainders in reverse order, joined |
| `DecimalInput.ExampleTen` | app/page.tsx:35-59 | 10 converts to `"1010"` through the divisions 10, 5, 2, 1 with remainders 0, 1, 0, 1 |
| `DecimalInput.ExampleTwoFiftyFive` | app/page.tsx:35-59 | 255 converts to `"11111111"` in eight steps |
| `BinaryInput.PlaceValue` | app/page.tsx:67-69 | a position's value is 0 exactly when its character is `0`, and two to the power of the places after it when the character is `1` |
| `BinaryInput.SumPlaces` | app/page.tsx:70 | the running total after the first k positions is 0 exactly when those positions are all `0` |
| `BinaryInput.PowerTrace` | app/page.tsx:66-77 | the scan records exactly one step per character |
| `BinaryInput.PowerTraceShape` | app/page.tsx:64-69 | step i is numbered i + 1, carries the digit at position i and the power `L-1-i`, and its value is digit × 2^power |
| `BinaryInput.RunningTotals` | app/page.tsx:70-75 | the running total of step i is the sum of the values of steps 0..i |
| `BinaryInput.TotalsNeverDecrease` | app/page.tsx:70-75 | the running totals never decrease from one step to a later one |
| `BinaryInput.SumPlacesIsBinaryValue` | app/page.tsx:66-70 | adding up digit × 2^(L-1-i) over all positions gives the value of the numeral read in base two |
| `BinaryInput.BinaryToDecimal` | app/page.tsx:61-80 | the loop returns exactly the specified steps; the decimal is the value of the numeral in base two, and equals the last step's running total, or 0 with no steps for empty text |
| `BinaryInput.ExampleTen` | app/page.tsx:61-80 | `"1010"` has running totals 8, 8, 10, 10 and value 10 |
| `BinaryInput.ExampleZeroAndEmpty` | app/page.tsx:61-80 | `"0"` has the one step 0 × 2^0 = 0 with total 0; the empty text has no steps and value 0 |
| `RoundTrip.BinaryDigitsValue` | app/page.tsx:46 | the bits collected for n, read in base two, give n |
| `RoundTrip.ToBinaryRoundTrip` | app/page.tsx:35-80 | for every natural n, the binary text of n read back in base two is n |
| `RoundTrip.ConvertAndBack` | app/page.tsx:35-80 | running `DecimalToBinary` and then `BinaryToDecimal` on its text returns the original number |

## Left out

- React state and hooks (`useState` fields, `handleConvert`, `handleInputChange`, `switchInputType`, the `useEffect`, app/page.tsx:18-23, 82-108, 125-134) are left out. They are re-rendering plumbing that depends on React's asynchronous state updates, not engine logic. So the `parseInt(inputValue)` that feeds `decimalToBinary` from the text box is not modelled either.
- `copyToClipboard` (app/page.tsx:110-116) is left out: it is browser clipboard I/O and a timer.
- `handleClear` (app/page.tsx:118-123) is left out: it only resets UI state.
- JSX, styling and animation (app/page.tsx:136-466) are left out: they are presentation only.
- JavaScript `number` arithmetic is modelled on unbounded naturals. `Math.floor(num / 2)`, `num % 2` and `Math.pow(2, power)` are exact, and there is no loss of precision above 2^53 in `parseInt`, in the division loop or in the sums.
- The regular-expression engine is not modelled. `^\d+$` and `^[01]+$` are per-character scans; `\d` is the ASCII digit class `[0-9]`.
- `BinaryInput.BinaryToDecimal`: the model requires every character to be an ASCII digit. On any other character the source's `parseInt` gives `NaN` and the result becomes `NaN`. That path cannot be expressed on naturals. The page only calls the function on text that passed binary validation.
- The step records hold numbers, not the page's strings. `Steps.RenderDivision` and `Steps.RenderPower` give the strings.
- Overflow of JavaScript numbers on input that passed validation is not modelled: the model's naturals never overflow. From the code, not executed:
  - A decimal text above about 1.8e308 makes `parseInt` give `Infinity`, and `while (num > 0)` then never ends, because `Math.floor(Infinity / 2)` is `Infinity` (app/page.tsx:43-44).
  - In binary text longer than 1024 characters, `Math.pow(2, power)` is `Infinity` for the first positions. A `0` there gives `0 * Infinity`, which is `NaN`, so the result is `NaN` (app/page.tsx:69-70).
  - From 1e21 on, the `${num}` template writes numbers in exponent notation, which `NatToString` does not model (app/page.tsx:50).
- Validation has no hidden state, so calling it twice gives the same answer. This holds of every Dafny function, so no lemma states it.

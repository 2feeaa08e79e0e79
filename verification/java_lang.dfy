/**
 * The pieces of `java.lang` the helper relies on: the widths of its primitive
 * types, the exceptions it can throw, and the decimal text that string
 * concatenation produces for an `int` or a `long`.
 */
module JavaLang {
  import opened Wrappers

  /** Java `int` (the partition index of a Kafka topic partition). */
  type Int = x: int | -0x8000_0000 <= x < 0x8000_0000

  /** Java `long` (epic numbers and log offsets). */
  type Long = x: int | -0x8000_0000_0000_0000 <= x < 0x8000_0000_0000_0000

  /** Java `byte`, which is signed. */
  type Byte = x: int | -0x80 <= x < 0x80

  /** The exceptions thrown by the operations of the model. */
  datatype Exception =
    | NullPointer
    | IllegalArgument
    | IllegalState(message: string)
    | ConcurrentModification

  predicate IsDigit(c: char) {
    '0' <= c <= '9'
  }

  predicate AllDigits(s: string) {
    forall i :: 0 <= i < |s| ==> IsDigit(s[i])
  }

  function DigitChar(d: nat): (c: char)
    requires d < 10
    ensures IsDigit(c)
  {
    ('0' as int + d) as char
  }

  function DigitValue(c: char): (d: nat)
    requires IsDigit(c)
    ensures d < 10
  {
    c as int - '0' as int
  }

  /** The decimal digits of `n`, most significant first, without leading zeros. */
  function NatToDecimal(n: nat): (r: string)
    ensures 0 < |r|
    ensures AllDigits(r)
    ensures 1 < |r| ==> r[0] != '0'
    decreases n
  {
    if n < 10 then [DigitChar(n)] else NatToDecimal(n / 10) + [DigitChar(n % 10)]
  }

  /**
   * `Integer.toString` and `Long.toString`, which is what `"..." + n` appends:
   * a minus sign for a negative number, then the digits of its magnitude.
   */
  function IntToDecimal(n: int): (r: string)
    ensures 0 < |r|
    ensures r[0] == '-' <==> n < 0
    ensures '_' !in r
  {
    if n < 0 then "-" + NatToDecimal(-n) else NatToDecimal(n)
  }

  /** The number a non-empty run of digits denotes. */
  function DigitsValue(s: string): nat
    requires AllDigits(s)
  {
    if |s| == 0 then 0 else DigitsValue(s[..|s| - 1]) * 10 + DigitValue(s[|s| - 1])
  }

  /** Reads back decimal text in the form `IntToDecimal` writes; `None` for anything else. */
  function ParseDecimal(s: string): Option<int> {
    if 1 < |s| && s[0] == '-' && AllDigits(s[1..]) then Some(0 - DigitsValue(s[1..]) as int)
    else if 0 < |s| && AllDigits(s) then Some(DigitsValue(s))
    else None
  }

  lemma {:induction false} NatToDecimalValue(n: nat)
    ensures DigitsValue(NatToDecimal(n)) == n
    decreases n
  {
    if n >= 10 {
      var r := NatToDecimal(n);
      assert r[..|r| - 1] == NatToDecimal(n / 10);
      NatToDecimalValue(n / 10);
    }
  }

  /** Decimal rendering is undone by parsing: the text of a number determines it. */
  lemma DecimalRoundTrip(n: int)
    ensures ParseDecimal(IntToDecimal(n)) == Some(n)
  {
    if n < 0 {
      assert IntToDecimal(n)[1..] == NatToDecimal(-n);
      NatToDecimalValue(-n);
    } else {
      NatToDecimalValue(n);
    }
  }

  /** Two numbers with the same decimal text are equal. */
  lemma DecimalInjective(a: int, b: int)
    requires IntToDecimal(a) == IntToDecimal(b)
    ensures a == b
  {
    DecimalRoundTrip(a);
    DecimalRoundTrip(b);
  }
}

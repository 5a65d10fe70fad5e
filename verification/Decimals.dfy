/** Counts as decimal text, and back. */
module Decimals {
  import opened Basics

  function Digit(n: int): char
    requires 0 <= n < 10
  {
    ('0' as int + n) as char
  }

  function Decimal(n: nat): string {
    if n < 10 then [Digit(n)] else Decimal(n / 10) + [Digit(n % 10)]
  }

  function DigitValue(c: char): Option<nat> {
    if '0' <= c <= '9' then Some(c as int - '0' as int) else None
  }

  function Number(text: string): Option<nat> {
    if text == [] then Some(0)
    else match (Number(text[..|text| - 1]), DigitValue(text[|text| - 1]))
      case (Some(high), Some(low)) => Some(10 * high + low)
      case _ => None
  }

  lemma {:induction false} DecimalValue(n: nat)
    ensures Number(Decimal(n)) == Some(n) && |Decimal(n)| > 0
  {
    if n >= 10 {
      DecimalValue(n / 10);
      var text := Decimal(n);
      assert text[..|text| - 1] == Decimal(n / 10);
    } else {
      assert Number([]) == Some(0);
    }
  }

  /** Decimal text is digits. */
  lemma {:induction false} DecimalDigits(n: nat)
    ensures forall i | 0 <= i < |Decimal(n)| :: '0' <= Decimal(n)[i] <= '9'
  {
    if n >= 10 {
      DecimalDigits(n / 10);
    }
  }
}

/**
  Gold amounts: `long` values. `Convert.ToInt64` turns an argument into an
  amount, and the additions and subtractions on `Gold` are unchecked, so
  they wrap around modulo 2^64.
*/
module Coins {
  import opened Options
  import opened Resolver

  const Int64Min: int := -0x8000_0000_0000_0000
  const Int64Max: int := 0x7fff_ffff_ffff_ffff
  const Modulus64: int := 0x1_0000_0000_0000_0000

  predicate InInt64(x: int) { Int64Min <= x <= Int64Max }

  /** Two's-complement wrap-around of an unchecked `long` result. */
  function Wrap64(x: int): (r: int)
    ensures InInt64(r)
    ensures (r - x) % Modulus64 == 0
    ensures InInt64(x) ==> r == x
  {
    var m := (x - Int64Min) % Modulus64;
    assert InInt64(x) ==> (x - Int64Min) / Modulus64 == 0;
    m + Int64Min
  }

  /**
    `Convert.ToInt64(s)` on an argument without spaces: an optional sign and
    at least one decimal digit, with a value in the `long` range; anything
    else raises an exception (`None`).
  */
  function ParseInt64(s: string): (r: Option<int>)
    ensures r.Some? ==> InInt64(r.value)
  {
    var negative := |s| > 0 && s[0] == '-';
    var body := if |s| > 0 && (s[0] == '-' || s[0] == '+') then s[1..] else s;
    if |body| == 0 || !AllDigits(body) then None
    else
      var v: int := if negative then 0 - DigitsValue(body) as int else DigitsValue(body);
      if InInt64(v) then Some(v) else None
  }

  /** The decimal numeral of `n`, without leading zeros. */
  function Decimal(n: nat): (s: string)
    ensures |s| > 0 && AllDigits(s)
  {
    var d := ['0' + (n % 10) as char];
    if n < 10 then d else Decimal(n / 10) + d
  }

  lemma {:induction false} DecimalValue(n: nat)
    ensures DigitsValue(Decimal(n)) == n
  {
    var s := Decimal(n);
    var d := ['0' + (n % 10) as char];
    if n < 10 {
      assert s[..0] == [];
    } else {
      DecimalValue(n / 10);
      assert s[..|s| - 1] == Decimal(n / 10);
    }
  }

  /** A signed numeral is read as its digits' value, negated for `-`. */
  lemma ParseSigned(sign: char, body: string)
    requires |body| > 0 && AllDigits(body) && (sign == '-' || sign == '+')
    ensures sign == '-' ==> ParseInt64([sign] + body) == if DigitsValue(body) <= -Int64Min then Some(0 - DigitsValue(body)) else None
    ensures sign == '+' ==> ParseInt64([sign] + body) == if DigitsValue(body) <= Int64Max then Some(DigitsValue(body)) else None
  {
    var s := [sign] + body;
    assert s[0] == sign && s[1..] == body;
  }

  /** `Convert.ToInt64` reads back every `long` written in decimal, with `-` for negatives. */
  lemma ParseDecimal(n: int)
    requires InInt64(n)
    ensures ParseInt64(if n < 0 then "-" + Decimal(-n) else Decimal(n)) == Some(n)
  {
    if n < 0 {
      DecimalValue(-n);
      ParseSigned('-', Decimal(-n));
    } else {
      DecimalValue(n);
    }
  }

  /** An explicit plus sign is accepted. */
  lemma ParsePlus(n: nat)
    requires n <= Int64Max
    ensures ParseInt64("+" + Decimal(n)) == Some(n)
  {
    DecimalValue(n);
    ParseSigned('+', Decimal(n));
  }

  /** Text that is not a numeral is refused. */
  lemma ParseRefusesWords()
    ensures ParseInt64("") == None && ParseInt64("-") == None && ParseInt64("ten") == None
  {
    assert !IsDigit("ten"[0]);
  }
}

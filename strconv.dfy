/** The part of Go's strconv package the handlers rely on: Atoi on a 64-bit platform. */
module Strconv {
  import opened Errors

  const MinInt: int := -0x8000_0000_0000_0000
  const MaxInt: int := 0x7FFF_FFFF_FFFF_FFFF

  predicate IsDigit(c: char) { '0' <= c <= '9' }

  predicate AllDigits(s: string) { forall i :: 0 <= i < |s| ==> IsDigit(s[i]) }

  /** The value of a string of decimal digits, most significant first. */
  function DigitsValue(s: string): nat
    requires AllDigits(s)
  {
    if s == [] then 0 else 10 * DigitsValue(s[..|s| - 1]) + (s[|s| - 1] as int - '0' as int)
  }

  /** strconv.Atoi: an optional sign, then one or more decimal digits, and a value that fits
      the platform's `int`. Anything else is a *NumError. */
  function Atoi(s: string): (r: Result<int>)
    ensures r.Err? ==> r.error == NumError(s)
    ensures r.Ok? ==> MinInt <= r.value <= MaxInt
  {
    var signed := |s| > 0 && (s[0] == '+' || s[0] == '-');
    var digits := if signed then s[1..] else s;
    if digits == [] || !AllDigits(digits) then Err(NumError(s))
    else
      var n: int := if signed && s[0] == '-' then 0 - DigitsValue(digits) as int else DigitsValue(digits);
      if MinInt <= n <= MaxInt then Ok(n) else Err(NumError(s))
  }

  /** Decimal text of a natural number, without leading zeros (the reference for the round trip). */
  function Decimal(n: nat): (s: string)
    ensures |s| > 0 && AllDigits(s)
  {
    var last := ['0' + (n % 10) as char];
    if n < 10 then last else Decimal(n / 10) + last
  }

  /** strconv.Itoa: the text a client puts in the path for a user id. */
  function Itoa(n: int): string
  {
    if n < 0 then "-" + Decimal(0 - n) else Decimal(n)
  }

  lemma {:induction false} DecimalValue(n: nat)
    ensures DigitsValue(Decimal(n)) == n
  {
    var s := Decimal(n);
    assert s[..|s| - 1] == if n < 10 then [] else Decimal(n / 10);
    if n >= 10 {
      DecimalValue(n / 10);
    }
  }

  /** Every id a client can write with Itoa is read back by Atoi unchanged. */
  lemma AtoiItoa(n: int)
    requires MinInt <= n <= MaxInt
    ensures Atoi(Itoa(n)) == Ok(n)
  {
    var s := Itoa(n);
    if n < 0 {
      var digits := Decimal(0 - n);
      DecimalValue(0 - n);
      assert s[0] == '-' && s[1..] == digits;
    } else {
      DecimalValue(n);
      assert IsDigit(s[0]);
    }
  }

  /** A path user id with a character that is neither a digit nor a leading sign is refused. */
  lemma AtoiRejectsNonNumeric(s: string, i: nat)
    requires i < |s| && !IsDigit(s[i])
    requires i == 0 ==> s[0] != '+' && s[0] != '-'
    ensures Atoi(s) == Err(NumError(s))
  {
    if |s| > 0 && (s[0] == '+' || s[0] == '-') {
      assert s[1..][i - 1] == s[i];
    }
  }
}

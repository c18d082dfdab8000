/** Bytes, decimal digits and the numbers they spell. */
module Numbers {
  import opened Text

  newtype Octet = x: int | 0 <= x < 256

  function Least(a: nat, b: nat): nat {
    if a <= b then a else b
  }

  predicate IsDigit(c: char) {
    '0' <= c <= '9'
  }

  predicate AllDigits(s: string) {
    forall c | c in s :: IsDigit(c)
  }

  function Digit(n: nat): char
    requires n < 10
  {
    '0' + n as char
  }

  function Digits(n: nat): string {
    if n < 10 then [Digit(n)] else Digits(n / 10) + [Digit(n % 10)]
  }

  function Value(s: string): nat {
    if s == "" || !IsDigit(s[|s| - 1]) then 0 else 10 * Value(s[..|s| - 1]) + (s[|s| - 1] as nat - '0' as nat)
  }

  lemma {:induction false} ValueOfDigits(n: nat)
    ensures Value(Digits(n)) == n && Digits(n) != "" && forall c | c in Digits(n) :: IsDigit(c)
  {
    if n >= 10 { ValueOfDigits(n / 10); }
  }

  /** Integer.parseInt on ASCII digits; None stands for the exception. */
  function ParseInt(s: string): (r: Option<int>)
    ensures r.Some? ==> -0x8000_0000 <= r.value <= 0x7fff_ffff
  {
    var digits := if s != "" && (s[0] == '+' || s[0] == '-') then s[1..] else s;
    if digits == "" || !AllDigits(digits) then None
    else
      var n := if s[0] == '-' then -(Value(digits) as int) else Value(digits);
      if -0x8000_0000 <= n <= 0x7fff_ffff then Some(n) else None
  }
}

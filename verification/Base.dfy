/** Shared vocabulary: optional values, results of operations that may raise, decimal printing. */
module Base {
  datatype Option<+T> = None | Some(value: T)

  /** What a call gives back: a value, or the exception it raises. */
  datatype Outcome<+T, +E> = Ok(value: T) | Raised(error: E)

  datatype Unit = Unit

  /** Decimal digits of a natural number, most significant first, as `str(n)` prints them. */
  function Digits(n: nat): (s: string)
    ensures |s| > 0
    ensures forall i :: 0 <= i < |s| ==> '0' <= s[i] <= '9'
  {
    if n < 10 then [DigitChar(n)] else Digits(n / 10) + [DigitChar(n % 10)]
  }

  function DigitChar(d: nat): (c: char)
    requires d < 10
    ensures '0' <= c <= '9'
  {
    "0123456789"[d]
  }

  function Decimal(n: int): string {
    if n < 0 then "-" + Digits(-n) else Digits(n)
  }

  /** The value of a digit string, reading left to right. */
  function DigitsValue(s: string): nat {
    if s == "" then 0
    else
      var c := s[|s| - 1];
      10 * DigitsValue(s[..|s| - 1]) + (if '0' <= c <= '9' then c as int - '0' as int else 0)
  }

  lemma {:induction false} DigitsRoundTrip(n: nat)
    ensures DigitsValue(Digits(n)) == n
  {
    if n < 10 {
      assert Digits(n)[..0] == "";
    } else {
      DigitsRoundTrip(n / 10);
      assert Digits(n)[..|Digits(n)| - 1] == Digits(n / 10);
    }
  }
}

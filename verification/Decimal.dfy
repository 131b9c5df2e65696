// Decimal text of integers, as std::to_string and stream output write them, and how it is read back.

module Decimal {

  function Digit(d: int): char
    requires 0 <= d < 10
  {
    '0' + d as char
  }

  function Digits(n: nat): string
    decreases n
  {
    if n < 10 then [Digit(n)] else Digits(n / 10) + [Digit(n % 10)]
  }

  function ToString(n: int): string {
    if n < 0 then "-" + Digits(-n) else Digits(n)
  }

  predicate IsDigit(c: char) { '0' <= c <= '9' }

  // Read digits onto an accumulated value.
  function ReadDigits(s: string, acc: int): int {
    if s == [] then acc else ReadDigits(s[1..], acc * 10 + (s[0] as int - '0' as int))
  }

  function FromString(s: string): int {
    if s != [] && s[0] == '-' then -ReadDigits(s[1..], 0) else ReadDigits(s, 0)
  }

  lemma {:induction false} ReadDigitsConcat(a: string, b: string, acc: int)
    ensures ReadDigits(a + b, acc) == ReadDigits(b, ReadDigits(a, acc))
  {
    if a == [] {
      assert a + b == b;
    } else {
      assert (a + b)[1..] == a[1..] + b;
      ReadDigitsConcat(a[1..], b, acc * 10 + (a[0] as int - '0' as int));
    }
  }

  lemma {:induction false} DigitsReadBack(n: nat)
    ensures ReadDigits(Digits(n), 0) == n
    ensures Digits(n) != [] && forall i :: 0 <= i < |Digits(n)| ==> IsDigit(Digits(n)[i])
    decreases n
  {
    if n >= 10 {
      DigitsReadBack(n / 10);
      ReadDigitsConcat(Digits(n / 10), [Digit(n % 10)], 0);
    }
  }

  lemma DigitsAre(d: int)
    requires 0 <= d < 10
    ensures Digit(d) == "0123456789"[d] && IsDigit(Digit(d))
  {}

  // No number is written with a leading zero.
  lemma {:induction false} NoLeadingZero(n: nat)
    ensures |Digits(n)| > 1 ==> Digits(n)[0] != '0'
    ensures Digits(n) != [] && (n > 0 ==> Digits(n)[0] != '0')
    decreases n
  {
    if n >= 10 {
      NoLeadingZero(n / 10);
    }
  }

  // Decimal text determines the integer.
  lemma RoundTrip(n: int)
    ensures FromString(ToString(n)) == n
    ensures forall i :: 0 <= i < |ToString(n)| ==> ToString(n)[i] == '-' || IsDigit(ToString(n)[i])
  {
    DigitsReadBack(if n < 0 then -n else n);
    if n < 0 {
      assert ToString(n)[1..] == Digits(-n);
    }
  }

  lemma Injective(m: int, n: int)
    requires ToString(m) == ToString(n)
    ensures m == n
  {
    RoundTrip(m);
    RoundTrip(n);
  }
}

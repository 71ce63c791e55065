/** Decimal numerals as the framer and the Table row keys write them. */
module Decimals {
  type byte = b: int | 0 <= b < 256

  const ZERO: byte := 48
  const SPACE: byte := 32

  predicate IsDigit(b: byte) {
    ZERO <= b <= ZERO + 9
  }

  predicate AllDigits(s: seq<byte>) {
    forall i :: 0 <= i < |s| ==> IsDigit(s[i])
  }

  /** The numeral of n without leading zeros. */
  function Numeral(n: nat): (s: seq<byte>)
    ensures s != [] && AllDigits(s)
  {
    if n < 10 then [ZERO + n] else Numeral(n / 10) + [ZERO + n % 10]
  }

  /** The number a string of digits denotes. */
  function Value(s: seq<byte>): nat
    requires AllDigits(s)
  {
    if s == [] then 0 else 10 * Value(s[..|s| - 1]) + (s[|s| - 1] - ZERO)
  }

  lemma {:induction false} ValueOfNumeral(n: nat)
    ensures Value(Numeral(n)) == n
    ensures n > 0 ==> Numeral(n)[0] != ZERO
  {
    if n >= 10 {
      ValueOfNumeral(n / 10);
      assert Numeral(n)[..|Numeral(n)| - 1] == Numeral(n / 10);
    }
  }

  /** A numeral is determined by its value once leading zeros are excluded. */
  lemma {:induction false} NumeralOfValue(s: seq<byte>)
    requires AllDigits(s) && s != [] && s[0] != ZERO
    ensures Value(s) > 0 && Numeral(Value(s)) == s
  {
    var front := s[..|s| - 1];
    if front == [] {
      assert Value(front) == 0;
      assert s == [s[0]];
    } else {
      NumeralOfValue(front);
      var d := s[|s| - 1] - ZERO;
      assert (10 * Value(front) + d) / 10 == Value(front);
      assert s == front + [s[|s| - 1]];
    }
  }

  /** The numeral as text, padded on the left with zeros to `width` characters. */
  function Padded(n: nat, width: nat): string {
    var digits := Numeral(n);
    seq(if |digits| < width then width - |digits| else 0, _ => '0') +
    seq(|digits|, i requires 0 <= i < |digits| => digits[i] as char)
  }
}

/** Row keys of entries: a fixed prefix and twenty digits, so that key order is log order. */
module EntryKeys {
  import opened Decimals
  import opened Ordering
  import opened TableState

  predicate DigitText(s: string) {
    forall i :: 0 <= i < |s| ==> '0' <= s[i] <= '9'
  }

  function DigitOf(c: char): nat
    requires '0' <= c <= '9'
  {
    (c - '0') as nat
  }

  /** The number a text of digits denotes. */
  function Denoted(s: string): nat
    requires DigitText(s)
  {
    if s == "" then 0 else 10 * Denoted(s[..|s| - 1]) + DigitOf(s[|s| - 1])
  }

  function Pow10(k: nat): (p: nat)
    ensures p >= 1
  {
    if k == 0 then 1 else 10 * Pow10(k - 1)
  }

  lemma {:induction false} DenotedBound(s: string)
    requires DigitText(s)
    ensures Denoted(s) < Pow10(|s|)
  {
    if s != "" {
      DenotedBound(s[..|s| - 1]);
    }
  }

  lemma Scale(a: nat, p: nat, x: nat)
    ensures 10 * (a * p + x) == a * (10 * p) + 10 * x
  {
  }

  lemma {:induction false} DenotedFirst(s: string)
    requires DigitText(s) && s != ""
    ensures Denoted(s) == DigitOf(s[0]) * Pow10(|s| - 1) + Denoted(s[1..])
  {
    if |s| == 1 {
      assert s[..0] == "" && s[1..] == "";
    } else {
      var front := s[..|s| - 1];
      DenotedFirst(front);
      assert front[1..] == s[1..][..|s| - 2];
      assert s[1..][|s| - 2] == s[|s| - 1];
      Scale(DigitOf(s[0]), Pow10(|s| - 2), Denoted(front[1..]));
    }
  }

  lemma FirstDigitDecides(a: nat, b: nat, p: nat, x: nat, y: nat)
    requires a < b && x < p
    ensures a * p + x < b * p + y
  {
    assert (a + 1) * p <= b * p;
  }

  /** Digit texts of one length are ordered as the numbers they denote. */
  lemma {:induction false} TextOrderIsNumberOrder(s: string, t: string)
    requires DigitText(s) && DigitText(t) && |s| == |t|
    ensures LexLeq(s, t) <==> Denoted(s) <= Denoted(t)
  {
    if s != "" {
      var p := Pow10(|s| - 1);
      DenotedFirst(s);
      DenotedFirst(t);
      DenotedBound(s[1..]);
      DenotedBound(t[1..]);
      TextOrderIsNumberOrder(s[1..], t[1..]);
      if s[0] < t[0] {
        FirstDigitDecides(DigitOf(s[0]), DigitOf(t[0]), p, Denoted(s[1..]), Denoted(t[1..]));
      } else if t[0] < s[0] {
        FirstDigitDecides(DigitOf(t[0]), DigitOf(s[0]), p, Denoted(t[1..]), Denoted(s[1..]));
      }
    }
  }

  lemma {:induction false} NumeralLength(n: nat, k: nat)
    requires n < Pow10(k) && k >= 1
    ensures |Numeral(n)| <= k
  {
    if n >= 10 {
      assert Pow10(1) == 10 * Pow10(0);
      NumeralLength(n / 10, k - 1);
    }
  }

  /** The numeral as text. */
  function Text(digits: seq<byte>): string {
    seq(|digits|, i requires 0 <= i < |digits| => digits[i] as char)
  }

  lemma {:induction false} TextDenotes(digits: seq<byte>)
    requires AllDigits(digits)
    ensures DigitText(Text(digits)) && Denoted(Text(digits)) == Value(digits)
  {
    if digits != [] {
      var front := digits[..|digits| - 1];
      TextDenotes(front);
      assert Text(digits)[..|digits| - 1] == Text(front);
    }
  }

  lemma {:induction false} ZerosDenoteNothing(k: nat, s: string)
    requires DigitText(s)
    ensures var padded := seq(k, _ => '0') + s; DigitText(padded) && Denoted(padded) == Denoted(s)
    decreases k
  {
    var zeros: string := seq(k, _ => '0');
    var padded := zeros + s;
    if k == 0 {
      assert padded == s;
    } else {
      ZerosDenoteNothing(k - 1, s);
      assert padded[1..] == seq(k - 1, _ => '0') + s;
      DenotedFirst(padded);
    }
  }

  lemma PaddedDenotes(n: nat, width: nat)
    requires n < Pow10(width) && width >= 1
    ensures var s := Padded(n, width); |s| == width && DigitText(s) && Denoted(s) == n
  {
    var digits := Numeral(n);
    NumeralLength(n, width);
    ValueOfNumeral(n);
    TextDenotes(digits);
    ZerosDenoteNothing(width - |digits|, Text(digits));
    assert Padded(n, width) == seq(width - |digits|, _ => '0') + Text(digits);
  }

  lemma {:induction false} LexPrefix(p: string, s: string, t: string)
    ensures LexLeq(p + s, p + t) <==> LexLeq(s, t)
  {
    if p == "" {
      assert p + s == s && p + t == t;
    } else {
      LexPrefix(p[1..], s, t);
      assert (p + s)[1..] == p[1..] + s && (p + t)[1..] == p[1..] + t;
    }
  }

  /** Up to twenty digits, the row key denotes the log index and keys are ordered as indexes are. */
  lemma EntryKeysFollowTheLog(i: nat, j: nat)
    requires i < Pow10(20) && j < Pow10(20)
    ensures |EntryKey(i)| == 26 && EntryKey(i)[..6] == "entry-"
    ensures DigitText(EntryKey(i)[6..]) && Denoted(EntryKey(i)[6..]) == i
    ensures LexLeq(EntryKey(i), EntryKey(j)) <==> i <= j
  {
    PaddedDenotes(i, 20);
    PaddedDenotes(j, 20);
    assert EntryKey(i)[6..] == Padded(i, 20);
    TextOrderIsNumberOrder(Padded(i, 20), Padded(j, 20));
    LexPrefix("entry-", Padded(i, 20), Padded(j, 20));
  }
}

/** Decimal numbers as text: printing, padding and reading. */
module Decimal {
  import opened Wrappers

  predicate IsDigit(c: char) {
    '0' <= c <= '9'
  }

  predicate AllDigits(s: string) {
    forall i :: 0 <= i < |s| ==> IsDigit(s[i])
  }

  /** `str(n)`. */
  function Digits(n: nat): (s: string)
    ensures s != "" && AllDigits(s)
  {
    if n < 10 then [('0' as int + n) as char] else Digits(n / 10) + [('0' as int + n % 10) as char]
  }

  /** The number a digit text stands for. */
  function Value(s: string): nat
    requires AllDigits(s)
  {
    if s == "" then 0 else 10 * Value(s[..|s| - 1]) + (s[|s| - 1] as int - '0' as int)
  }

  lemma {:induction false} ValueOfDigits(n: nat)
    ensures Value(Digits(n)) == n
  {
    if n >= 10 {
      assert Digits(n)[..|Digits(n)| - 1] == Digits(n / 10);
      ValueOfDigits(n / 10);
    }
  }

  function Zeros(k: nat): (s: string)
    ensures |s| == k && AllDigits(s)
  {
    seq(k, _ => '0')
  }

  /** `f"{n:010d}"`: at least ten digits. */
  function Pad10(n: nat): (s: string)
    ensures AllDigits(s)
  {
    var d := Digits(n);
    if |d| < 10 then Zeros(10 - |d|) + d else d
  }

  lemma {:induction false} ValueOfZeros(k: nat, s: string)
    requires AllDigits(s)
    ensures Value(Zeros(k) + s) == Value(s)
  {
    var z := Zeros(k) + s;
    if s != "" {
      assert z[..|z| - 1] == Zeros(k) + s[..|s| - 1];
      ValueOfZeros(k, s[..|s| - 1]);
    } else if k > 0 {
      assert z[..|z| - 1] == Zeros(k - 1) + s;
      ValueOfZeros(k - 1, s);
    }
  }

  /** Ten to the power `k`. */
  function TenTo(k: nat): nat {
    if k == 0 then 1 else 10 * TenTo(k - 1)
  }

  lemma {:induction false} DigitCount(n: nat, k: nat)
    requires k > 0
    ensures |Digits(n)| <= k <==> n < TenTo(k)
  {
    if n >= 10 && k > 1 {
      DigitCount(n / 10, k - 1);
    }
    TenToPositive(k - 1);
  }

  lemma {:induction false} TenToPositive(k: nat)
    ensures TenTo(k) >= 1
  {
    if k > 0 {
      TenToPositive(k - 1);
    }
  }

  /** Ten digits are enough exactly below ten to the tenth. */
  lemma PadIsTenWide(n: nat)
    ensures Value(Pad10(n)) == n
    ensures |Pad10(n)| == 10 <==> n < 10000000000
  {
    var d := Digits(n);
    ValueOfDigits(n);
    DigitCount(n, 10);
    TenToTenth();
    if |d| < 10 {
      ValueOfZeros(10 - |d|, d);
    }
  }

  lemma TenToTenth()
    ensures TenTo(10) == 10000000000
  {
    assert TenTo(5) == 100000;
  }

  /** How many digits a text starts with. */
  function LeadingDigits(s: string): (k: nat)
    ensures k <= |s| && AllDigits(s[..k])
  {
    if s != "" && IsDigit(s[0]) then
      var k := 1 + LeadingDigits(s[1..]);
      assert forall i :: 1 <= i < k ==> s[i] == s[1..][..k - 1][i - 1];
      k
    else 0
  }

  function TrailingDigits(s: string): (k: nat)
    ensures k <= |s| && AllDigits(s[|s| - k..])
  {
    if s != "" && IsDigit(s[|s| - 1]) then
      var t := s[..|s| - 1];
      var k := 1 + TrailingDigits(t);
      assert forall i :: |s| - k <= i < |s| - 1 ==> s[i] == t[|t| - (k - 1)..][i - (|s| - k)];
      k
    else 0
  }

  lemma {:induction false} LeadingDigitsOf(d: string, rest: string)
    requires AllDigits(d) && (rest == "" || !IsDigit(rest[0]))
    ensures LeadingDigits(d + rest) == |d|
  {
    if d == "" {
      assert d + rest == rest;
    } else {
      assert (d + rest)[1..] == d[1..] + rest;
      LeadingDigitsOf(d[1..], rest);
    }
  }

  lemma {:induction false} TrailingDigitsOf(before: string, d: string)
    requires AllDigits(d) && (before == "" || !IsDigit(before[|before| - 1]))
    ensures TrailingDigits(before + d) == |d|
  {
    if d == "" {
      assert before + d == before;
    } else {
      assert (before + d)[..|before + d| - 1] == before + d[..|d| - 1];
      TrailingDigitsOf(before, d[..|d| - 1]);
    }
  }

  /** A number at the start of a text, and what follows it. */
  function Number(s: string): Option<(nat, string)> {
    var k := LeadingDigits(s);
    if k == 0 then None else Some((Value(s[..k]), s[k..]))
  }

  lemma NumberOf(n: nat, rest: string)
    requires rest == "" || !IsDigit(rest[0])
    ensures Number(Digits(n) + rest) == Some((n, rest))
  {
    var d := Digits(n);
    LeadingDigitsOf(d, rest);
    ValueOfDigits(n);
    assert (d + rest)[..|d|] == d && (d + rest)[|d|..] == rest;
  }
}

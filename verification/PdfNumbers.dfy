/** Decimal numbers as the PDF writer prints them and as a reader reads them back. */
module PdfNumbers {

  function Digit(d: nat): char
    requires d < 10
  {
    ('0' as int + d) as char
  }

  predicate IsDigit(c: char) {
    '0' <= c <= '9'
  }

  function DigitValue(c: char): nat
    requires IsDigit(c)
  {
    c as int - '0' as int
  }

  /** %d of a number that is not negative. */
  function Dec(n: nat): (s: string)
    ensures s != "" && forall c | c in s :: IsDigit(c)
  {
    if n < 10 then [Digit(n)] else Dec(n / 10) + [Digit(n % 10)]
  }

  function Pow10(k: nat): nat {
    if k == 0 then 1 else 10 * Pow10(k - 1)
  }

  /** The last k digits. */
  function LastDigits(n: nat, k: nat): (s: string)
    ensures |s| == k && forall c | c in s :: IsDigit(c)
  {
    if k == 0 then "" else LastDigits(n / 10, k - 1) + [Digit(n % 10)]
  }

  /** %010d: padded with zeros to ten digits, longer numbers stay longer. */
  function Padded(n: nat): (s: string)
    ensures forall c | c in s :: IsDigit(c)
  {
    if n < Pow10(10) then LastDigits(n, 10) else Dec(n)
  }

  /** Continues a number with the digits of `s`. */
  function Value(s: string, acc: nat): nat
    requires forall c | c in s :: IsDigit(c)
  {
    if s == "" then acc
    else
      assert s[|s| - 1] in s && forall c | c in s[..|s| - 1] :: c in s;
      Value(s[..|s| - 1], acc) * 10 + DigitValue(s[|s| - 1])
  }

  /** Reads the digits in front. */
  function ReadFrom(s: string, acc: nat): (nat, string) {
    if s == "" || !IsDigit(s[0]) then (acc, s) else ReadFrom(s[1..], acc * 10 + DigitValue(s[0]))
  }

  function ReadNumber(s: string): (nat, string) {
    ReadFrom(s, 0)
  }

  lemma {:induction false} DecValue(n: nat)
    ensures Value(Dec(n), 0) == n
  {
    if n >= 10 {
      DecValue(n / 10);
      assert Dec(n)[..|Dec(n)| - 1] == Dec(n / 10);
    } else {
      assert Dec(n)[..0] == "";
    }
  }

  lemma {:induction false} LastDigitsValue(n: nat, k: nat)
    requires n < Pow10(k)
    ensures Value(LastDigits(n, k), 0) == n
  {
    if k > 0 {
      LastDigitsValue(n / 10, k - 1);
      assert LastDigits(n, k)[..k - 1] == LastDigits(n / 10, k - 1);
    }
  }

  lemma {:induction false} ValueFront(s: string, acc: nat)
    requires s != "" && forall c | c in s :: IsDigit(c)
    ensures IsDigit(s[0]) && forall c | c in s[1..] :: IsDigit(c)
    ensures Value(s, acc) == Value(s[1..], acc * 10 + DigitValue(s[0]))
  {
    assert s[0] in s && forall c | c in s[1..] :: c in s;
    if |s| == 1 {
      assert s[..0] == "" && s[1..] == "";
    } else {
      var init := s[..|s| - 1];
      assert forall c | c in init :: c in s;
      ValueFront(init, acc);
      assert init[1..] == s[1..][..|s| - 2];
    }
  }

  /** Digits are read back completely when no further digit follows. */
  lemma {:induction false} ReadsBack(s: string, acc: nat, rest: string)
    requires (forall c | c in s :: IsDigit(c)) && (rest == "" || !IsDigit(rest[0]))
    ensures ReadFrom(s + rest, acc) == (Value(s, acc), rest)
  {
    if s == "" {
      assert s + rest == rest;
    } else {
      ValueFront(s, acc);
      ReadsBack(s[1..], acc * 10 + DigitValue(s[0]), rest);
      assert (s + rest)[1..] == s[1..] + rest;
    }
  }

  lemma DecReadsBack(n: nat, rest: string)
    requires rest == "" || !IsDigit(rest[0])
    ensures ReadNumber(Dec(n) + rest) == (n, rest)
  {
    DecValue(n);
    ReadsBack(Dec(n), 0, rest);
  }

  lemma PaddedReadsBack(n: nat, rest: string)
    requires n < Pow10(10) && (rest == "" || !IsDigit(rest[0]))
    ensures ReadNumber(Padded(n) + rest) == (n, rest) && |Padded(n)| == 10
  {
    LastDigitsValue(n, 10);
    ReadsBack(Padded(n), 0, rest);
  }
}

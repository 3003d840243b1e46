/** Decimal text and the natural numbers it denotes: JavaScript's `Number(s)` on digit text and `${n}` on an integer. */
module Decimal {
  import opened Text

  function DigitValue(c: char): nat
    requires IsDigit(c)
  {
    c as int - '0' as int
  }

  function DigitChar(d: nat): (c: char)
    requires d < 10
    ensures IsDigit(c) && DigitValue(c) == d
  {
    ('0' as int + d) as char
  }

  /** `Number(s)` for a string of ASCII digits; the empty string denotes 0, as it does in JavaScript. */
  function ValueOf(s: string): nat
    requires IsDigits(s)
    decreases |s|
  {
    if |s| == 0 then 0 else 10 * ValueOf(s[..|s| - 1]) + DigitValue(s[|s| - 1])
  }

  /** Digit text as JavaScript prints an integer: nonempty, and without leading zeros. */
  predicate IsCanonical(s: string) {
    |s| >= 1 && IsDigits(s) && (s[0] == '0' ==> |s| == 1)
  }

  /** The decimal text of `n`. */
  function Print(n: nat): (s: string)
    ensures IsCanonical(s)
    ensures s == "0" <==> n == 0
    decreases n
  {
    if n < 10 then [DigitChar(n)] else Print(n / 10) + [DigitChar(n % 10)]
  }

  lemma {:induction false} ValueOfPrint(n: nat)
    ensures ValueOf(Print(n)) == n
    decreases n
  {
    if n >= 10 {
      var s := Print(n);
      ValueOfPrint(n / 10);
      assert s[..|s| - 1] == Print(n / 10);
    }
  }

  lemma {:induction false} CanonicalIsPositive(s: string)
    requires IsCanonical(s) && s[0] != '0'
    ensures ValueOf(s) >= 1
    decreases |s|
  {
    if |s| > 1 {
      CanonicalIsPositive(s[..|s| - 1]);
    }
  }

  lemma {:induction false} PrintOfValue(s: string)
    requires IsCanonical(s)
    ensures Print(ValueOf(s)) == s
    decreases |s|
  {
    if |s| > 1 {
      var t := s[..|s| - 1];
      CanonicalIsPositive(t);
      PrintOfValue(t);
      var n := ValueOf(s);
      assert n / 10 == ValueOf(t) && n % 10 == DigitValue(s[|s| - 1]);
      assert s == t + [s[|s| - 1]];
    }
  }

  /** A leading zero does not change the number. */
  lemma {:induction false} LeadingZero(s: string)
    requires IsDigits(s)
    ensures IsDigits("0" + s) && ValueOf("0" + s) == ValueOf(s)
    decreases |s|
  {
    if |s| > 0 {
      var z := "0" + s;
      assert z[..|z| - 1] == "0" + s[..|s| - 1];
      LeadingZero(s[..|s| - 1]);
    }
  }

  /** Two digit texts print the same when they denote the same number, and only then. */
  lemma PrintSameIff(a: string, b: string)
    requires IsDigits(a) && IsDigits(b)
    ensures Print(ValueOf(a)) == Print(ValueOf(b)) <==> ValueOf(a) == ValueOf(b)
  {
    ValueOfPrint(ValueOf(a));
    ValueOfPrint(ValueOf(b));
  }

  /** Any number of leading zeros does not change the number. */
  lemma {:induction false} LeadingZeros(zeros: string, s: string)
    requires forall i :: 0 <= i < |zeros| ==> zeros[i] == '0'
    requires IsDigits(s)
    ensures IsDigits(zeros + s) && ValueOf(zeros + s) == ValueOf(s)
    decreases |zeros|
  {
    if |zeros| > 0 {
      LeadingZeros(zeros[1..], s);
      LeadingZero(zeros[1..] + s);
      assert zeros + s == "0" + (zeros[1..] + s);
    } else {
      assert zeros + s == s;
    }
  }
}

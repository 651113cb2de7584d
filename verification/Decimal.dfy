/** Decimal numerals: printing a natural number, reading digits back, and padding. */
module Decimal {
  predicate IsDigit(c: char) {
    '0' <= c <= '9'
  }

  predicate AllDigits(s: string) {
    forall i :: 0 <= i < |s| ==> IsDigit(s[i])
  }

  function DigitValue(c: char): (d: int)
    requires IsDigit(c)
    ensures 0 <= d < 10
  {
    c as int - '0' as int
  }

  function DigitChar(d: int): (c: char)
    requires 0 <= d < 10
    ensures IsDigit(c) && DigitValue(c) == d
  {
    ('0' as int + d) as char
  }

  /** The number a digit string denotes; leading zeros do not matter. */
  function Value(s: string): (n: nat)
    requires AllDigits(s)
  {
    if s == [] then 0 else 10 * Value(s[..|s| - 1]) + DigitValue(s[|s| - 1])
  }

  function Print(n: nat): (s: string)
    ensures |s| > 0 && AllDigits(s)
  {
    if n < 10 then [DigitChar(n)] else Print(n / 10) + [DigitChar(n % 10)]
  }

  function Zeros(k: int): string {
    if k <= 0 then "" else "0" + Zeros(k - 1)
  }

  /** padStart(width, '0'). */
  function PadStart(s: string, width: int): string {
    Zeros(width - |s|) + s
  }

  function Pow10(k: nat): (p: nat)
    ensures p > 0
  {
    if k == 0 then 1 else 10 * Pow10(k - 1)
  }

  lemma {:induction false} ValueOfPrint(n: nat)
    ensures Value(Print(n)) == n
  {
    if n >= 10 {
      ValueOfPrint(n / 10);
      var s := Print(n);
      assert s[..|s| - 1] == Print(n / 10);
    }
  }

  lemma {:induction false} ValueBound(s: string)
    requires AllDigits(s)
    ensures Value(s) < Pow10(|s|)
  {
    if s != [] {
      ValueBound(s[..|s| - 1]);
    }
  }

  /** A printed number has at most k digits exactly when it is below 10^k. */
  lemma {:induction false} PrintLength(n: nat, k: nat)
    requires k > 0
    ensures |Print(n)| <= k <==> n < Pow10(k)
  {
    if n >= 10 && k > 1 {
      PrintLength(n / 10, k - 1);
    } else if k > 1 {
      PowGrows(1, k);
    }
  }

  lemma {:induction false} PowGrows(a: nat, b: nat)
    requires a <= b
    ensures Pow10(a) <= Pow10(b)
    decreases b - a
  {
    if a < b {
      PowGrows(a, b - 1);
    }
  }

  lemma {:induction false} ZerosAreDigits(k: int)
    ensures AllDigits(Zeros(k)) && |Zeros(k)| == if k <= 0 then 0 else k
  {
    if k > 0 {
      ZerosAreDigits(k - 1);
    }
  }

  lemma {:induction false} ValueOfPadded(zeros: int, s: string)
    requires AllDigits(s)
    ensures AllDigits(Zeros(zeros) + s) && Value(Zeros(zeros) + s) == Value(s)
    decreases |s|
  {
    ZerosAreDigits(zeros);
    if s == [] {
      ValueOfZeros(zeros);
      assert Zeros(zeros) + s == Zeros(zeros);
    } else {
      var t := Zeros(zeros) + s;
      ValueOfPadded(zeros, s[..|s| - 1]);
      assert t[..|t| - 1] == Zeros(zeros) + s[..|s| - 1];
    }
  }

  lemma {:induction false} ValueOfZeros(k: int)
    ensures AllDigits(Zeros(k)) && Value(Zeros(k)) == 0
  {
    ZerosAreDigits(k);
    if k > 0 {
      ValueOfZeros(k - 1);
      ZerosCommute(k - 1);
      var z := Zeros(k);
      assert z[..|z| - 1] == Zeros(k - 1);
    }
  }

  lemma {:induction false} ZerosCommute(k: int)
    ensures "0" + Zeros(k) == Zeros(k) + "0"
  {
    if k > 0 {
      ZerosCommute(k - 1);
    }
  }

  /** Printing and padding keeps the number, whatever its size. */
  lemma PaddedPrint(n: nat, width: nat)
    ensures AllDigits(PadStart(Print(n), width)) && Value(PadStart(Print(n), width)) == n
  {
    ValueOfPrint(n);
    ValueOfPadded(width - |Print(n)|, Print(n));
  }

  lemma PaddedLength(n: nat, width: nat)
    ensures |PadStart(Print(n), width)| == if |Print(n)| >= width then |Print(n)| else width
  {
    ZerosAreDigits(width - |Print(n)|);
  }
}

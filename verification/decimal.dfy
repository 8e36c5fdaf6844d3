/** Decimal integers as text: rendering (`String(n)`, `str(n)`, `f"{n:04d}"`),
    zero padding (`padStart`) and reading digits back (`int(...)`). */
module Decimal {

  /** An ASCII digit. */
  predicate IsAsciiDigit(c: char) {
    '0' <= c <= '9'
  }

  /** A digit Python's `\d` and `int()` accept in this model: ASCII digits and the
      full-width digits U+FF10..U+FF19 used on Japanese storefronts. */
  predicate IsDigit(c: char) {
    IsAsciiDigit(c) || ('０' <= c <= '９')
  }

  function DigitValue(c: char): (d: nat)
    requires IsDigit(c)
    ensures d < 10
  {
    if IsAsciiDigit(c) then c as int - '0' as int else c as int - '０' as int
  }

  function DigitChar(d: nat): (c: char)
    requires d < 10
    ensures IsAsciiDigit(c) && DigitValue(c) == d
  {
    (d + '0' as int) as char
  }

  predicate AllDigits(s: string) {
    forall i :: 0 <= i < |s| ==> IsDigit(s[i])
  }

  /** The number a string of digits denotes, most significant digit first. */
  function Value(s: string): nat
    requires AllDigits(s)
  {
    if |s| == 0 then 0 else Value(s[..|s| - 1]) * 10 + DigitValue(s[|s| - 1])
  }

  /** Shortest decimal rendering of a natural number. */
  function Dec(n: nat): (s: string)
    ensures |s| >= 1
    ensures forall i :: 0 <= i < |s| ==> IsAsciiDigit(s[i])
    ensures n < 10 <==> |s| == 1
  {
    if n < 10 then [DigitChar(n)] else Dec(n / 10) + [DigitChar(n % 10)]
  }

  /** Reading a rendering back gives the number. */
  lemma {:induction false} ValueOfDec(n: nat)
    ensures Value(Dec(n)) == n
  {
    if n >= 10 {
      ValueOfDec(n / 10);
      var s := Dec(n);
      assert s[..|s| - 1] == Dec(n / 10);
    }
  }

  /** Appending a digit scales the value. */
  lemma ValueAppend(s: string, c: char)
    requires AllDigits(s) && IsDigit(c)
    ensures AllDigits(s + [c]) && Value(s + [c]) == Value(s) * 10 + DigitValue(c)
  {
    assert (s + [c])[..|s|] == s;
  }

  /** A string of `k` copies of `c`. */
  function Repeat(c: char, k: nat): (r: string)
    ensures |r| == k
    ensures forall i :: 0 <= i < k ==> r[i] == c
  {
    if k == 0 then [] else [c] + Repeat(c, k - 1)
  }

  /** JavaScript's `s.padStart(width, fill)` for a one-character fill. */
  function PadStart(s: string, width: nat, fill: char): (r: string)
    ensures |r| == if |s| >= width then |s| else width
    ensures r[|r| - |s|..] == s
    ensures forall i :: 0 <= i < |r| - |s| ==> r[i] == fill
  {
    if |s| >= width then s else Repeat(fill, width - |s|) + s
  }

  /** Leading zeros do not change the value. */
  lemma {:induction false} ValueLeadingZeros(k: nat, s: string)
    requires AllDigits(s)
    ensures AllDigits(Repeat('0', k) + s)
    ensures Value(Repeat('0', k) + s) == Value(s)
    decreases |s|
  {
    var z := Repeat('0', k);
    if |s| == 0 {
      ZerosValue(k);
      assert z + s == z;
    } else {
      var s' := s[..|s| - 1];
      ValueLeadingZeros(k, s');
      assert (z + s)[..|z + s| - 1] == z + s';
    }
  }

  lemma {:induction false} ZerosValue(k: nat)
    ensures AllDigits(Repeat('0', k)) && Value(Repeat('0', k)) == 0
  {
    if k > 0 {
      ZerosValue(k - 1);
      var z := Repeat('0', k);
      assert z == Repeat('0', k - 1) + ['0'];
    }
  }

  /** `String(n).padStart(width, '0')` read back is `n`. */
  lemma PaddedValue(n: nat, width: nat)
    ensures AllDigits(PadStart(Dec(n), width, '0'))
    ensures Value(PadStart(Dec(n), width, '0')) == n
  {
    ValueOfDec(n);
    PadValue(Dec(n), n, width);
  }

  /** Zero padding keeps the value of any digit string. */
  lemma PadValue(d: string, n: nat, width: nat)
    requires AllDigits(d) && Value(d) == n
    ensures AllDigits(PadStart(d, width, '0')) && Value(PadStart(d, width, '0')) == n
  {
    if |d| < width {
      assert PadStart(d, width, '0') == Repeat('0', width - |d|) + d;
      ValueLeadingZeros(width - |d|, d);
    }
  }

  /** JavaScript's `String(n)` and Python's `str(n)` for an integer. */
  function IntString(n: int): (s: string)
    ensures n >= 0 ==> s == Dec(n)
    ensures n < 0 ==> s == "-" + Dec(-n)
  {
    if n < 0 then "-" + Dec(-n) else Dec(n)
  }
}

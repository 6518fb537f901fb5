/**
 Integer conversions that the media code borrows from the C library:
 the `(int)` cast of a double, the `+ 0.5` rounding idiom built on it,
 `sprintf("%d")` and `atoi`. Integers are unbounded here; the source's
 `int` range is not modelled.
 */
module Numeric {

  /** C's `(int)` conversion of a floating value: truncation toward zero. */
  function Trunc(v: real): int {
    if 0.0 <= v then v.Floor else -((-v).Floor)
  }

  /** Truncation drops the fractional part, toward zero on either side. */
  lemma TruncBounds(v: real)
    ensures 0.0 <= v ==> Trunc(v) as real <= v < Trunc(v) as real + 1.0
    ensures v < 0.0 ==> Trunc(v) as real - 1.0 < v <= Trunc(v) as real
  {
  }

  /** The rounding `(int)(v + 0.5)` used for every geometry number of a command. */
  function Round(v: real): int {
    Trunc(v + 0.5)
  }

  /**
   From -0.5 upward the idiom is round-half-up to the nearest integer;
   below -0.5 the truncation goes toward zero, so the result is the
   smallest integer not below `v + 0.5`.
   */
  lemma RoundBounds(v: real)
    ensures -0.5 <= v ==> Round(v) as real - 0.5 <= v < Round(v) as real + 0.5
    ensures v < -0.5 ==> Round(v) as real - 1.5 < v <= Round(v) as real - 0.5
  {
    TruncBounds(v + 0.5);
  }

  /** Rounding a non-negative value that is already an integer gives it back. */
  lemma RoundOfNatural(n: nat)
    ensures Round(n as real) == n
  {
    RoundBounds(n as real);
  }

  /**
   Below -0.5 the idiom does not pick the nearest integer: -1.2 becomes 0,
   and even the integer -1 becomes 0.
   */
  lemma RoundNegativeTowardZero()
    ensures Round(-1.2) == 0
    ensures Round(-1.0) == 0
    ensures Round(-1.5) == -1
  {
  }

  predicate IsDigit(c: char) {
    '0' <= c <= '9'
  }

  /** The `isspace` class of the C locale: blank, tab, newline, vertical tab, form feed, return. */
  predicate IsSpace(c: char) {
    c == ' ' || 9 <= c as int <= 13
  }

  predicate AllDigits(s: string) {
    forall i :: 0 <= i < |s| ==> IsDigit(s[i])
  }

  function DigitValue(c: char): (d: nat)
    requires IsDigit(c)
    ensures d < 10
  {
    c as int - '0' as int
  }

  function DigitChar(d: nat): (c: char)
    requires d < 10
    ensures IsDigit(c) && DigitValue(c) == d
  {
    ('0' as int + d) as char
  }

  /** Decimal digits of `n`, most significant first, without leading zeros. */
  function Digits(n: nat): (s: string)
    ensures 1 <= |s|
    ensures AllDigits(s)
    ensures s[0] == '0' ==> n == 0 && s == "0"
    decreases n
  {
    if n < 10 then [DigitChar(n)] else Digits(n / 10) + [DigitChar(n % 10)]
  }

  /** The number a run of decimal digits denotes. */
  function ValueOf(s: string): nat
    requires AllDigits(s)
  {
    if |s| == 0 then 0 else ValueOf(s[..|s| - 1]) * 10 + DigitValue(s[|s| - 1])
  }

  lemma {:induction false} ValueOfDigits(n: nat)
    ensures ValueOf(Digits(n)) == n
    decreases n
  {
    if n >= 10 {
      var s := Digits(n);
      assert s[..|s| - 1] == Digits(n / 10);
      ValueOfDigits(n / 10);
    }
  }

  /** The text `sprintf(buf, "%d", n)` writes. */
  function DecimalText(n: int): string {
    if n < 0 then "-" + Digits(-n) else Digits(n)
  }

  /** `%d` text is a minus sign exactly for negative numbers, then the digits of the magnitude. */
  lemma DecimalTextShape(n: int)
    ensures 1 <= |DecimalText(n)|
    ensures DecimalText(n)[0] == '-' <==> n < 0
    ensures n < 0 ==> DecimalText(n)[1..] == Digits(-n)
    ensures 0 <= n ==> DecimalText(n) == Digits(n)
  {
    if n < 0 {
      assert ("-" + Digits(-n))[1..] == Digits(-n);
    }
  }

  /** What is left of `s` after its leading `isspace` characters. */
  function SkipWhitespace(s: string): (t: string)
    ensures |t| <= |s| && t == s[|s| - |t|..]
    ensures forall i :: 0 <= i < |s| - |t| ==> IsSpace(s[i])
    ensures |t| == 0 || !IsSpace(t[0])
  {
    if |s| > 0 && IsSpace(s[0]) then SkipWhitespace(s[1..]) else s
  }

  /** The longest prefix of `s` made of decimal digits. */
  function DigitPrefix(s: string): (d: string)
    ensures |d| <= |s| && d == s[..|d|]
    ensures AllDigits(d)
    ensures |d| == |s| || !IsDigit(s[|d|])
  {
    if |s| > 0 && IsDigit(s[0]) then [s[0]] + DigitPrefix(s[1..]) else []
  }

  /** An optional sign, then as many decimal digits as follow; no digit at all gives 0. */
  function ReadSigned(t: string): int {
    if |t| > 0 && t[0] == '-' then -(ValueOf(DigitPrefix(t[1..])) as int)
    else if |t| > 0 && t[0] == '+' then ValueOf(DigitPrefix(t[1..]))
    else ValueOf(DigitPrefix(t))
  }

  /** C's `atoi`: leading white space, then a signed decimal number. */
  function Atoi(s: string): int {
    ReadSigned(SkipWhitespace(s))
  }

  lemma SkipWhitespaceOfSpaces(pre: string, t: string)
    requires forall i :: 0 <= i < |pre| ==> IsSpace(pre[i])
    requires |t| == 0 || !IsSpace(t[0])
    ensures SkipWhitespace(pre + t) == t
  {
    if |pre| > 0 {
      assert (pre + t)[1..] == pre[1..] + t;
      SkipWhitespaceOfSpaces(pre[1..], t);
    }
  }

  lemma {:induction false} DigitPrefixOfDigits(d: string, post: string)
    requires AllDigits(d)
    requires |post| == 0 || !IsDigit(post[0])
    ensures DigitPrefix(d + post) == d
    decreases |d|
  {
    if |d| > 0 {
      assert (d + post)[1..] == d[1..] + post;
      DigitPrefixOfDigits(d[1..], post);
      assert d == [d[0]] + d[1..];
    } else {
      assert d + post == post;
    }
  }

  /** Leading white space does not change what `atoi` reads. */
  lemma AtoiAfterWhitespace(pre: string, t: string)
    requires forall i :: 0 <= i < |pre| ==> IsSpace(pre[i])
    requires |t| == 0 || !IsSpace(t[0])
    ensures Atoi(pre + t) == Atoi(t)
  {
    SkipWhitespaceOfSpaces(pre, t);
    assert SkipWhitespace(t) == t;
  }

  /** Unsigned digits followed by a non-digit read back as their value. */
  lemma ReadSignedOfDigits(m: nat, post: string)
    requires |post| == 0 || !IsDigit(post[0])
    ensures ReadSigned(Digits(m) + post) == m
  {
    var t := Digits(m) + post;
    assert t[0] == Digits(m)[0];
    assert t[0] != '-' && t[0] != '+';
    DigitPrefixOfDigits(Digits(m), post);
    ValueOfDigits(m);
  }

  /** A minus sign, digits, then a non-digit read back as the negated value. */
  lemma ReadSignedOfNegative(m: nat, post: string)
    requires |post| == 0 || !IsDigit(post[0])
    ensures ReadSigned("-" + Digits(m) + post) == -(m as int)
  {
    var t := "-" + Digits(m) + post;
    assert t[0] == '-';
    assert t[1..] == Digits(m) + post;
    DigitPrefixOfDigits(Digits(m), post);
    ValueOfDigits(m);
  }

  /** The sign-and-digits reader gives back what `%d` printed, whatever non-digit follows it. */
  lemma ReadSignedOfDecimalText(n: int, post: string)
    requires |post| == 0 || !IsDigit(post[0])
    ensures ReadSigned(DecimalText(n) + post) == n
  {
    if n < 0 {
      ReadSignedOfNegative(-n, post);
    } else {
      ReadSignedOfDigits(n, post);
    }
  }

  /** `atoi` reads back what `%d` printed, whatever non-digit follows it. */
  lemma AtoiOfDecimalTextThen(n: int, post: string)
    requires |post| == 0 || !IsDigit(post[0])
    ensures Atoi(DecimalText(n) + post) == n
  {
    var t := DecimalText(n) + post;
    DecimalTextShape(n);
    assert t[0] == '-' || IsDigit(t[0]);
    assert SkipWhitespace(t) == t;
    ReadSignedOfDecimalText(n, post);
  }

  /**
   `atoi` reads back what `%d` printed, whatever white space precedes it and
   whatever non-digit follows it.
   */
  lemma AtoiOfDecimalText(pre: string, n: int, post: string)
    requires forall i :: 0 <= i < |pre| ==> IsSpace(pre[i])
    requires |post| == 0 || !IsDigit(post[0])
    ensures Atoi(pre + DecimalText(n) + post) == n
  {
    var t := DecimalText(n) + post;
    assert pre + DecimalText(n) + post == pre + t;
    DecimalTextShape(n);
    assert t[0] == '-' || IsDigit(t[0]);
    AtoiAfterWhitespace(pre, t);
    AtoiOfDecimalTextThen(n, post);
  }

  /** `atoi` gives a nonzero number only when the text holds a digit. */
  lemma AtoiNonzeroHasDigit(s: string)
    requires Atoi(s) != 0
    ensures exists i :: 0 <= i < |s| && IsDigit(s[i])
  {
    var t := SkipWhitespace(s);
    var k := |s| - |t|;
    var d := if |t| > 0 && (t[0] == '-' || t[0] == '+') then DigitPrefix(t[1..]) else DigitPrefix(t);
    assert |d| > 0;
    if |t| > 0 && (t[0] == '-' || t[0] == '+') {
      assert s[k + 1] == d[0];
      assert IsDigit(s[k + 1]);
    } else {
      assert s[k] == d[0];
      assert IsDigit(s[k]);
    }
  }

}

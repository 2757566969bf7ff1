/**
 Decimal text for integers: the printf conversions "%d", "%Nd" and "%0Nd" used by the
 formatted file names and log lines, and the C library's atoi (section 7.22.1.2 of ISO C11),
 which reads such text back.
 */
module Decimal {

  predicate IsDigit(c: char)
  {
    '0' <= c <= '9'
  }

  predicate AllDigits(s: string)
  {
    forall i :: 0 <= i < |s| ==> IsDigit(s[i])
  }

  /** The characters isspace accepts in the "C" locale: space, \t, \n, \v, \f and \r. */
  predicate IsSpace(c: char)
  {
    c == ' ' || 9 <= c as int <= 13
  }

  function DigitChar(d: nat): (c: char)
    requires d < 10
    ensures IsDigit(c)
  {
    ('0' as int + d) as char
  }

  function DigitValue(c: char): (d: nat)
    requires IsDigit(c)
    ensures d < 10
  {
    c as int - '0' as int
  }

  function Pow10(k: nat): nat
  {
    if k == 0 then 1 else 10 * Pow10(k - 1)
  }

  /** The shortest decimal numeral of n: no sign, no leading zero. */
  function Digits(n: nat): (s: string)
    ensures |s| >= 1 && AllDigits(s)
    decreases n
  {
    if n < 10 then [DigitChar(n)] else Digits(n / 10) + [DigitChar(n % 10)]
  }

  /** The number a string of digits denotes. */
  function Value(s: string): nat
    requires AllDigits(s)
    decreases |s|
  {
    if |s| == 0 then 0 else Value(s[..|s| - 1]) * 10 + DigitValue(s[|s| - 1])
  }

  /** k copies of one character. */
  function Repeat(c: char, k: nat): (s: string)
    ensures |s| == k
    ensures forall i :: 0 <= i < k ==> s[i] == c
  {
    seq(k, _ => c)
  }

  /** printf "%0wd" of a non-negative argument: at least w digits, zero-filled on the left. */
  function ZeroPad(n: nat, w: nat): (s: string)
    ensures AllDigits(s)
    ensures |s| == if |Digits(n)| >= w then |Digits(n)| else w
    ensures Value(s) == n
  {
    var d := Digits(n);
    ValueOfDigits(n);
    if |d| >= w then d
    else
      ValueLeadingZeros(w - |d|, d);
      Repeat('0', w - |d|) + d
  }

  /** The numeral of an integer, with a leading '-' when it is negative. */
  function Signed(x: int): (s: string)
    ensures |s| >= 1
  {
    if x < 0 then "-" + Digits(-x) else Digits(x)
  }

  /** printf "%wd": the signed numeral right-aligned in a field of at least w characters. */
  function Pad(x: int, w: nat): (s: string)
    ensures |s| == if |Signed(x)| >= w then |Signed(x)| else w
  {
    var body := Signed(x);
    if |body| >= w then body else Repeat(' ', w - |body|) + body
  }

  /** The input with its leading white space removed. */
  function SkipSpaces(s: string): (t: string)
    ensures |t| <= |s| && t == s[|s| - |t|..]
    ensures |t| == 0 || !IsSpace(t[0])
    ensures forall i :: 0 <= i < |s| - |t| ==> IsSpace(s[i])
  {
    if |s| > 0 && IsSpace(s[0]) then SkipSpaces(s[1..]) else s
  }

  /** The longest prefix made of digits. */
  function LeadingDigits(s: string): (d: string)
    ensures AllDigits(d) && |d| <= |s| && d == s[..|d|]
    ensures |d| == |s| || !IsDigit(s[|d|])
  {
    if |s| > 0 && IsDigit(s[0]) then [s[0]] + LeadingDigits(s[1..]) else []
  }

  /**
   atoi: skip white space, read an optional sign and the longest run of digits that follows; no
   digit gives 0. The result is an unbounded integer here.
   */
  function Atoi(s: string): int
  {
    SignedPrefix(SkipSpaces(s))
  }

  /** The number an optional sign and the digits right after it denote; 0 without digits. */
  function SignedPrefix(t: string): int
  {
    if |t| > 0 && t[0] == '-' then -(Value(LeadingDigits(t[1..])) as int)
    else if |t| > 0 && t[0] == '+' then Value(LeadingDigits(t[1..]))
    else Value(LeadingDigits(t))
  }

  // ----- lemmas -----

  /** Reading the numeral of n gives back n. */
  lemma {:induction false} ValueOfDigits(n: nat)
    ensures Value(Digits(n)) == n
    decreases n
  {
    if n >= 10 {
      ValueOfDigits(n / 10);
      var d := Digits(n);
      assert d[..|d| - 1] == Digits(n / 10);
    }
  }

  /** Leading zeros do not change the value of a numeral. */
  lemma {:induction false} ValueLeadingZeros(k: nat, d: string)
    requires AllDigits(d)
    ensures AllDigits(Repeat('0', k) + d)
    ensures Value(Repeat('0', k) + d) == Value(d)
    decreases |d|
  {
    var s := Repeat('0', k) + d;
    if |d| == 0 {
      assert s == Repeat('0', k);
      ValueOfZeros(k);
    } else {
      var n := |d| - 1;
      assert s[..|s| - 1] == Repeat('0', k) + d[..n];
      ValueLeadingZeros(k, d[..n]);
    }
  }

  lemma {:induction false} ValueOfZeros(k: nat)
    ensures AllDigits(Repeat('0', k)) && Value(Repeat('0', k)) == 0
  {
    if k > 0 {
      assert Repeat('0', k)[..k - 1] == Repeat('0', k - 1);
      ValueOfZeros(k - 1);
    }
  }

  /** A number below 10^k has at most k digits. */
  lemma {:induction false} DigitsBelow(n: nat, k: nat)
    requires k >= 1 && n < Pow10(k)
    ensures |Digits(n)| <= k
    decreases k
  {
    if n >= 10 {
      assert k >= 2;
      DigitsBelow(n / 10, k - 1);
    }
  }

  /** The digit run of a numeral followed by a non-digit is that numeral. */
  lemma {:induction false} LeadingDigitsOfNumeral(d: string, rest: string)
    requires AllDigits(d)
    requires |rest| == 0 || !IsDigit(rest[0])
    ensures LeadingDigits(d + rest) == d
    decreases |d|
  {
    if |d| > 0 {
      assert (d + rest)[1..] == d[1..] + rest;
      LeadingDigitsOfNumeral(d[1..], rest);
    } else {
      assert d + rest == rest;
    }
  }

  lemma {:induction false} SkipSpacesPrefix(k: nat, t: string)
    requires |t| == 0 || !IsSpace(t[0])
    ensures SkipSpaces(Repeat(' ', k) + t) == t
    decreases k
  {
    if k > 0 {
      assert (Repeat(' ', k) + t)[1..] == Repeat(' ', k - 1) + t;
      SkipSpacesPrefix(k - 1, t);
    } else {
      assert Repeat(' ', k) + t == t;
    }
  }

  /**
   atoi reads back what "%wd" printed, whatever non-digit text follows the field: the right
   alignment is white space atoi skips and the numeral ends at the first non-digit.
   */
  lemma AtoiOfPad(x: int, w: nat, rest: string)
    requires |rest| == 0 || !IsDigit(rest[0])
    ensures Atoi(Pad(x, w) + rest) == x
  {
    var k := PadShape(x, w);
    var t := Signed(x) + rest;
    assert t[0] == Signed(x)[0];
    assert Pad(x, w) + rest == Repeat(' ', k) + t;
    AtoiPastBlanks(k, t);
    AtoiOfSigned(x, rest);
  }

  /** Blanks in front of text that does not start with white space do not change what atoi reads. */
  lemma AtoiPastBlanks(k: nat, t: string)
    requires |t| == 0 || !IsSpace(t[0])
    ensures Atoi(Repeat(' ', k) + t) == Atoi(t)
  {
    SkipSpacesPrefix(k, t);
    AtoiSkips(Repeat(' ', k) + t);
    AtoiSkips(t);
  }

  /** "%wd" is blanks followed by the numeral, which does not start with white space. */
  lemma PadShape(x: int, w: nat) returns (k: nat)
    ensures Pad(x, w) == Repeat(' ', k) + Signed(x)
    ensures !IsSpace(Signed(x)[0])
  {
    if |Signed(x)| < w {
      k := w - |Signed(x)|;
    } else {
      k := 0;
      assert Repeat(' ', k) + Signed(x) == Signed(x);
    }
  }

  /** atoi only looks at the text after the leading white space. */
  lemma AtoiSkips(s: string)
    ensures Atoi(s) == Atoi(SkipSpaces(s))
  {
    SkipSpacesIdempotent(s);
    assert Atoi(SkipSpaces(s)) == SignedPrefix(SkipSpaces(SkipSpaces(s)));
  }

  lemma SkipSpacesIdempotent(s: string)
    ensures SkipSpaces(SkipSpaces(s)) == SkipSpaces(s)
  {
  }

  lemma AtoiOfSigned(x: int, rest: string)
    requires |rest| == 0 || !IsDigit(rest[0])
    ensures Atoi(Signed(x) + rest) == x
  {
    if x < 0 {
      AtoiOfMinus(-x, rest);
    } else {
      ValueOfDigits(x);
      AtoiReadsNumeral(Digits(x), rest);
    }
  }

  lemma AtoiOfMinus(n: nat, rest: string)
    requires n > 0
    requires |rest| == 0 || !IsDigit(rest[0])
    ensures Atoi(Signed(-(n as int)) + rest) == -(n as int)
  {
    var d := Digits(n);
    ValueOfDigits(n);
    assert Signed(-(n as int)) + rest == "-" + (d + rest);
    AtoiOfNegative(d, rest);
  }

  /** atoi of a numeral followed by a non-digit is the numeral's value. */
  lemma AtoiReadsNumeral(d: string, rest: string)
    requires |d| >= 1 && AllDigits(d)
    requires |rest| == 0 || !IsDigit(rest[0])
    ensures Atoi(d + rest) == Value(d)
  {
    var t := d + rest;
    assert t[0] == d[0];
    assert SkipSpaces(t) == t;
    LeadingDigitsOfNumeral(d, rest);
  }

  lemma AtoiOfNegative(d: string, rest: string)
    requires |d| >= 1 && AllDigits(d)
    requires |rest| == 0 || !IsDigit(rest[0])
    ensures Atoi("-" + (d + rest)) == -(Value(d) as int)
  {
    var t := "-" + (d + rest);
    assert SkipSpaces(t) == t;
    assert t[1..] == d + rest;
    LeadingDigitsOfNumeral(d, rest);
  }

  /** Zero-padded numerals of the same width are equal only for equal numbers. */
  lemma ZeroPadInjective(a: nat, b: nat, w: nat)
    requires ZeroPad(a, w) == ZeroPad(b, w)
    ensures a == b
  {
  }

  /** Below 10^w, "%0wd" prints exactly w digits. */
  lemma ZeroPadWidth(n: nat, w: nat)
    requires w >= 1 && n < Pow10(w)
    ensures |ZeroPad(n, w)| == w
  {
    DigitsBelow(n, w);
  }
}

/**
  The few Arduino `String` and C library operations the firmware relies on:
  `startsWith`, `endsWith`, `toInt` (which is `atol`, section 7.22.1.2 of
  ISO/IEC 9899:2011) and `itoa` in base 10.
 */
module ArduinoString {

  /** `String::startsWith`: `prefix` is an initial segment of `s`. */
  predicate StartsWith(s: string, prefix: string) {
    |prefix| <= |s| && s[..|prefix|] == prefix
  }

  /** `String::endsWith`: `suffix` is a final segment of `s`. */
  predicate EndsWith(s: string, suffix: string) {
    |suffix| <= |s| && s[|s| - |suffix|..] == suffix
  }

  predicate IsDigit(c: char) {
    '0' <= c <= '9'
  }

  /** The characters `isspace` accepts in the "C" locale: space, \t, \n, \v, \f, \r. */
  predicate IsSpace(c: char) {
    c == ' ' || ('\t' <= c <= '\r')
  }

  predicate AllDigits(s: string) {
    forall i :: 0 <= i < |s| ==> IsDigit(s[i])
  }

  function DigitValue(c: char): (d: nat)
    requires IsDigit(c)
    ensures d < 10
  {
    c as int - '0' as int
  }

  function DigitChar(d: nat): (c: char)
    requires d < 10
    ensures IsDigit(c) && DigitValue(c) == d
  {
    ('0' as int + d) as char
  }

  /** What `atol` skips before the number: the leading white space. */
  function SkipSpace(s: string): (r: string)
    ensures |r| <= |s| && r == s[|s| - |r|..]
    ensures r == [] || !IsSpace(r[0])
    ensures forall i :: 0 <= i < |s| - |r| ==> IsSpace(s[i])
  {
    if |s| > 0 && IsSpace(s[0]) then SkipSpace(s[1..]) else s
  }

  /** The longest run of decimal digits at the start of `s`. */
  function DigitPrefix(s: string): (r: string)
    ensures |r| <= |s| && r == s[..|r|]
    ensures AllDigits(r)
    ensures |r| < |s| ==> !IsDigit(s[|r|])
  {
    if |s| > 0 && IsDigit(s[0]) then [s[0]] + DigitPrefix(s[1..]) else []
  }

  /** The number a run of decimal digits denotes, most significant digit first. */
  function Value(ds: string): nat
    requires AllDigits(ds)
  {
    if ds == [] then 0 else Value(ds[..|ds| - 1]) * 10 + DigitValue(ds[|ds| - 1])
  }

  /**
    `String::toInt`, that is `atol`: white space is skipped, an optional sign is
    read, then the longest run of digits; with no digits the result is 0.
   */
  function ToInt(s: string): int {
    var t := SkipSpace(s);
    if |t| > 0 && t[0] == '-' then -(Value(DigitPrefix(t[1..])) as int)
    else if |t| > 0 && t[0] == '+' then Value(DigitPrefix(t[1..]))
    else Value(DigitPrefix(t))
  }

  /** The decimal digits of `n`, without leading zeros. */
  function Digits(n: nat): (r: string)
    ensures |r| > 0 && AllDigits(r)
  {
    if n < 10 then [DigitChar(n)] else Digits(n / 10) + [DigitChar(n % 10)]
  }

  /** `itoa(n, buf, 10)`: a minus sign for a negative `n`, then its digits. */
  function Itoa(n: int): (r: string)
    ensures |r| > 0
  {
    if n < 0 then "-" + Digits(-n) else Digits(n)
  }

  lemma {:induction false} ValueOfDigits(n: nat)
    ensures Value(Digits(n)) == n
  {
    if n >= 10 {
      var ds := Digits(n);
      assert ds[..|ds| - 1] == Digits(n / 10);
      ValueOfDigits(n / 10);
    }
  }

  /** The digit run stops exactly where the digits stop. */
  lemma {:induction false} DigitPrefixOfDigits(ds: string, rest: string)
    requires AllDigits(ds)
    requires rest == [] || !IsDigit(rest[0])
    ensures DigitPrefix(ds + rest) == ds
  {
    if ds != [] {
      assert (ds + rest)[1..] == ds[1..] + rest;
      DigitPrefixOfDigits(ds[1..], rest);
    }
  }

  /** An unsigned run of digits is read in full, up to the first non-digit. */
  lemma ToIntOfDigits(ds: string, rest: string)
    requires ds != [] && AllDigits(ds)
    requires rest == [] || !IsDigit(rest[0])
    ensures ToInt(ds + rest) == Value(ds)
  {
    var s := ds + rest;
    assert s[0] == ds[0];
    assert SkipSpace(s) == s;
    DigitPrefixOfDigits(ds, rest);
  }

  /** A minus sign followed by a run of digits is read as the negated number. */
  lemma ToIntOfNegative(ds: string, rest: string)
    requires AllDigits(ds)
    requires rest == [] || !IsDigit(rest[0])
    ensures ToInt("-" + ds + rest) == -(Value(ds) as int)
  {
    var s := "-" + ds + rest;
    assert s[0] == '-';
    assert SkipSpace(s) == s;
    assert s[1..] == ds + rest;
    DigitPrefixOfDigits(ds, rest);
  }

  /**
    `toInt` reads back what `itoa` writes, whatever follows it, as long as what
    follows does not begin with a digit.
   */
  lemma ToIntItoa(n: int, rest: string)
    requires rest == [] || !IsDigit(rest[0])
    ensures ToInt(Itoa(n) + rest) == n
  {
    if n < 0 {
      ValueOfDigits(-n);
      ToIntOfNegative(Digits(-n), rest);
    } else {
      ValueOfDigits(n);
      ToIntOfDigits(Digits(n), rest);
    }
  }

  /** With neither white space, sign nor digit in front, `toInt` gives 0. */
  lemma ToIntWithoutDigits(s: string)
    requires s == [] || !(IsDigit(s[0]) || IsSpace(s[0]) || s[0] == '-' || s[0] == '+')
    ensures ToInt(s) == 0
  {
  }
}

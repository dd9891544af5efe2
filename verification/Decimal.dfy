/** Decimal text of integers, as the cursor code formats and parses it. */
module Decimal {
  import opened Network

  const MAX_INT64: int := 0x7fff_ffff_ffff_ffff
  const MAX_INT32: int := 0x7fff_ffff

  predicate IsDigit(c: char) {
    '0' <= c <= '9'
  }

  predicate AllDigits(s: string) {
    forall i :: 0 <= i < |s| ==> IsDigit(s[i])
  }

  function Digit(n: nat): char
    requires n < 10
  {
    '0' + n as char
  }

  /** The text of `n`, without leading zeros. */
  function Digits(n: nat): string {
    if n < 10 then [Digit(n)] else Digits(n / 10) + [Digit(n % 10)]
  }

  /** The number a digit string denotes. */
  function Value(s: string): nat
    requires AllDigits(s)
    decreases |s|
  {
    if s == [] then 0 else 10 * Value(s[..|s| - 1]) + (s[|s| - 1] - '0') as nat
  }

  /** ParseInt in base ten and 64 bits: an optional sign, at least one digit, nothing else, no overflow. */
  function ParseInt(s: string): Option<int> {
    var signed := s != [] && (s[0] == '-' || s[0] == '+');
    var digits := if signed then s[1..] else s;
    if digits == [] || !AllDigits(digits) then None
    else
      var n: int := if signed && s[0] == '-' then -(Value(digits) as int) else Value(digits);
      if -MAX_INT64 - 1 <= n <= MAX_INT64 then Some(n) else None
  }

  lemma {:induction false} DigitsDenote(n: nat)
    ensures Digits(n) != [] && AllDigits(Digits(n)) && Value(Digits(n)) == n
  {
    if n < 10 {
      assert [Digit(n)][..0] == [];
    } else {
      DigitsDenote(n / 10);
      assert Digits(n)[..|Digits(n)| - 1] == Digits(n / 10);
    }
  }

  /** Parsing undoes formatting. */
  lemma ParseDigits(n: nat)
    requires n <= MAX_INT64
    ensures ParseInt(Digits(n)) == Some(n)
  {
    DigitsDenote(n);
    assert IsDigit(Digits(n)[0]);
  }

  lemma ParseSign(sign: char, s: string)
    requires (sign == '-' || sign == '+') && s != [] && AllDigits(s)
    ensures var n: int := if sign == '-' then -(Value(s) as int) else Value(s);
            ParseInt([sign] + s) == if -MAX_INT64 - 1 <= n <= MAX_INT64 then Some(n) else None
  {
    assert ([sign] + s)[1..] == s;
  }

  /** Parsing takes a sign, and rejects what 64 bits cannot hold. */
  lemma ParseSigned(n: nat)
    ensures ParseInt(['-'] + Digits(n)) == if n <= MAX_INT64 + 1 then Some(0 - n as int) else None
    ensures ParseInt(['+'] + Digits(n)) == if n <= MAX_INT64 then Some(n) else None
    ensures n > MAX_INT64 ==> ParseInt(Digits(n)) == None
  {
    DigitsDenote(n);
    ParseSign('-', Digits(n));
    ParseSign('+', Digits(n));
    assert IsDigit(Digits(n)[0]);
  }

  /** And it rejects any other character. */
  lemma ParseRejects(s: string, i: nat)
    requires i < |s| && !IsDigit(s[i]) && (i > 0 || (s[0] != '-' && s[0] != '+'))
    ensures ParseInt(s) == None && ParseInt("") == None && ParseInt("-") == None && ParseInt("+") == None
  {
    var signed := s[0] == '-' || s[0] == '+';
    var digits := if signed then s[1..] else s;
    assert digits[if signed then i - 1 else i] == s[i];
  }

  function Zeros(n: nat): string {
    seq(n, _ => '0')
  }

  /** The text of `n`, padded with zeros to `width` characters. */
  function Padded(n: nat, width: nat): string {
    var s := Digits(n);
    if |s| < width then Zeros(width - |s|) + s else s
  }

  function Pow10(k: nat): nat {
    if k == 0 then 1 else 10 * Pow10(k - 1)
  }

  lemma {:induction false} DigitsFit(n: nat, k: nat)
    requires k >= 1 && n < Pow10(k)
    ensures |Digits(n)| <= k
  {
    if n >= 10 {
      assert k > 1;
      DigitsFit(n / 10, k - 1);
    }
  }

  lemma {:induction false} LeadingZeros(n: nat, s: string)
    requires AllDigits(s)
    ensures AllDigits(Zeros(n) + s) && Value(Zeros(n) + s) == Value(s)
    decreases |s|, n
  {
    var z := Zeros(n) + s;
    if s != [] {
      assert z[..|z| - 1] == Zeros(n) + s[..|s| - 1];
      LeadingZeros(n, s[..|s| - 1]);
    } else if n > 0 {
      assert z[..|z| - 1] == Zeros(n - 1) + s;
      LeadingZeros(n - 1, s);
    }
  }

  lemma PaddedDenotes(n: nat, width: nat)
    requires width >= 1 && n < Pow10(width)
    ensures |Padded(n, width)| == width && AllDigits(Padded(n, width)) && Value(Padded(n, width)) == n
  {
    var s := Digits(n);
    DigitsDenote(n);
    DigitsFit(n, width);
    if |s| < width {
      LeadingZeros(width - |s|, s);
      assert Padded(n, width) == Zeros(width - |s|) + s;
    }
  }

  /** Lexicographic order of strings. */
  predicate LexLess(a: string, b: string)
    decreases |a|
  {
    b != [] && (a == [] || a[0] < b[0] || (a[0] == b[0] && LexLess(a[1..], b[1..])))
  }

  lemma {:induction false} LexConcat(a: string, b: string, c: string, d: string)
    requires |a| == |b|
    ensures LexLess(a + c, b + d) <==> LexLess(a, b) || (a == b && LexLess(c, d))
    decreases |a|
  {
    if a == [] {
      assert a + c == c && b + d == d;
    } else {
      LexConcat(a[1..], b[1..], c, d);
      assert (a + c)[1..] == a[1..] + c && (b + d)[1..] == b[1..] + d;
      assert a == [a[0]] + a[1..] && b == [b[0]] + b[1..];
    }
  }

  /** On digit strings of one length, lexicographic order is numeric order. */
  lemma {:induction false} LexIsNumeric(a: string, b: string)
    requires |a| == |b| && AllDigits(a) && AllDigits(b)
    ensures LexLess(a, b) <==> Value(a) < Value(b)
    ensures a == b <==> Value(a) == Value(b)
    decreases |a|
  {
    if a != [] {
      var n := |a| - 1;
      LexIsNumeric(a[..n], b[..n]);
      assert a == a[..n] + [a[n]] && b == b[..n] + [b[n]];
      LexConcat(a[..n], b[..n], [a[n]], [b[n]]);
      assert LexLess([a[n]], [b[n]]) <==> a[n] < b[n];
      assert IsDigit(a[n]) && IsDigit(b[n]);
    }
  }
}

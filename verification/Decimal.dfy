/** Decimal text as fprintf writes it and fscanf reads it (sections 7.21.6.1 and 7.21.6.2 of ISO C11),
    for the conversions this program uses: %d, %hhu, and %.2f / %f on whole numbers. */
module Decimal {
  import opened Arith

  datatype Option<+T> = None | Some(value: T)

  predicate IsDigit(c: char) { '0' <= c <= '9' }

  predicate IsSpace(c: char) { c == ' ' || '\t' <= c <= '\r' }

  function DigitValue(c: char): nat
    requires IsDigit(c)
  {
    c as int - '0' as int
  }

  function DigitChar(d: nat): (c: char)
    requires d < 10
    ensures IsDigit(c) && DigitValue(c) == d
  {
    ('0' as int + d) as char
  }

  // ---------- Printing ----------

  function Digits(n: nat): string {
    if n < 10 then [DigitChar(n)] else Digits(n / 10) + [DigitChar(n % 10)]
  }

  /** %d */
  function IntText(n: int): string {
    if n < 0 then "-" + Digits(-n) else Digits(n)
  }

  /** %.2f of a whole number */
  function FixedText(n: int): string {
    IntText(n) + ".00"
  }

  // ---------- Scanning ----------

  predicate AllDigits(s: string) {
    forall i :: 0 <= i < |s| ==> IsDigit(s[i])
  }

  function DigitRun(s: string): (k: nat)
    ensures k <= |s| && AllDigits(s[..k]) && (k < |s| ==> !IsDigit(s[k]))
  {
    if s == "" || !IsDigit(s[0]) then 0 else 1 + DigitRun(s[1..])
  }

  function Value(s: string): nat
    requires AllDigits(s)
  {
    if s == "" then 0 else Value(s[..|s| - 1]) * 10 + DigitValue(s[|s| - 1])
  }

  function SkipSpace(s: string): string {
    if s != "" && IsSpace(s[0]) then SkipSpace(s[1..]) else s
  }

  function SkipSign(s: string): string {
    if s != "" && (s[0] == '-' || s[0] == '+') then s[1..] else s
  }

  predicate Negative(s: string) { s != "" && s[0] == '-' }

  /** %d: optional white space, an optional sign, and as many digits as there are. */
  function ScanInt(s: string): Option<(int, string)> {
    var t := SkipSpace(s);
    var u := SkipSign(t);
    var k := DigitRun(u);
    if k == 0 then None else Some((if Negative(t) then 0 - Value(u[..k]) else Value(u[..k]), u[k..]))
  }

  /** %hhu: the same text, reduced to an unsigned char. */
  function ScanByte(s: string): Option<(int, string)> {
    match ScanInt(s)
    case None => None
    case Some((n, rest)) => Some((n % 256, rest))
  }

  /** Digits with an optional fraction. */
  function ScanUnsigned(u: string): Option<(real, string)> {
    var k := DigitRun(u);
    var f := if k < |u| && u[k] == '.' then u[k + 1..] else "";
    var m := DigitRun(f);
    if k + m == 0 then None else
    Some((Scaled(Value(u[..k] + f[..m]), m), if k < |u| && u[k] == '.' then f[m..] else u[k..]))
  }

  /** %f, without exponents. */
  function ScanFixed(s: string): Option<(real, string)> {
    var t := SkipSpace(s);
    match ScanUnsigned(SkipSign(t))
    case None => None
    case Some((v, rest)) => Some((if Negative(t) then -v else v, rest))
  }

  function Scaled(n: nat, places: nat): real {
    if places == 0 then n as real else Scaled(n, places - 1) / 10.0
  }

  // ---------- Scanning undoes printing ----------

  lemma DigitsAreDigits(n: nat)
    ensures AllDigits(Digits(n)) && |Digits(n)| >= 1
  {
  }

  lemma {:induction false} ValueOfDigits(n: nat)
    ensures AllDigits(Digits(n)) && Value(Digits(n)) == n
  {
    DigitsAreDigits(n);
    if n >= 10 {
      ValueOfDigits(n / 10);
      assert Digits(n)[..|Digits(n)| - 1] == Digits(n / 10);
    }
  }

  lemma {:induction false} RunThrough(d: string, rest: string)
    requires AllDigits(d) && (rest == "" || !IsDigit(rest[0]))
    ensures DigitRun(d + rest) == |d|
  {
    if d == "" {
      assert d + rest == rest;
    } else {
      assert (d + rest)[1..] == d[1..] + rest;
      RunThrough(d[1..], rest);
    }
  }

  /** What the shared front of ScanInt and ScanFixed sees on printed text. */
  lemma Front(n: int, rest: string)
    requires rest == "" || !IsDigit(rest[0])
    ensures var s := IntText(n) + rest; var u := SkipSign(SkipSpace(s)); var d := Digits(Abs(n));
            && SkipSpace(s) == s && Negative(s) == (n < 0) && u == d + rest
            && DigitRun(u) == |d| && u[..|d|] == d && u[|d|..] == rest
  {
    var d, s := Digits(Abs(n)), IntText(n) + rest;
    DigitsAreDigits(Abs(n));
    RunThrough(d, rest);
    assert IsDigit(d[0]) && (d + rest)[..|d|] == d && (d + rest)[|d|..] == rest;
    if n < 0 {
      assert s == "-" + (d + rest);
      assert s[0] == '-' && s[1..] == d + rest;
    } else {
      assert s == d + rest && s[0] == d[0];
    }
  }

  lemma ScanIntText(n: int, rest: string)
    requires rest == "" || !IsDigit(rest[0])
    ensures ScanInt(IntText(n) + rest) == Some((n, rest))
  {
    Front(n, rest);
    ValueOfDigits(Abs(n));
  }

  lemma {:induction false} BlanksSkipped(blanks: string, t: string)
    requires forall i :: 0 <= i < |blanks| ==> blanks[i] in {' ', '\t', '\n', '\U{000B}', '\U{000C}', '\r'}
    requires t != "" && !IsSpace(t[0])
    ensures SkipSpace(blanks + t) == t
  {
    if blanks == "" {
      assert blanks + t == t;
    } else {
      assert (blanks + t)[0] == blanks[0] && (blanks + t)[1..] == blanks[1..] + t;
      BlanksSkipped(blanks[1..], t);
    }
  }

  /** White space before a number is skipped, and a plus sign is as good as none. */
  lemma ScanIntPadded(blanks: string, n: nat, rest: string)
    requires forall i :: 0 <= i < |blanks| ==> blanks[i] in {' ', '\t', '\n', '\U{000B}', '\U{000C}', '\r'}
    requires rest == "" || !IsDigit(rest[0])
    ensures ScanInt(blanks + ("+" + (IntText(n) + rest))) == Some((n, rest))
  {
    var t := "+" + (IntText(n) + rest);
    BlanksSkipped(blanks, t);
    assert t[1..] == IntText(n) + rest;
    Front(n, rest);
    ValueOfDigits(n);
    DigitsAreDigits(n);
    assert IntText(n)[0] == (IntText(n) + rest)[0];
  }

  /** A colour channel out of range wraps modulo 256. */
  lemma ScanByteWraps(n: int, rest: string)
    requires rest == "" || !IsDigit(rest[0])
    ensures var v := ScanByte(IntText(n) + rest);
            v.Some? && v.value.1 == rest && 0 <= v.value.0 < 256 && exists k :: n == v.value.0 + 256 * k
  {
    ScanIntText(n, rest);
    assert n == n % 256 + 256 * (n / 256);
  }

  lemma ScanByteText(n: int, rest: string)
    requires 0 <= n < 256 && (rest == "" || !IsDigit(rest[0]))
    ensures ScanByte(IntText(n) + rest) == Some((n, rest))
  {
    ScanIntText(n, rest);
  }

  /** Two further zeros are undone by two decimal places. */
  lemma HundredthsValue(n: nat)
    ensures AllDigits(Digits(n) + "00") && Scaled(Value(Digits(n) + "00"), 2) == n as real
  {
    var d := Digits(n);
    ValueOfDigits(n);
    assert (d + "00")[..|d| + 1] == d + "0";
    assert (d + "0")[..|d|] == d;
    assert Value(d + "00") == 100 * n;
    assert Scaled(100 * n, 1) == (100 * n) as real / 10.0;
  }

  lemma ScanUnsignedText(n: nat, rest: string)
    requires rest == "" || !IsDigit(rest[0])
    ensures ScanUnsigned(Digits(n) + (".00" + rest)) == Some((n as real, rest))
  {
    var d, f := Digits(n), "00" + rest;
    var u := d + (".00" + rest);
    DigitsAreDigits(n);
    RunThrough(d, ".00" + rest);
    assert u[|d|] == '.' && u[..|d|] == d && u[|d| + 1..] == f;
    RunThrough("00", rest);
    assert f[..2] == "00" && f[2..] == rest;
    HundredthsValue(n);
  }

  lemma ScanFixedText(n: int, rest: string)
    requires rest == "" || !IsDigit(rest[0])
    ensures ScanFixed(FixedText(n) + rest) == Some((n as real, rest))
  {
    assert FixedText(n) + rest == IntText(n) + (".00" + rest);
    Front(n, ".00" + rest);
    ScanUnsignedText(Abs(n), rest);
  }

  lemma {:induction false} ScaledMeans(n: nat, k: nat)
    ensures Scaled(n, k) * Power(10, k) as real == n as real
  {
    if k > 0 {
      ScaledMeans(n, k - 1);
      TenthTimes(Scaled(n, k - 1), Power(10, k - 1) as real);
    }
  }

  lemma TenthTimes(x: real, p: real)
    ensures x / 10.0 * (10.0 * p) == x * p
  {
  }

  /** Any fraction: the digits before and after the point as one number, divided by ten for each digit
      after it (ScaledMeans). */
  lemma ScanFraction(d: string, f: string, rest: string)
    requires d != "" && AllDigits(d) && AllDigits(f) && (rest == "" || !IsDigit(rest[0]))
    ensures AllDigits(d + f)
    ensures ScanUnsigned(d + ("." + (f + rest))) == Some((Scaled(Value(d + f), |f|), rest))
  {
    var g := f + rest;
    var u := d + ("." + g);
    RunThrough(d, "." + g);
    assert u[|d|] == '.' && u[..|d|] == d && u[|d| + 1..] == g;
    RunThrough(f, rest);
    assert g[..|f|] == f && g[|f|..] == rest;
  }

  // ---------- Lengths ----------

  lemma {:induction false} DigitsLength(n: nat, k: nat)
    requires k >= 1 && n < Power(10, k)
    ensures |Digits(n)| <= k
  {
    if n >= 10 {
      assert Power(10, k) == 10 * Power(10, k - 1);
      if k > 1 {
        DigitsLength(n / 10, k - 1);
      }
    }
  }

  lemma IntTextLength(n: int, k: nat)
    requires k >= 1 && Abs(n) < Power(10, k)
    ensures 1 <= |IntText(n)| <= k + if n < 0 then 1 else 0
  {
    DigitsLength(Abs(n), k);
    DigitsAreDigits(Abs(n));
  }

  lemma IntTextChars(n: int)
    ensures forall c :: c in IntText(n) ==> c == '-' || IsDigit(c)
  {
    DigitsAreDigits(Abs(n));
  }
}

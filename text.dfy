/** Decimal text of numbers as the C library reads and writes it: printf's %d and %.2f,
    and the subset of sscanf's %d and %lf conversions that the saved file uses. */
module Text {
  import opened Optional

  predicate IsDigit(c: char) {
    '0' <= c <= '9'
  }

  /** The C locale's isspace: blank, tab, newline, vertical tab, form feed, carriage return. */
  predicate IsSpace(c: char) {
    c == ' ' || '\t' <= c <= '\r'
  }

  predicate AllDigits(s: string) {
    forall i :: 0 <= i < |s| ==> IsDigit(s[i])
  }

  function DigitChar(d: nat): (c: char)
    requires d < 10
    ensures IsDigit(c)
  {
    ('0' as int + d) as char
  }

  function DigitValue(c: char): (d: nat)
    requires IsDigit(c)
    ensures d < 10
  {
    c as int - '0' as int
  }

  lemma DigitValueOfChar(d: nat)
    requires d < 10
    ensures DigitValue(DigitChar(d)) == d
  {
  }

  function Pow10(k: nat): (p: nat)
    ensures p >= 1
  {
    if k == 0 then 1 else 10 * Pow10(k - 1)
  }

  function Abs(i: int): nat {
    if i < 0 then -i else i
  }

  /** The value of a run of decimal digits, most significant first. */
  function DigitsValue(ds: string): nat
    requires AllDigits(ds)
  {
    if ds == [] then 0 else DigitsValue(ds[..|ds| - 1]) * 10 + DigitValue(ds[|ds| - 1])
  }

  /** The decimal digits of n without leading zeros ("0" for zero). */
  function NatText(n: nat): (s: string)
    ensures s != [] && AllDigits(s)
  {
    if n < 10 then [DigitChar(n)] else NatText(n / 10) + [DigitChar(n % 10)]
  }

  lemma {:induction false} NatTextValue(n: nat)
    ensures DigitsValue(NatText(n)) == n
  {
    var s := NatText(n);
    if n < 10 {
      assert s[..0] == [];
      DigitValueOfChar(n);
    } else {
      assert s[..|s| - 1] == NatText(n / 10);
      NatTextValue(n / 10);
      DigitValueOfChar(n % 10);
    }
  }

  /** printf's %d. */
  function IntText(i: int): string {
    if i < 0 then "-" + NatText(-i) else NatText(i)
  }

  /** x rounded to a whole number of hundredths, halves upward. */
  function RoundHundredths(x: real): int {
    (x * 100.0 + 0.5).Floor
  }

  /** The real number k / 100. */
  function Cents(k: int): real {
    k as real / 100.0
  }

  /** The value %.2f writes for x, read back exactly: x rounded to two decimal places. */
  function Hundredths(x: real): (y: real)
    ensures x - 0.005 < y <= x + 0.005
  {
    Cents(RoundHundredths(x))
  }

  /** printf's %.2f of a value that is k hundredths. */
  function FixedText(k: int): string {
    var m := Abs(k);
    var cents := m % 100;
    (if k < 0 then "-" else "") + NatText(m / 100) + "." + [DigitChar(cents / 10), DigitChar(cents % 10)]
  }

  /** The longest prefix of s made of decimal digits. */
  function DigitRun(s: string): (ds: string)
    ensures AllDigits(ds) && |ds| <= |s|
  {
    if s != [] && IsDigit(s[0]) then [s[0]] + DigitRun(s[1..]) else []
  }

  lemma {:induction false} DigitRunOf(ds: string, rest: string)
    requires AllDigits(ds)
    requires rest == [] || !IsDigit(rest[0])
    ensures DigitRun(ds + rest) == ds
  {
    if ds != [] {
      assert (ds + rest)[1..] == ds[1..] + rest;
      DigitRunOf(ds[1..], rest);
    } else {
      assert ds + rest == rest;
    }
  }

  /** Leading white space, skipped by the numeric conversions of sscanf. */
  function SkipSpace(s: string): string {
    if s != [] && IsSpace(s[0]) then SkipSpace(s[1..]) else s
  }

  /** The text after an optional sign. */
  function Unsigned(t: string): string {
    if t != [] && (t[0] == '-' || t[0] == '+') then t[1..] else t
  }

  function Negative(t: string): bool {
    t != [] && t[0] == '-'
  }

  /** sscanf's %d: white space, an optional sign, then at least one digit (the longest run). */
  function ScanInt(s: string): Option<Scan<int>> {
    var t := SkipSpace(s);
    var u := Unsigned(t);
    var ds := DigitRun(u);
    if ds == [] then None
    else
      var v: int := DigitsValue(ds);
      Some(Scan(if Negative(t) then -v else v, u[|ds|..]))
  }

  /** An unsigned decimal numeral: digits, optionally a point and more digits, at least one digit in all. */
  function ScanMagnitude(u: string): Option<Scan<real>> {
    var whole := DigitRun(u);
    var v := u[|whole|..];
    var point := v != [] && v[0] == '.';
    var frac := if point then DigitRun(v[1..]) else [];
    var rest := if point then v[1 + |frac|..] else v;
    if |whole| + |frac| == 0 then None
    else Some(Scan(DecimalValue(whole, frac), rest))
  }

  /** The value of the numeral whole.frac. */
  function DecimalValue(whole: string, frac: string): real
    requires AllDigits(whole) && AllDigits(frac)
  {
    DigitsValue(whole) as real + DigitsValue(frac) as real / Pow10(|frac|) as real
  }

  /** sscanf's %lf on plain decimal notation: white space, an optional sign, then a decimal numeral. */
  function ScanReal(s: string): Option<Scan<real>> {
    var t := SkipSpace(s);
    var m :- ScanMagnitude(Unsigned(t));
    Some(Scan(if Negative(t) then -m.value else m.value, m.rest))
  }

  /** %lf fails on text that starts with neither white space, a sign, a digit, a point nor a
      letter that can begin "inf", "infinity" or "nan". */
  lemma NotANumber(s: string)
    requires s != [] && !IsSpace(s[0]) && !IsDigit(s[0]) && s[0] != '+' && s[0] != '-' && s[0] != '.'
    requires s[0] !in "iInN"
    ensures ScanReal(s).None?
  {
    assert SkipSpace(s) == s && Unsigned(s) == s;
    assert DigitRun(s) == [];
  }

  lemma SignedText(t: string, neg: bool, u: string)
    requires u != [] && IsDigit(u[0])
    requires t == (if neg then "-" else "") + u
    ensures SkipSpace(t) == t && Negative(t) == neg && Unsigned(t) == u
  {
  }

  /** Reading back what %d wrote gives the same integer, when a non-digit follows. */
  lemma IntRoundTrip(i: int, rest: string)
    requires rest == [] || !IsDigit(rest[0])
    ensures ScanInt(IntText(i) + rest) == Some(Scan(i, rest))
  {
    var ds := NatText(Abs(i));
    var s := IntText(i) + rest;
    assert s == (if i < 0 then "-" else "") + (ds + rest);
    SignedText(s, i < 0, ds + rest);
    DigitRunOf(ds, rest);
    NatTextValue(Abs(i));
    assert (ds + rest)[|ds|..] == rest;
  }

  /** A decimal numeral with a point, followed by text that cannot continue it, reads as its value. */
  lemma ScanMagnitudeOf(whole: string, frac: string, rest: string)
    requires AllDigits(whole) && AllDigits(frac) && whole != []
    requires rest == [] || (!IsDigit(rest[0]) && rest[0] != '.')
    ensures ScanMagnitude(whole + ("." + (frac + rest))) == Some(Scan(DecimalValue(whole, frac), rest))
  {
    var v := "." + (frac + rest);
    var u := whole + v;
    DigitRunOf(whole, v);
    assert u[|whole|..] == v;
    assert v[1..] == frac + rest;
    DigitRunOf(frac, rest);
    assert v[1 + |frac|..] == rest;
  }

  /** %lf reads a whole number written without a point as that number. */
  lemma WholeRoundTrip(n: nat, rest: string)
    requires rest == [] || (!IsDigit(rest[0]) && rest[0] != '.' && rest[0] !in "eExX")
    ensures ScanReal(NatText(n) + rest) == Some(Scan(n as real, rest))
  {
    var ds := NatText(n);
    var u := ds + rest;
    SignedText(u, false, u);
    DigitRunOf(ds, rest);
    assert u[|ds|..] == rest;
    NatTextValue(n);
    assert Pow10(0) == 1;
    assert DigitsValue([]) == 0;
  }

  /** The two digits %.2f writes after the point for m hundredths. */
  lemma CentsValue(cents: nat)
    requires cents < 100
    ensures DigitsValue([DigitChar(cents / 10), DigitChar(cents % 10)]) == cents
  {
    var frac := [DigitChar(cents / 10), DigitChar(cents % 10)];
    assert frac[..1][..0] == [];
    assert frac[..1] == [DigitChar(cents / 10)];
    DigitValueOfChar(cents / 10);
    DigitValueOfChar(cents % 10);
    assert DigitsValue(frac[..1]) == cents / 10;
    assert DigitsValue(frac) == (cents / 10) * 10 + cents % 10;
  }

  /** The numeral %.2f writes for m hundredths, without its sign, has the value m / 100. */
  lemma FixedValue(m: nat)
    ensures DecimalValue(NatText(m / 100), [DigitChar(m % 100 / 10), DigitChar(m % 100 % 10)]) == Cents(m)
  {
    NatTextValue(m / 100);
    CentsValue(m % 100);
    assert Pow10(2) == 100;
    assert m == (m / 100) * 100 + m % 100;
  }

  /** A sign followed by a numeral that starts with a digit reads as the signed magnitude. */
  lemma ScanSigned(neg: bool, u: string, d: real, rest: string)
    requires u != [] && IsDigit(u[0])
    requires ScanMagnitude(u) == Some(Scan(d, rest))
    ensures ScanReal((if neg then "-" else "") + u) == Some(Scan(if neg then -d else d, rest))
  {
    SignedText((if neg then "-" else "") + u, neg, u);
  }

  lemma FixedTextShape(k: int, rest: string)
    ensures var m := Abs(k);
            FixedText(k) + rest
              == (if k < 0 then "-" else "")
                 + (NatText(m / 100) + ("." + ([DigitChar(m % 100 / 10), DigitChar(m % 100 % 10)] + rest)))
  {
  }

  lemma SignedCents(k: int, d: real)
    requires d == Cents(Abs(k))
    ensures (if k < 0 then -d else d) == Cents(k)
  {
  }

  /** Reading back what %.2f wrote for k hundredths gives k / 100 exactly. */
  lemma FixedRoundTrip(k: int, rest: string)
    requires rest == [] || (!IsDigit(rest[0]) && rest[0] != '.' && rest[0] !in "eE")
    ensures ScanReal(FixedText(k) + rest) == Some(Scan(Cents(k), rest))
  {
    var m := Abs(k);
    var whole := NatText(m / 100);
    var frac := [DigitChar(m % 100 / 10), DigitChar(m % 100 % 10)];
    var d := DecimalValue(whole, frac);
    var u := whole + ("." + (frac + rest));
    FixedTextShape(k, rest);
    ScanMagnitudeOf(whole, frac, rest);
    ScanSigned(k < 0, u, d, rest);
    assert ScanReal(FixedText(k) + rest) == ScanReal((if k < 0 then "-" else "") + u);
    FixedValue(m);
    SignedCents(k, d);
  }
}

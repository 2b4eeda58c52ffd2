/** String operations the request handling relies on, with JavaScript's
    meaning: `String.prototype.trim`, `split` on one character, `join`, the
    `^\d{4}-\d{2}-\d{2}$` date shape, and the `Number(string)` conversion
    that `z.coerce.number()` applies to query parameters. */
module Text {
  import opened Seqs

  /** The characters `trim` removes: ECMAScript WhiteSpace and LineTerminator. */
  predicate IsSpace(c: char) {
    c == '\t' || c == '\n' || c == '\U{000B}' || c == '\U{000C}' || c == '\r' || c == ' '
    || c == '\U{00A0}' || c == '\U{1680}' || ('\U{2000}' <= c <= '\U{200A}')
    || c == '\U{2028}' || c == '\U{2029}' || c == '\U{202F}' || c == '\U{205F}'
    || c == '\U{3000}' || c == '\U{FEFF}'
  }

  ghost predicate AllSpace(s: string) {
    forall i :: 0 <= i < |s| ==> IsSpace(s[i])
  }

  /** No whitespace at either end. */
  predicate Trimmed(s: string) {
    s == [] || (!IsSpace(s[0]) && !IsSpace(s[|s| - 1]))
  }

  /** The number of whitespace characters at the front of `s`. */
  function LeadingSpace(s: string): (k: nat)
    ensures k <= |s| && AllSpace(s[..k])
    ensures k < |s| ==> !IsSpace(s[k])
  {
    if s != [] && IsSpace(s[0]) then
      var k := 1 + LeadingSpace(s[1..]);
      assert s[..k] == [s[0]] + s[1..][..k - 1];
      k
    else 0
  }

  /** The number of whitespace characters at the end of `s`. */
  function TrailingSpace(s: string): (k: nat)
    ensures k <= |s| && AllSpace(s[|s| - k..])
    ensures k < |s| ==> !IsSpace(s[|s| - 1 - k])
  {
    if s != [] && IsSpace(s[|s| - 1]) then
      var k := 1 + TrailingSpace(s[..|s| - 1]);
      TrailingStep(s, k);
      k
    else 0
  }

  /** One more whitespace character at the end extends a whitespace tail. */
  lemma TrailingStep(s: string, k: nat)
    requires s != [] && IsSpace(s[|s| - 1]) && 1 <= k <= |s|
    requires AllSpace(s[..|s| - 1][|s| - k..])
    requires k < |s| ==> !IsSpace(s[..|s| - 1][|s| - 1 - k])
    ensures AllSpace(s[|s| - k..])
    ensures k < |s| ==> !IsSpace(s[|s| - 1 - k])
  {
    var init := s[..|s| - 1];
    assert s[|s| - k..] == init[|s| - k..] + [s[|s| - 1]];
  }

  /** `String.prototype.trim`: the result has no whitespace at either end
      and is `s` with only whitespace taken off the two ends. */
  function Trim(s: string): (r: string)
    ensures Trimmed(r)
    ensures |r| <= |s|
    ensures LeadingSpace(s) + |r| <= |s| && r == s[LeadingSpace(s)..LeadingSpace(s) + |r|]
    ensures AllSpace(s[..LeadingSpace(s)]) && AllSpace(s[LeadingSpace(s) + |r|..])
  {
    var k := LeadingSpace(s);
    var t := s[k..];
    var j := TrailingSpace(t);
    TrimSlices(s, k, j);
    t[..|t| - j]
  }

  /** Cutting `k` leading and `j` trailing whitespace characters, with
      non-space characters just inside both cuts, leaves trimmed text that
      is the middle slice of `s`. */
  lemma TrimSlices(s: string, k: nat, j: nat)
    requires k <= |s| && j <= |s| - k
    requires k < |s| ==> !IsSpace(s[k])
    requires AllSpace(s[k..][|s| - k - j..])
    requires j < |s| - k ==> !IsSpace(s[k..][|s| - k - 1 - j])
    ensures var r := s[k..][..|s| - k - j];
      && Trimmed(r) && r == s[k..k + |r|] && AllSpace(s[k + |r|..])
  {
    var t := s[k..];
    var r := t[..|t| - j];
    assert r == s[k..k + |r|];
    assert s[k + |r|..] == t[|t| - j..];
    if r != [] {
      assert r[0] == s[k];
      assert r[|r| - 1] == t[|t| - 1 - j];
    }
  }

  /** Text is blank (trims to nothing) exactly when it is all whitespace. */
  lemma BlankIffAllSpace(s: string)
    ensures Trim(s) == [] <==> AllSpace(s)
  {
    var r := Trim(s);
    var k := LeadingSpace(s);
    if r == [] {
      assert s[..k] == s;
    } else {
      assert r[0] == s[k];
    }
  }

  /** Text without whitespace at either end is left as it is. */
  lemma TrimOfTrimmed(s: string)
    requires Trimmed(s)
    ensures Trim(s) == s
  {
    assert LeadingSpace(s) == 0;
    assert s[0..] == s;
    assert TrailingSpace(s) == 0;
  }

  /** A string starting with a non-whitespace character is not blank. */
  lemma LeadingNonSpaceNotBlank(s: string)
    requires s != [] && !IsSpace(s[0])
    ensures Trim(s) != []
  {
    BlankIffAllSpace(s);
  }

  /** Trimming is idempotent, and it changes exactly the strings that carry
      whitespace at an end. */
  lemma TrimIdempotent(s: string)
    ensures Trim(Trim(s)) == Trim(s)
    ensures Trim(s) == s <==> Trimmed(s)
  {
    TrimOfTrimmed(Trim(s));
    if Trimmed(s) {
      TrimOfTrimmed(s);
    }
  }

  /** `s.split(c)`: the pieces between occurrences of `c`, always at least one. */
  function Split(s: string, c: char): (r: seq<string>)
    ensures |r| >= 1
    ensures forall i :: 0 <= i < |r| ==> c !in r[i]
  {
    if s == [] then [[]]
    else
      var rest := Split(s[1..], c);
      if s[0] == c then [[]] + rest
      else [[s[0]] + rest[0]] + rest[1..]
  }

  /** `parts.join(sep)`: empty for no parts, and otherwise starting with
      the first part, followed by the separator when more parts follow. */
  function Join(parts: seq<string>, sep: string): (r: string)
    ensures parts == [] ==> r == []
    ensures parts != [] ==> |parts[0]| <= |r| && r[..|parts[0]|] == parts[0]
    ensures |parts| >= 2 ==> |parts[0]| + |sep| <= |r| && r[|parts[0]|..|parts[0]| + |sep|] == sep
  {
    if parts == [] then []
    else if |parts| == 1 then parts[0]
    else parts[0] + sep + Join(parts[1..], sep)
  }

  /** Joining the pieces of a split with the separator gives back the string. */
  lemma {:induction false} SplitJoin(s: string, c: char)
    ensures Join(Split(s, c), [c]) == s
  {
    if s != [] {
      var rest := Split(s[1..], c);
      SplitJoin(s[1..], c);
      if s[0] == c {
        assert Split(s, c) == [[]] + rest;
        assert s == [c] + s[1..];
      } else {
        var r := Split(s, c);
        assert r == [[s[0]] + rest[0]] + rest[1..];
        if |rest| == 1 {
          assert Join(rest, [c]) == rest[0];
        } else {
          assert Join(rest, [c]) == rest[0] + [c] + Join(rest[1..], [c]);
          assert r[1..] == rest[1..];
        }
        assert s == [s[0]] + s[1..];
      }
    }
  }

  predicate IsDigit(c: char) {
    '0' <= c <= '9'
  }

  predicate AllDigits(s: string) {
    forall i :: 0 <= i < |s| ==> IsDigit(s[i])
  }

  /** The regular expression `^\d{4}-\d{2}-\d{2}$` (JavaScript `\d` is ASCII only). */
  predicate IsIsoDate(s: string): (b: bool)
    ensures b ==> |s| == 10 && Trimmed(s)
  {
    |s| == 10 && s[4] == '-' && s[7] == '-'
    && AllDigits(s[..4]) && AllDigits(s[5..7]) && AllDigits(s[8..])
  }

  function DigitsValue(s: string): (n: nat)
    requires AllDigits(s)
  {
    if s == [] then 0
    else DigitsValue(s[..|s| - 1]) * 10 + (s[|s| - 1] as int - '0' as int)
  }

  function Pow10(k: nat): (p: nat)
    ensures p >= 1
  {
    if k == 0 then 1 else 10 * Pow10(k - 1)
  }

  /** Number of leading decimal digits of `s`. */
  function LeadingDigits(s: string): (k: nat)
    ensures k <= |s| && AllDigits(s[..k])
    ensures k < |s| ==> !IsDigit(s[k])
  {
    if s != [] && IsDigit(s[0]) then
      var k := 1 + LeadingDigits(s[1..]);
      assert s[..k] == [s[0]] + s[1..][..k - 1];
      k
    else 0
  }

  /** An unsigned decimal literal without exponent: `D+`, `D+.D*` or `.D+`. */
  function UnsignedDecimal(b: string): Option<real> {
    var k := LeadingDigits(b);
    var rest := b[k..];
    if rest == [] then
      if k > 0 then Some(DigitsValue(b[..k]) as real) else None
    else if rest[0] == '.' && AllDigits(rest[1..]) && (k > 0 || |rest| > 1) then
      Some(DigitsValue(b[..k]) as real + FractionValue(rest[1..]))
    else None
  }

  /** The value of the digits after a decimal point. */
  function FractionValue(ds: string): real
    requires AllDigits(ds)
  {
    DigitsValue(ds) as real / Pow10(|ds|) as real
  }

  /** `Number(s)` for the decimal forms: blank text is 0, surrounding
      whitespace is ignored, an optional sign precedes the literal; None
      stands for NaN. */
  function ParseNumber(s: string): (r: Option<real>)
    ensures Trim(s) == [] ==> r == Some(0.0)
  {
    SignedDecimal(Trim(s))
  }

  /** The number spelled by already trimmed text. */
  function SignedDecimal(t: string): Option<real> {
    if t == [] then Some(0.0)
    else
      var neg := t[0] == '-';
      var body := if t[0] == '-' || t[0] == '+' then t[1..] else t;
      match UnsignedDecimal(body)
      case None => None
      case Some(v) => Some(if neg then -v else v)
  }

  /** Whitespace around a number does not change its value. */
  lemma ParseNumberIgnoresSpace(s: string)
    ensures ParseNumber(s) == ParseNumber(Trim(s))
  {
    TrimIdempotent(s);
  }

  lemma DigitsAreTrimmed(s: string)
    requires s != [] && AllDigits(s)
    ensures Trim(s) == s
  {
    assert IsDigit(s[0]) && IsDigit(s[|s| - 1]);
    assert !IsSpace(s[0]) && !IsSpace(s[|s| - 1]);
    TrimOfTrimmed(s);
  }

  lemma DigitsAreDecimal(s: string)
    requires s != [] && AllDigits(s)
    ensures UnsignedDecimal(s) == Some(DigitsValue(s) as real)
  {
    var k := LeadingDigits(s);
    assert k == |s|;
    assert s[..k] == s && s[k..] == [];
  }

  /** The leading digits of a digit run followed by a non-digit are that run. */
  lemma {:induction false} LeadingDigitsOfRun(d: string, rest: string)
    requires AllDigits(d) && rest != [] && !IsDigit(rest[0])
    ensures LeadingDigits(d + rest) == |d|
  {
    if d != [] {
      assert (d + rest)[1..] == d[1..] + rest;
      LeadingDigitsOfRun(d[1..], rest);
    }
  }

  /** Digits after a point stand for a value in [0, 1). */
  lemma {:induction false} DigitsBelowPow10(ds: string)
    requires AllDigits(ds)
    ensures DigitsValue(ds) < Pow10(|ds|)
  {
    if ds != [] {
      DigitsBelowPow10(ds[..|ds| - 1]);
    }
  }

  lemma FractionBelowOne(ds: string)
    requires AllDigits(ds)
    ensures 0.0 <= FractionValue(ds) < 1.0
  {
    DigitsBelowPow10(ds);
    QuotientBelowOne(DigitsValue(ds) as real, Pow10(|ds|) as real);
  }

  lemma QuotientBelowOne(a: real, b: real)
    requires 0.0 <= a < b
    ensures 0.0 <= a / b < 1.0
  {
  }

  /** A sign in front of a digit run: "-" negates its value, "+" keeps it. */
  lemma ParseSignedDigits(d: string)
    requires d != [] && AllDigits(d)
    ensures ParseNumber("-" + d) == Some(-(DigitsValue(d) as real))
    ensures ParseNumber("+" + d) == Some(DigitsValue(d) as real)
  {
    SignedDigitsValue('-', d);
    SignedDigitsValue('+', d);
    assert "-" + d == ['-'] + d && "+" + d == ['+'] + d;
  }

  lemma SignedDigitsValue(sign: char, d: string)
    requires sign == '-' || sign == '+'
    requires d != [] && AllDigits(d)
    ensures ParseNumber([sign] + d) == Some(if sign == '-' then -(DigitsValue(d) as real) else DigitsValue(d) as real)
  {
    var t := [sign] + d;
    DigitsAreDecimal(d);
    SignedTextTrimmed(sign, d);
    assert t[0] == sign;
    assert ParseNumber(t) == SignedDecimal(t);
  }

  /** A sign followed by digits has no whitespace to trim, and the digits
      follow the sign. */
  lemma SignedTextTrimmed(sign: char, d: string)
    requires sign == '-' || sign == '+'
    requires d != [] && AllDigits(d)
    ensures Trim([sign] + d) == [sign] + d && ([sign] + d)[1..] == d
  {
    var t := [sign] + d;
    assert IsDigit(d[|d| - 1]) && t[|t| - 1] == d[|d| - 1];
    TrimOfTrimmed(t);
  }

  /** Digits, a point and more digits read as the whole part plus the
      fraction: "12.5" is 12.5. */
  lemma ParseDecimalFraction(d: string, f: string)
    requires d != [] && AllDigits(d) && AllDigits(f)
    ensures ParseNumber(d + "." + f) == Some(DigitsValue(d) as real + FractionValue(f))
  {
    var t := d + "." + f;
    FractionTextTrimmed(d, f);
    UnsignedFraction(d, f);
    assert t[0] == d[0];
  }

  lemma FractionTextTrimmed(d: string, f: string)
    requires d != [] && AllDigits(d) && AllDigits(f)
    ensures Trim(d + "." + f) == d + "." + f
  {
    var t := d + "." + f;
    assert IsDigit(t[0]);
    assert t[|t| - 1] == if f == [] then '.' else f[|f| - 1];
    TrimOfTrimmed(t);
  }

  lemma UnsignedFraction(d: string, f: string)
    requires d != [] && AllDigits(d) && AllDigits(f)
    ensures UnsignedDecimal(d + "." + f) == Some(DigitsValue(d) as real + FractionValue(f))
  {
    var t := d + "." + f;
    assert t == d + ("." + f);
    LeadingDigitsOfRun(d, "." + f);
    assert t[..|d|] == d;
    assert t[|d|..] == "." + f;
    assert t[|d|..][1..] == f;
  }

  /** With a non-zero fraction, "D.F" lies strictly between D and D + 1. */
  lemma ParseFractionBetween(d: string, f: string)
    requires d != [] && AllDigits(d) && AllDigits(f) && DigitsValue(f) > 0
    ensures ParseNumber(d + "." + f).Some?
    ensures DigitsValue(d) as real < ParseNumber(d + "." + f).value < DigitsValue(d) as real + 1.0
  {
    ParseDecimalFraction(d, f);
    FractionBelowOne(f);
    PositiveQuotient(DigitsValue(f) as real, Pow10(|f|) as real);
  }

  lemma PositiveQuotient(a: real, b: real)
    requires a > 0.0 && b > 0.0
    ensures a / b > 0.0
  {
  }

  /** A plain run of digits reads as the integer it spells. */
  lemma ParseDigits(s: string)
    requires s != [] && AllDigits(s)
    ensures ParseNumber(s) == Some(DigitsValue(s) as real)
  {
    DigitsAreTrimmed(s);
    DigitsAreDecimal(s);
    assert IsDigit(s[0]);
  }
}

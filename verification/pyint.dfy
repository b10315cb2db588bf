/** Python's `int(text, 0)`: an integer literal with its base taken from
    its prefix, as the checker uses it for enum initialisers and for the
    entries of the speed table.

    `int` skips the surrounding whitespace that `str.isspace` knows, except
    the four ASCII information separators U+001C-U+001F: those are kept as
    they are and are never part of a literal, so text holding one raises.
    Accepted, between the skipped whitespace: an optional `+` or `-`, then
    one of
    - `0x`/`0X` and hexadecimal digits, `0o`/`0O` and octal digits,
      `0b`/`0B` and binary digits;
    - `0` repeated (a decimal zero);
    - decimal digits not starting with `0`.
    Anything else raises `ValueError` carrying the text that was passed in.
 */
module PyInt {
  import opened Outcomes
  import opened PyStr

  /** The value of a digit character in bases up to 16; 16 for a character
      that is no digit at all. */
  function DigitValue(c: char): nat {
    if '0' <= c <= '9' then c as int - '0' as int
    else if 'a' <= c <= 'f' then c as int - 'a' as int + 10
    else if 'A' <= c <= 'F' then c as int - 'A' as int + 10
    else 16
  }

  /** Every character of `ds` is a digit in `base`. */
  predicate IsDigits(ds: string, base: nat) {
    forall i :: 0 <= i < |ds| ==> DigitValue(ds[i]) < base
  }

  /** The number written by the digits `ds`, most significant first. */
  function DigitsValue(ds: string, base: nat): nat
    decreases |ds|
  {
    if |ds| == 0 then 0
    else DigitsValue(ds[..|ds| - 1], base) * base + DigitValue(ds[|ds| - 1])
  }

  /** A non-empty run of digits in `base`, and its value. */
  function Digits(ds: string, base: nat): Option<nat> {
    if |ds| > 0 && IsDigits(ds, base) then Some(DigitsValue(ds, base)) else None
  }

  /** An unsigned literal under base 0: the prefix selects the base, and a
      decimal literal may start with `0` only when it is all zeros. */
  function ParseUnsigned(b: string): Option<nat> {
    if |b| >= 2 && b[0] == '0' && (b[1] == 'x' || b[1] == 'X') then Digits(b[2..], 16)
    else if |b| >= 2 && b[0] == '0' && (b[1] == 'o' || b[1] == 'O') then Digits(b[2..], 8)
    else if |b| >= 2 && b[0] == '0' && (b[1] == 'b' || b[1] == 'B') then Digits(b[2..], 2)
    else if |b| > 0 && b[0] == '0' then
      if forall i :: 0 <= i < |b| ==> b[i] == '0' then Some(0) else None
    else Digits(b, 10)
  }

  /** An ASCII information separator, U+001C to U+001F. */
  predicate IsSeparator(c: char) {
    '\U{1C}' <= c <= '\U{1F}'
  }

  /** An information separator occurs in `s` at or after index `i`. */
  predicate HasSeparator(s: string, i: nat)
    decreases |s| - i
  {
    i < |s| && (IsSeparator(s[i]) || HasSeparator(s, i + 1))
  }

  /** A separator at `k` is found by a search starting at or before `k`. */
  lemma {:induction false} SeparatorFound(s: string, i: nat, k: nat)
    requires i <= k < |s| && IsSeparator(s[k])
    ensures HasSeparator(s, i)
    decreases k - i
  {
    if i < k {
      SeparatorFound(s, i + 1, k);
    }
  }

  /** Text whose characters from `i` on are all literal characters has no
      separator there. */
  lemma {:induction false} NoSeparator(s: string, i: nat)
    requires i <= |s|
    requires forall k :: i <= k < |s| ==> LiteralChar(s[k]) || s[k] == '-'
    ensures !HasSeparator(s, i)
    decreases |s| - i
  {
    if i < |s| {
      NoSeparator(s, i + 1);
    }
  }

  /** `int(s, 0)`. */
  function ParseInt(s: string): (r: Result<int>)
    ensures r.Err? ==> r.error == ValueError(s)
    ensures Strip(s) == [] ==> r.Err?
    ensures r.Ok? && r.value < 0 ==> Strip(s)[0] == '-'
  {
    if HasSeparator(s, 0) then Err(ValueError(s))
    else
    var t := Strip(s);
    var body := if |t| > 0 && (t[0] == '+' || t[0] == '-') then t[1..] else t;
    match ParseUnsigned(body)
    case Some(n) =>
      var v: int := if |t| > 0 && t[0] == '-' then -(n as int) else n;
      Ok(v)
    case None => Err(ValueError(s))
  }

  /** `int` does not skip the information separators, and no literal
      holds one, so text holding one raises wherever it stands. */
  lemma SeparatorRaises(s: string, k: nat)
    requires k < |s| && IsSeparator(s[k])
    ensures ParseInt(s) == Err(ValueError(s))
  {
    SeparatorFound(s, 0, k);
  }

  /** The digit character for `d`, lower case above 9. */
  function DigitChar(d: nat): (c: char)
    requires d < 16
    ensures DigitValue(c) == d
  {
    if d < 10 then ('0' as int + d) as char else ('a' as int + d - 10) as char
  }

  /** `n` written in `base` without leading zeros. */
  function FormatNat(n: nat, base: nat): (r: string)
    requires 2 <= base <= 16
    ensures |r| > 0 && IsDigits(r, base)
    ensures DigitsValue(r, base) == n
    ensures r[0] == '0' <==> n == 0
    ensures n == 0 ==> r == "0"
    decreases n
  {
    if n < base then [DigitChar(n)]
    else
      var q, d := n / base, n % base;
      DivideByBase(n, base);
      var p := FormatNat(q, base);
      var r := p + [DigitChar(d)];
      AppendDigit(p, DigitChar(d), base);
      assert r[0] == p[0];
      r
  }

  /** Dividing by the base leaves a smaller, non-zero quotient. */
  lemma DivideByBase(n: nat, base: nat)
    requires 2 <= base <= n
    ensures 1 <= n / base < n
    ensures n == n / base * base + n % base && n % base < base
  {
  }

  /** Appending a digit multiplies by the base and adds the digit. */
  lemma AppendDigit(p: string, c: char, base: nat)
    ensures DigitsValue(p + [c], base) == DigitsValue(p, base) * base + DigitValue(c)
  {
    assert (p + [c])[..|p|] == p;
  }

  /** `str(n)`. */
  function FormatDecimal(n: int): string {
    if n < 0 then "-" + FormatNat(-n, 10) else FormatNat(n, 10)
  }

  /** `hex(n)` for a non-negative `n`. */
  function FormatHex(n: nat): string {
    "0x" + FormatNat(n, 16)
  }

  /** `str(n)` is a decimal digit string, with a `-` in front when `n` is
      negative. */
  lemma FormatDecimalChars(n: int)
    ensures var t := FormatDecimal(n);
      && |t| > 0
      && '0' <= t[|t| - 1] <= '9'
      && (t[0] == '-' || '0' <= t[0] <= '9')
      && forall k :: 0 < k < |t| ==> '0' <= t[k] <= '9'
  {
    var m: nat := if n < 0 then -n else n;
    var ds := FormatNat(m, 10);
    var t := FormatDecimal(n);
    assert t == (if n < 0 then "-" else "") + ds;
    forall k | 0 <= k < |ds|
      ensures '0' <= ds[k] <= '9'
    {
      assert DigitValue(ds[k]) < 10;
    }
    if n < 0 {
      assert forall k :: 0 < k < |t| ==> t[k] == ds[k - 1];
    }
  }

  /** `str(v)` has no whitespace at either end, does not end in a comma
      and holds no slash. */
  lemma DecimalToken(v: int)
    ensures var d := FormatDecimal(v);
      && |d| > 0 && !IsSpace(d[0]) && !IsSpace(d[|d| - 1])
      && d[|d| - 1] != ',' && '/' !in d
  {
    var d := FormatDecimal(v);
    FormatDecimalChars(v);
    assert forall k :: 0 <= k < |d| ==> d[k] == '-' || '0' <= d[k] <= '9';
  }

  /** A digit is not whitespace. */
  lemma DigitsTrimmed(ds: string, base: nat)
    requires |ds| > 0 && IsDigits(ds, base) && base <= 16
    ensures !IsSpace(ds[0]) && !IsSpace(ds[|ds| - 1])
  {
    assert DigitValue(ds[0]) < 16;
    assert DigitValue(ds[|ds| - 1]) < 16;
  }

  /** The digits of `n` read back as `n`. */
  lemma UnsignedRoundTrip(n: nat)
    ensures ParseUnsigned(FormatNat(n, 10)) == Some(n)
  {
    var body := FormatNat(n, 10);
    if n == 0 {
      assert body == "0";
    } else {
      assert body[0] != '0';
      assert Digits(body, 10) == Some(n);
    }
  }

  /** A trimmed literal without a sign is parsed as it stands. */
  lemma ParseUnsignedLiteral(t: string, n: nat)
    requires Trimmed(t) && ParseUnsigned(t) == Some(n)
    requires |t| > 0 && t[0] != '+' && t[0] != '-'
    ensures ParseInt(t) == Ok(n)
  {
    StripTrimmed(t);
    UnsignedChars(t);
    NoSeparator(t, 0);
  }

  /** A trimmed literal with a `-` is the negated literal after it. */
  lemma ParseNegativeLiteral(t: string, n: nat)
    requires Trimmed(t) && |t| > 0 && t[0] == '-'
    requires ParseUnsigned(t[1..]) == Some(n)
    ensures ParseInt(t) == Ok(-(n as int))
  {
    StripTrimmed(t);
    UnsignedChars(t[1..]);
    assert forall k :: 1 <= k < |t| ==> t[k] == t[1..][k - 1];
    NoSeparator(t, 0);
  }

  /** `int(str(n), 0) == n`. */
  lemma DecimalRoundTrip(n: int)
    ensures ParseInt(FormatDecimal(n)) == Ok(n)
  {
    var m: nat := if n < 0 then -n else n;
    var body := FormatNat(m, 10);
    var t := FormatDecimal(n);
    DigitsTrimmed(body, 10);
    UnsignedRoundTrip(m);
    if n < 0 {
      assert t == "-" + body;
      assert t[|t| - 1] == body[|body| - 1];
      assert t[1..] == body;
      ParseNegativeLiteral(t, m);
    } else {
      assert t == body;
      assert DigitValue(body[0]) < 10;
      ParseUnsignedLiteral(t, m);
    }
  }

  /** `int(hex(n), 0) == n`. */
  lemma HexRoundTrip(n: nat)
    ensures ParseInt(FormatHex(n)) == Ok(n)
  {
    var digits := FormatNat(n, 16);
    var t := FormatHex(n);
    DigitsTrimmed(digits, 16);
    assert t[|t| - 1] == digits[|digits| - 1];
    StripTrimmed(t);
    assert t[2..] == digits;
    UnsignedChars(t);
    NoSeparator(t, 0);
  }

  /** Decimal digits without a superfluous leading zero. */
  predicate CanonicalDigits(ds: string) {
    |ds| > 0 && IsDigits(ds, 10) && (ds[0] == '0' ==> |ds| == 1)
  }

  /** The literals `str` produces: canonical digits, negated when not zero. */
  predicate IsCanonicalDecimal(s: string) {
    || CanonicalDigits(s)
    || (|s| > 1 && s[0] == '-' && s[1] != '0' && CanonicalDigits(s[1..]))
  }

  /** Canonical digits are exactly what `FormatNat` writes for their value. */
  lemma {:induction false} FormatDigitsValue(ds: string)
    requires CanonicalDigits(ds)
    ensures FormatNat(DigitsValue(ds, 10), 10) == ds
    decreases |ds|
  {
    var last := ds[|ds| - 1];
    var d := DigitValue(last);
    assert DigitChar(d) == last;
    if |ds| > 1 {
      var p := ds[..|ds| - 1];
      assert p[0] == ds[0];
      FormatDigitsValue(p);
      var v := DigitsValue(p, 10);
      assert v != 0;
      assert DigitsValue(ds, 10) / 10 == v && DigitsValue(ds, 10) % 10 == d;
      assert ds == p + [last];
    }
  }

  /** `str(int(s, 0)) == s` for a literal `str` could have produced. */
  lemma CanonicalRoundTrip(s: string)
    requires IsCanonicalDecimal(s)
    ensures ParseInt(s).Ok?
    ensures FormatDecimal(ParseInt(s).value) == s
  {
    if CanonicalDigits(s) {
      CanonicalFormat(s, DigitsValue(s, 10));
    } else {
      var ds := s[1..];
      var v := DigitsValue(ds, 10);
      FormatDigitsValue(ds);
      assert v != 0;
      assert s == "-" + ds;
      CanonicalFormat(s, -(v as int));
    }
  }

  /** A literal that `str` writes for `n` parses back as `n`: for `n >= 0`
      it is enough that `s` is canonical digits worth `n`. */
  lemma CanonicalFormat(s: string, n: int)
    requires n >= 0 ==> CanonicalDigits(s) && DigitsValue(s, 10) == n
    requires n < 0 ==> FormatDecimal(n) == s
    ensures ParseInt(s) == Ok(n) && FormatDecimal(n) == s
  {
    if n >= 0 {
      FormatDigitsValue(s);
    }
    DecimalRoundTrip(n);
  }

  /** Unsigned literals hold no whitespace. */
  lemma SpacedUnsigned(b: string, k: nat)
    requires k < |b| && IsSpace(b[k])
    ensures ParseUnsigned(b) == None
  {
    if |b| >= 2 && b[0] == '0' && (b[1] in "xXoObB") {
      assert k >= 2;
      assert b[2..][k - 2] == b[k];
    }
  }

  /** `int(s, 0)` raises on text with whitespace inside it, such as the
      expression `1 + 1`. */
  lemma InnerSpaceRaises(s: string, k: nat)
    requires 0 < k < |Strip(s)| && IsSpace(Strip(s)[k])
    ensures ParseInt(s) == Err(ValueError(s))
  {
    var t := Strip(s);
    if t[0] == '+' || t[0] == '-' {
      assert t[1..][k - 1] == t[k];
      SpacedUnsigned(t[1..], k - 1);
    } else {
      SpacedUnsigned(t, k);
    }
  }

  /** A character that can occur in an unsigned literal: a digit in some
      base up to 16, or the `x` or `o` of a base prefix (the `b` of `0b` is
      a hexadecimal digit). */
  predicate LiteralChar(c: char) {
    DigitValue(c) < 16 || c == 'x' || c == 'X' || c == 'o' || c == 'O'
  }

  /** An unsigned literal holds only literal characters. */
  lemma UnsignedChars(b: string)
    ensures ParseUnsigned(b).Some? ==> forall k :: 0 <= k < |b| ==> LiteralChar(b[k])
  {
    if |b| >= 2 && b[0] == '0' && b[1] in "xXoObB" {
      assert forall k :: 2 <= k < |b| ==> b[k] == b[2..][k - 2];
    }
  }

  /** What `int(s, 0)` accepts is one literal and nothing else: after the
      whitespace, every character is a literal character or a leading
      sign. */
  lemma OnlyLiteralsParse(s: string)
    ensures ParseInt(s).Ok? ==> var t := Strip(s);
      forall k :: 0 <= k < |t| ==> LiteralChar(t[k]) || (k == 0 && (t[k] == '+' || t[k] == '-'))
  {
    var t := Strip(s);
    if |t| > 0 && (t[0] == '+' || t[0] == '-') {
      UnsignedChars(t[1..]);
      assert forall k :: 1 <= k < |t| ==> t[k] == t[1..][k - 1];
    } else {
      UnsignedChars(t);
    }
  }

  /** Text with a character past its first that no literal holds raises. */
  lemma NonLiteralRaises(s: string, k: nat)
    requires Trimmed(s) && 0 < k < |s| && !LiteralChar(s[k])
    ensures ParseInt(s) == Err(ValueError(s))
  {
    StripTrimmed(s);
    OnlyLiteralsParse(s);
  }

  /** C expressions are not literals: operators, parentheses and names, as
      in `A+1`, `1<<2` or `(4)`, make `int` raise. */
  lemma ExpressionsRaise()
    ensures ParseInt("A+1").Err? && ParseInt("1<<2").Err? && ParseInt("(4)").Err?
  {
    NonLiteralRaises("A+1", 1);
    NonLiteralRaises("1<<2", 1);
    NonLiteralRaises("(4)", 2);
  }
}

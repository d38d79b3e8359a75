/** The pieces of Python's text handling that the district converter leans on:
    `str.strip()`, `str()` of an integer, and the literal grammars that `int()`
    and `float()` accept when they are given a string. Digits are the ASCII
    digits; numbers are exact reals (no rounding to binary floating point). */
module PyText {

  datatype Option<T> = None | Some(value: T)

  // ---------------------------------------------------------------------------
  // Whitespace and str.strip()
  // ---------------------------------------------------------------------------

  /** Python's `str.isspace()` for one character: the characters that
      `str.strip()` discards around its argument. */
  predicate IsSpace(c: char) {
    || ('\U{9}' <= c <= '\U{d}')
    || ('\U{1c}' <= c <= '\U{20}')
    || c == '\U{85}' || c == '\U{a0}' || c == '\U{1680}'
    || ('\U{2000}' <= c <= '\U{200a}')
    || c == '\U{2028}' || c == '\U{2029}' || c == '\U{202f}' || c == '\U{205f}' || c == '\U{3000}'
  }

  predicate AllSpace(s: string) {
    forall i :: 0 <= i < |s| ==> IsSpace(s[i])
  }

  /** A string that `strip()` leaves as it is: empty, or not starting or ending in whitespace. */
  predicate IsStripped(s: string) {
    s == [] || (!IsSpace(s[0]) && !IsSpace(s[|s| - 1]))
  }

  /** `str.lstrip()`. */
  function StripStart(s: string): (r: string)
    ensures |r| <= |s|
    ensures r == [] || !IsSpace(r[0])
  {
    if |s| > 0 && IsSpace(s[0]) then StripStart(s[1..]) else s
  }

  /** `str.rstrip()`. */
  function StripEnd(s: string): (r: string)
    ensures |r| <= |s|
    ensures r == [] || !IsSpace(r[|r| - 1])
  {
    if |s| > 0 && IsSpace(s[|s| - 1]) then StripEnd(s[..|s| - 1]) else s
  }

  /** `lstrip()` removes a run of leading whitespace and nothing else. */
  lemma {:induction false} StripStartRemovesLeadingSpace(s: string)
    ensures var r := StripStart(s);
      && r == s[|s| - |r|..]
      && AllSpace(s[..|s| - |r|])
      && (r == [] || !IsSpace(r[0]))
    decreases |s|
  {
    if |s| > 0 && IsSpace(s[0]) {
      var r := StripStart(s[1..]);
      StripStartRemovesLeadingSpace(s[1..]);
      assert s[..|s| - |r|] == [s[0]] + s[1..][..|s| - 1 - |r|];
    }
  }

  /** `rstrip()` removes a run of trailing whitespace and nothing else. */
  lemma {:induction false} StripEndRemovesTrailingSpace(s: string)
    ensures var r := StripEnd(s);
      && r == s[..|r|]
      && AllSpace(s[|r|..])
      && (r == [] || !IsSpace(r[|r| - 1]))
    decreases |s|
  {
    if |s| > 0 && IsSpace(s[|s| - 1]) {
      var r := StripEnd(s[..|s| - 1]);
      StripEndRemovesTrailingSpace(s[..|s| - 1]);
      assert s[|r|..] == s[..|s| - 1][|r|..] + [s[|s| - 1]];
    }
  }

  /** `str.strip()`. */
  function Strip(s: string): (r: string)
    ensures IsStripped(r)
  {
    var t := StripStart(s);
    var r := StripEnd(t);
    StripStartRemovesLeadingSpace(s);
    StripEndRemovesTrailingSpace(t);
    assert r != [] ==> !IsSpace(r[0]) by {
      if r != [] { assert r[0] == t[0]; }
    }
    r
  }

  /** What `strip()` returns is the stretch of its argument left between a
      run of leading and a run of trailing whitespace. */
  lemma StripIsSlice(s: string)
    ensures var r := Strip(s);
      exists i :: 0 <= i <= |s| - |r| && r == s[i..i + |r|] && AllSpace(s[..i]) && AllSpace(s[i + |r|..])
  {
    var t := StripStart(s);
    var r := StripEnd(t);
    StripStartRemovesLeadingSpace(s);
    StripEndRemovesTrailingSpace(t);
    var i := |s| - |t|;
    assert t == s[i..];
    assert s[i + |r|..] == t[|r|..];
    assert r == s[i..i + |r|];
  }

  lemma StripKeepsStripped(s: string)
    requires IsStripped(s)
    ensures Strip(s) == s
  {
    var t := StripStart(s);
    if s != [] {
      assert !IsSpace(s[0]);
      assert t == s;
      assert StripEnd(t) == t;
    }
  }

  /** Stripping twice is stripping once. */
  lemma StripIdempotent(s: string)
    ensures Strip(Strip(s)) == Strip(s)
  {
    StripKeepsStripped(Strip(s));
  }

  /** `strip()` yields the empty string exactly for whitespace-only input. */
  lemma StripEmptyIff(s: string)
    ensures Strip(s) == [] <==> AllSpace(s)
  {
    StripIsSlice(s);
    var i :| 0 <= i <= |s| - |Strip(s)| && Strip(s) == s[i..i + |Strip(s)|]
             && AllSpace(s[..i]) && AllSpace(s[i + |Strip(s)|..]);
    if Strip(s) == [] {
      assert s == s[..i] + s[i..];
      forall k | 0 <= k < |s| ensures IsSpace(s[k]) {
        if k < i { assert s[k] == s[..i][k]; } else { assert s[k] == s[i..][k - i]; }
      }
    } else {
      assert Strip(s)[0] == s[i];
    }
  }

  // ---------------------------------------------------------------------------
  // Decimal digits, str(int)
  // ---------------------------------------------------------------------------

  predicate IsDigit(c: char) {
    '0' <= c <= '9'
  }

  function DigitValue(c: char): (d: nat)
    requires IsDigit(c)
    ensures d < 10
  {
    c as int - '0' as int
  }

  function DigitChar(d: nat): (c: char)
    requires d < 10
    ensures IsDigit(c) && DigitValue(c) == d
  {
    ('0' as int + d) as char
  }

  /** `str(n)` for a non-negative integer: its decimal digits, no leading zeros. */
  function NatToString(n: nat): (r: string)
    decreases n
  {
    if n < 10 then [DigitChar(n)] else NatToString(n / 10) + [DigitChar(n % 10)]
  }

  /** `str(i)` for an int: a minus sign exactly for a negative `i`, then digits. */
  function IntToString(i: int): (r: string)
    ensures r != [] && (r[0] == '-' <==> i < 0)
    ensures forall k :: 0 <= k < |r| && (k > 0 || i >= 0) ==> IsDigit(r[k])
  {
    NatToStringDigits(if i < 0 then -i else i);
    if i < 0 then "-" + NatToString(-i) else NatToString(i)
  }

  /** A run of digits in which single underscores may separate two digits,
      as Python's numeric literal grammar calls a "digitpart". */
  predicate IsDigitPart(s: string)
    decreases |s|
  {
    && |s| > 0
    && IsDigit(s[|s| - 1])
    && (|s| == 1 || IsDigitPart(s[..|s| - 1]) || (s[|s| - 2] == '_' && IsDigitPart(s[..|s| - 2])))
  }

  /** The number the digits of `s` spell, underscores ignored. */
  function DigitsValue(s: string): nat
    decreases |s|
  {
    if s == [] then 0
    else if IsDigit(s[|s| - 1]) then DigitsValue(s[..|s| - 1]) * 10 + DigitValue(s[|s| - 1])
    else DigitsValue(s[..|s| - 1])
  }

  /** How many digits `s` has, underscores not counted. */
  function DigitCount(s: string): nat
    decreases |s|
  {
    if s == [] then 0
    else if IsDigit(s[|s| - 1]) then DigitCount(s[..|s| - 1]) + 1
    else DigitCount(s[..|s| - 1])
  }

  predicate IsDigitOrUnderscore(c: char) {
    IsDigit(c) || c == '_'
  }

  /** A digitpart holds only digits and underscores, and starts with a digit. */
  lemma {:induction false} DigitPartChars(s: string)
    requires IsDigitPart(s)
    ensures forall i :: 0 <= i < |s| ==> IsDigitOrUnderscore(s[i])
    ensures IsDigit(s[0])
    decreases |s|
  {
    if |s| > 1 {
      var p := if IsDigitPart(s[..|s| - 1]) then s[..|s| - 1] else s[..|s| - 2];
      DigitPartChars(p);
      assert p[0] == s[0];
      forall i | 0 <= i < |s| ensures IsDigitOrUnderscore(s[i]) {
        if i < |p| { assert s[i] == p[i]; }
      }
    }
  }

  /** `str(n)` is a digitpart made of digits only, and it spells `n`. */
  lemma {:induction false} NatToStringDigits(n: nat)
    ensures IsDigitPart(NatToString(n))
    ensures DigitsValue(NatToString(n)) == n
    ensures forall i :: 0 <= i < |NatToString(n)| ==> IsDigit(NatToString(n)[i])
    decreases n
  {
    if n >= 10 {
      var p := NatToString(n / 10);
      NatToStringDigits(n / 10);
      var s := p + [DigitChar(n % 10)];
      assert s[..|s| - 1] == p;
      assert DigitsValue(s) == DigitsValue(p) * 10 + n % 10;
    }
  }

  // ---------------------------------------------------------------------------
  // int() and float() applied to a string
  // ---------------------------------------------------------------------------

  /** A numeral split into its optional leading sign and the rest. */
  datatype Signed = Signed(negative: bool, unsigned: string)

  function SplitSign(s: string): (r: Signed)
    ensures |r.unsigned| <= |s|
  {
    if |s| > 0 && s[0] == '-' then Signed(true, s[1..])
    else if |s| > 0 && s[0] == '+' then Signed(false, s[1..])
    else Signed(false, s)
  }

  /** An optionally signed digitpart, the form of a base-10 integer literal and
      of a float's exponent. */
  function ParseSignedDigits(s: string): (r: Option<int>)
    ensures r.Some? ==> forall c :: c in s ==> IsDigitOrUnderscore(c) || c == '-' || c == '+'
  {
    var sg := SplitSign(s);
    if IsDigitPart(sg.unsigned) then
      DigitPartChars(sg.unsigned);
      var v: int := DigitsValue(sg.unsigned);
      Some(if sg.negative then -v else v)
    else
      None
  }

  /** The whitespace `int()` and `float()` skip around a number: Python's
      whitespace except the separator controls U+001C..U+001F, which these
      parsers keep although `str.isspace()` counts them. */
  predicate IsNumSpace(c: char) {
    IsSpace(c) && !('\U{1c}' <= c <= '\U{1f}')
  }

  /** Leading number whitespace removed. */
  function TrimNumStart(s: string): (r: string)
    ensures |r| <= |s|
    ensures r == [] || !IsNumSpace(r[0])
  {
    if |s| > 0 && IsNumSpace(s[0]) then TrimNumStart(s[1..]) else s
  }

  /** Trailing number whitespace removed. */
  function TrimNumEnd(s: string): (r: string)
    ensures |r| <= |s|
    ensures r == [] || !IsNumSpace(r[|r| - 1])
  {
    if |s| > 0 && IsNumSpace(s[|s| - 1]) then TrimNumEnd(s[..|s| - 1]) else s
  }

  /** The text `int()` and `float()` parse once surrounding number whitespace is skipped. */
  function TrimNum(s: string): string {
    TrimNumEnd(TrimNumStart(s))
  }

  /** Text that `str.strip()` leaves unchanged has no number whitespace to skip either. */
  lemma TrimNumOfStripped(s: string)
    requires IsStripped(s)
    ensures TrimNum(s) == s
  {
  }

  /** `int(s)` for a string `s` in base 10: Some(value), or None where Python
      raises ValueError. Surrounding number whitespace is ignored. */
  function ParseInt(s: string): (r: Option<int>)
    ensures r.Some? ==> TrimNum(s) != [] && forall c :: c in TrimNum(s) ==> IsDigitOrUnderscore(c) || c == '-' || c == '+'
  {
    ParseSignedDigits(TrimNum(s))
  }

  /** `str(i)` is already stripped, and splits into the sign of `i` and `str(|i|)`. */
  lemma IntToStringShape(i: int)
    ensures IsStripped(IntToString(i))
    ensures SplitSign(IntToString(i)) == Signed(i < 0, NatToString(if i < 0 then -i else i))
  {
    var n := if i < 0 then -i else i;
    var ds := NatToString(n);
    NatToStringDigits(n);
    var s := IntToString(i);
    assert IsDigit(ds[0]) && IsDigit(ds[|ds| - 1]);
    if i < 0 {
      assert s == "-" + ds;
      assert s[|s| - 1] == ds[|ds| - 1];
      assert s[1..] == ds;
    } else {
      assert s == ds;
    }
  }

  /** `int(str(i)) == i`. */
  lemma ParseIntOfIntToString(i: int)
    ensures ParseInt(IntToString(i)) == Some(i)
  {
    var s := IntToString(i);
    var n := if i < 0 then -i else i;
    IntToStringShape(i);
    TrimNumOfStripped(s);
    NatToStringDigits(n);
    var sg := SplitSign(s);
    assert sg.unsigned == NatToString(n) && sg.negative == (i < 0);
    assert IsDigitPart(sg.unsigned);
    assert DigitsValue(sg.unsigned) == n;
  }

  /** What `float(s)` yields for a string `s`. */
  datatype FloatParse = Number(value: real) | NotANumber | Invalid

  function Pow10(n: nat): (r: real)
    ensures r >= 1.0
  {
    if n == 0 then 1.0 else 10.0 * Pow10(n - 1)
  }

  /** 10 raised to an integer power. */
  function Scale10(e: int): real {
    if e >= 0 then Pow10(e) else 1.0 / Pow10(-e)
  }

  /** The index of the first character of `s` in `cs`, if there is one. */
  function IndexOfAny(s: string, cs: set<char>): (r: Option<nat>)
    ensures r.Some? ==> r.value < |s| && s[r.value] in cs && forall j :: 0 <= j < r.value ==> s[j] !in cs
    ensures r.None? ==> forall j :: 0 <= j < |s| ==> s[j] !in cs
  {
    if s == [] then None
    else if s[0] in cs then Some(0)
    else match IndexOfAny(s[1..], cs)
      case None => None
      case Some(k) => Some(k + 1)
  }

  /** A digitpart, a digitpart with a decimal point, or a decimal point
      followed by a digitpart ("12", "12.", "12.5", ".5"). */
  function ParseMantissa(m: string): Option<real> {
    match IndexOfAny(m, {'.'})
    case None =>
      if IsDigitPart(m) then Some(DigitsValue(m) as real) else None
    case Some(k) =>
      var whole := m[..k];
      var frac := m[k + 1..];
      if && (whole != [] || frac != [])
         && (whole == [] || IsDigitPart(whole))
         && (frac == [] || IsDigitPart(frac))
      then Some(DigitsValue(whole) as real + DigitsValue(frac) as real / Pow10(DigitCount(frac)))
      else None
  }

  /** An unsigned decimal numeral: a mantissa with an optional exponent
      ("e" or "E", an optional sign, a digitpart). */
  function ParseUnsignedDecimal(s: string): Option<real> {
    match IndexOfAny(s, {'e', 'E'})
    case None => ParseMantissa(s)
    case Some(k) =>
      match (ParseMantissa(s[..k]), ParseSignedDigits(s[k + 1..]))
      case (Some(m), Some(e)) => Some(m * Scale10(e))
      case _ => None
  }

  predicate IsNanWord(s: string) {
    && |s| == 3
    && (s[0] == 'n' || s[0] == 'N')
    && (s[1] == 'a' || s[1] == 'A')
    && (s[2] == 'n' || s[2] == 'N')
  }

  /** `float(s)` for a string `s`: a number, NaN for any casing of "nan", or
      Invalid where Python raises ValueError. Surrounding number whitespace is ignored. */
  function ParseFloat(s: string): (r: FloatParse)
    ensures !r.Invalid? ==> TrimNum(s) != []
  {
    var sg := SplitSign(TrimNum(s));
    if IsNanWord(sg.unsigned) then NotANumber
    else match ParseUnsignedDecimal(sg.unsigned)
      case Some(v) => Number(if sg.negative then -v else v)
      case None => Invalid
  }

  lemma NoneOfIndexOfAny(s: string, cs: set<char>)
    requires forall j :: 0 <= j < |s| ==> s[j] !in cs
    ensures IndexOfAny(s, cs) == None
  {
  }

  /** A digitpart read as a float's text is the number its digits spell. */
  lemma DigitPartAsDecimal(u: string)
    requires IsDigitPart(u)
    ensures !IsNanWord(u)
    ensures ParseUnsignedDecimal(u) == Some(DigitsValue(u) as real)
  {
    DigitPartChars(u);
    forall j | 0 <= j < |u| ensures u[j] !in {'e', 'E'} && u[j] !in {'.'} {
      assert IsDigitOrUnderscore(u[j]);
    }
    NoneOfIndexOfAny(u, {'e', 'E'});
    NoneOfIndexOfAny(u, {'.'});
  }

  /** Every string `int()` accepts, `float()` accepts too, with the same value. */
  lemma IntLiteralIsFloatLiteral(s: string)
    requires ParseInt(s).Some?
    ensures ParseFloat(s) == Number(ParseInt(s).value as real)
  {
    DigitPartAsDecimal(SplitSign(TrimNum(s)).unsigned);
  }

  /** `float(str(i)) == i`. */
  lemma ParseFloatOfIntToString(i: int)
    ensures ParseFloat(IntToString(i)) == Number(i as real)
  {
    ParseIntOfIntToString(i);
    IntLiteralIsFloatLiteral(IntToString(i));
  }
}

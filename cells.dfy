/** Worksheet cell values and the converter's three cell-normalising helpers,
    `safe_float`, `safe_str` and `normalize_pct`
    (scripts/convert_district_excel.py, lines 29-54). */
module Cells {
  import opened PyText

  /** What reading a cell can give back. */
  datatype Cell =
    | Blank                          // an empty cell: Python's None
    | Text(text: string)
    | Int(i: int)
    | Float(x: real, shown: string)  // a finite float, with what str() prints for it
    | NaN
    | Bool(b: bool)
    | Temporal(shown: string)        // a date, time or duration, with what str() prints for it

  /** `str(val)`: for an integer, text that `int()` reads back as that integer. */
  function Str(c: Cell): (r: string)
    ensures c.Int? ==> ParseInt(r) == Some(c.i)
  {
    match c
    case Blank => "None"
    case Text(s) => s
    case Int(i) => ParseIntOfIntToString(i); IntToString(i)
    case Float(_, shown) => shown
    case NaN => "nan"
    case Bool(b) => if b then "True" else "False"
    case Temporal(shown) => shown
  }

  /** `float(val)`: a number, NaN, or Invalid where Python raises ValueError or
      TypeError (None and dates have no float value). Every number, integer
      or boolean converts; only text can be refused. */
  function ToFloat(c: Cell): (r: FloatParse)
    ensures c.Blank? || c.Temporal? ==> r.Invalid?
    ensures c.Int? || c.Float? || c.Bool? ==> r.Number?
    ensures c.Text? && r.Number? ==> TrimNum(c.text) != []
  {
    match c
    case Blank => Invalid
    case Text(s) => ParseFloat(s)
    case Int(i) => Number(i as real)
    case Float(x, _) => Number(x)
    case NaN => NotANumber
    case Bool(b) => Number(if b then 1.0 else 0.0)
    case Temporal(_) => Invalid
  }

  /** `safe_float(val, default)`: the cell's number, or `default` for an empty
      cell, for NaN, and for anything float() refuses. */
  function SafeFloat(c: Cell, default: real): (r: real)
    ensures c.Blank? ==> r == default
    ensures !c.Blank? && ToFloat(c).Number? ==> r == ToFloat(c).value
    ensures !ToFloat(c).Number? ==> r == default
  {
    if c.Blank? then default
    else match ToFloat(c)
      case Number(f) => f
      case NotANumber => default
      case Invalid => default
  }

  /** `safe_str(val, default)`: `default` for an empty cell, otherwise the
      cell's text with surrounding whitespace removed. */
  function SafeStr(c: Cell, default: string): (r: string)
    ensures c.Blank? ==> r == default
    ensures !c.Blank? ==> r == Strip(Str(c)) && IsStripped(r)
  {
    if c.Blank? then default else Strip(Str(c))
  }

  /** `normalize_pct(val, default)` without its final rounding: a reading
      above 1 is taken to be on the 0-100 scale and divided by 100; any other
      reading is kept as it is. */
  function NormalizePct(c: Cell, default: real): (r: real)
    ensures SafeFloat(c, default) > 1.0 ==> r * 100.0 == SafeFloat(c, default) && r < SafeFloat(c, default)
    ensures SafeFloat(c, default) <= 1.0 ==> r == SafeFloat(c, default)
  {
    var f := SafeFloat(c, default);
    if f > 1.0 then f / 100.0 else f
  }

  // ---------------------------------------------------------------------------
  // Properties
  // ---------------------------------------------------------------------------

  /** An empty or whitespace-only text cell reads as "", never as the default. */
  lemma SafeStrWhitespaceIsEmpty(s: string, default: string)
    requires AllSpace(s)
    ensures SafeStr(Text(s), default) == ""
  {
    StripEmptyIff(s);
  }

  /** `safe_str` gives back its default exactly for an empty cell, or for a
      cell whose stripped text happens to equal the default. */
  lemma SafeStrIsDefault(c: Cell, default: string)
    ensures SafeStr(c, default) == default <==> c.Blank? || Strip(Str(c)) == default
  {
  }

  /** With the default `""` used for the SER and district columns, an empty
      cell and a whitespace-only one read alike: as `""`. */
  lemma SafeStrEmptyIff(c: Cell)
    ensures SafeStr(c, "") == "" <==> c.Blank? || AllSpace(Str(c))
  {
    StripEmptyIff(Str(c));
  }

  /** A number stored as an integer and the same integer typed as text read
      the same through safe_float. */
  lemma SafeFloatIntTextAgree(i: int, default: real)
    ensures SafeFloat(Text(Str(Int(i))), default) == SafeFloat(Int(i), default) == i as real
  {
    ParseFloatOfIntToString(i);
  }

  /** A "nan" typed in a cell, in any casing and with any sign, falls back to the default. */
  lemma SafeFloatNanText(s: string, default: real)
    requires IsNanWord(SplitSign(TrimNum(s)).unsigned)
    ensures SafeFloat(Text(s), default) == default
  {
  }

  /** `strip()` counts the separator control U+001C as whitespace but `int()`
      and `float()` do not: a text cell "\x1c5" reads as "5" through
      safe_str, and as the default through safe_float. */
  lemma SeparatorIsNotNumberSpace(default: real)
    ensures SafeStr(Text("\U{1c}5"), "") == "5"
    ensures ParseInt("\U{1c}5").None?
    ensures SafeFloat(Text("\U{1c}5"), default) == default
  {
    var s := "\U{1c}5";
    assert StripStart(s) == StripStart(s[1..]);
    assert s[1..] == "5";
    StripKeepsStripped("5");
    assert TrimNum(s) == s;
  }

  /** A reading in [0, 100] normalises into [0, 1]. */
  lemma NormalizePctUnitRange(c: Cell, default: real)
    requires 0.0 <= SafeFloat(c, default) <= 100.0
    ensures 0.0 <= NormalizePct(c, default) <= 1.0
  {
  }
}

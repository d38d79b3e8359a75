# District row extraction of the UP district converter

This project models, in Dafny, the row loop of `scripts/convert_district_excel.py`.
The script reads the "District Reach Summary" worksheet of the UP district reach model.
It turns each district row into one JSON entry for the dashboard.

For every worksheet row from row 2 on, the converter:

- reads the SER (a region of Uttar Pradesh) and the district name with `safe_str`;
- skips blank rows, the header lines `SER` and `SER SUMMARY`, and summary rows, whose district column holds a count that `int()` accepts;
- records the SER in `sers_seen`, and maps it to the dashboard's key through `SCR_KEY_MAP`, so that `Rohilkhand` becomes `Rohelkhand`;
- normalises the numeric cells with `safe_float` and `normalize_pct`;
- appends the entry.

At the end it writes the count of entries, the sorted SER names and the canonical SER order.

The model has these parts:

- `PyText` gives the Python text primitives the script depends on. These are `str.strip()`, `str()` of an int, and the string grammars of `int()` and `float()`. They are written out, so a "count" row is recognised by the same grammar `int()` uses (limits noted under "## Left out").
- `Cells` gives the cell values and the three helpers.
- `DistrictRows` gives the skip rule, the SER key lookup, the entry builder and the whole pass as the specification function `Extract`.
- `Selection` holds the generic filter-and-map pass behind `Extract`, with its order and counting lemmas.
- `StringOrder` gives Python's ordering of strings, which `sorted()` uses.
- `Convert` holds the loop itself, as a method proved equal to `Extract`; `VisitRow` is one pass of its body. It keeps `sers_seen` equal to the SER names of the entries appended so far.

The dashboard's district record type, which is not part of this model, treats the confidence tag as one of `High`, `Medium` and `Low`. The converter copies whatever text the confidence cell holds, and falls back to `Low` only when the cell is empty. The model follows the code (`ConfidenceLowIff`).

`strip()` and the number parsers disagree on what whitespace is. `str.isspace()` counts the separator controls U+001C..U+001F, but `int()` and `float()` skip only the other whitespace around a number. So `ParseInt` and `ParseFloat` trim with `IsNumSpace`, and a text cell holding U+001C then `5` reads as the default in a numeric column (`SeparatorIsNotNumberSpace`). The district text has already been stripped when `int()` reads it, so the skip rule is not affected (`TrimNumOfStripped`).

One edge of the skip rule is stated as a lemma. If a summary row's count is stored as a float, it prints as `"21.0"`. `int()` refuses that text, so the row is kept as a district (`FloatCountRowKept`).

## Model

| member | source | states |
|---|---|---|
| `PyText.StripStart` | scripts/convert_district_excel.py:43 | `lstrip()` never lengthens its input and leaves no whitespace at the front; `StripStartRemovesLeadingSpace` says exactly what it removes |
| `PyText.StripEnd` | scripts/convert_district_excel.py:43 | `rstrip()` never lengthens its input and leaves no whitespace at the back; `StripEndRemovesTrailingSpace` says exactly what it removes |
| `PyText.Strip` | scripts/convert_district_excel.py:43 | `str.strip()` returns a string with no whitespace at either end |
| `PyText.StripIsSlice` | scripts/convert_district_excel.py:43 | the stripped string is a contiguous stretch of the input, with only whitespace removed before and after it |
| `PyText.StripStartRemovesLeadingSpace` | scripts/convert_district_excel.py:43 | `lstrip()` removes exactly a run of leading whitespace |
| `PyText.StripEndRemovesTrailingSpace` | scripts/convert_district_excel.py:43 | `rstrip()` removes exactly a run of trailing whitespace |
| `PyText.StripKeepsStripped` | scripts/convert_district_excel.py:43 | a string without outer whitespace is left unchanged |
| `PyText.StripIdempotent` | scripts/convert_district_excel.py:43 | stripping twice gives the same result as stripping once |
| `PyText.StripEmptyIff` | scripts/convert_district_excel.py:43 | strip gives `""` exactly for whitespace-only input |
| `PyText.NatToStringDigits` | scripts/convert_district_excel.py:43 | `str(n)` is a run of digits that spells `n` |
| `PyText.IntToString` | scripts/convert_district_excel.py:43 | `str(i)` is non-empty, starts with `-` exactly for a negative `i`, and is digits otherwise; `ParseIntOfIntToString` reads it back |
| `PyText.IntToStringShape` | scripts/convert_district_excel.py:43 | `str(i)` has no outer whitespace, and it splits into the sign of `i` and `str(abs(i))` |
| `PyText.DigitPartChars` | scripts/convert_district_excel.py:82 | a digit group accepted by `int()` holds only digits and underscores, and starts with a digit |
| `PyText.ParseSignedDigits` | scripts/convert_district_excel.py:82 | an accepted signed integer literal contains only digits, underscores and signs |
| `PyText.TrimNumStart` | scripts/convert_district_excel.py:34 | the leading whitespace `int()` and `float()` skip (Python whitespace except U+001C..U+001F) is gone, and the text never grows |
| `PyText.TrimNumEnd` | scripts/convert_district_excel.py:34 | the trailing whitespace `int()` and `float()` skip is gone, and the text never grows |
| `PyText.TrimNumOfStripped` | scripts/convert_district_excel.py:82 | text that `strip()` leaves unchanged has nothing for `int()` to skip either, so the stripped district is parsed as it is |
| `PyText.ParseInt` | scripts/convert_district_excel.py:82 | `int(s)` succeeds only when, with surrounding number whitespace skipped, `s` is a non-empty string of digits, underscores and a sign |
| `PyText.ParseIntOfIntToString` | scripts/convert_district_excel.py:82 | `int(str(i)) == i` for every integer `i` |
| `PyText.DigitPartAsDecimal` | scripts/convert_district_excel.py:34 | `float()` reads a digit group as the integer its digits spell, never as NaN |
| `PyText.IntLiteralIsFloatLiteral` | scripts/convert_district_excel.py:34 | every string `int()` accepts, `float()` accepts too, with the same value |
| `PyText.ParseFloat` | scripts/convert_district_excel.py:34 | `float(s)` refuses text that is empty once number whitespace is skipped; `IntLiteralIsFloatLiteral` shows it agrees with `int()` on integer text |
| `PyText.ParseFloatOfIntToString` | scripts/convert_district_excel.py:34 | `float(str(i)) == i` |
| `Cells.Str` | scripts/convert_district_excel.py:43 | `str(val)` of an integer cell is text that `int()` reads back as the same integer |
| `Cells.ToFloat` | scripts/convert_district_excel.py:34 | `float(val)` raises for None and dates, and always converts an integer, float or boolean; text that converts is not empty once number whitespace is skipped |
| `Cells.SafeFloat` | scripts/convert_district_excel.py:29-37 | the default for an empty cell, for NaN and for a value `float()` refuses; otherwise the converted number |
| `Cells.SafeStr` | scripts/convert_district_excel.py:40-43 | the default exactly for an empty cell; otherwise the stripped text of the value, with no outer whitespace |
| `Cells.NormalizePct` | scripts/convert_district_excel.py:46-54 | a reading above 1 is divided by 100, and so becomes smaller; a reading at or below 1 is unchanged |
| `Cells.SafeStrWhitespaceIsEmpty` | scripts/convert_district_excel.py:40-43 | a whitespace-only text cell reads as `""`, not as the default |
| `Cells.SafeStrIsDefault` | scripts/convert_district_excel.py:40-43 | `safe_str` returns its default exactly when the cell is empty or its stripped text equals the default |
| `Cells.SafeStrEmptyIff` | scripts/convert_district_excel.py:40-43 | with the default `""`, the result is `""` exactly for an empty cell or one whose text is all whitespace |
| `Cells.SafeFloatIntTextAgree` | scripts/convert_district_excel.py:29-37 | an integer cell and the same integer typed as text give the same number |
| `Cells.SeparatorIsNotNumberSpace` | scripts/convert_district_excel.py:29-43 | a text cell holding U+001C then `5` reads as `"5"` through `safe_str` but as the default through `safe_float`, since `strip()` removes the separator and `float()` does not |
| `Cells.SafeFloatNanText` | scripts/convert_district_excel.py:35 | text reading "nan", in any casing and with any sign, falls back to the default |
| `Cells.NormalizePctUnitRange` | scripts/convert_district_excel.py:46-54 | a reading in [0, 100] normalises into [0, 1] |
| `DistrictRows.CellAt` | scripts/convert_district_excel.py:73-74 | a column past the end of the row reads as an empty cell |
| `DistrictRows.ScrKey` | scripts/convert_district_excel.py:24-26 | `Rohilkhand` maps to `Rohelkhand`; every other SER maps to itself |
| `DistrictRows.MakeEntry` | scripts/convert_district_excel.py:88-133 | the entry carries the row's stripped SER and district and the SER's key; confidence is `Low` for an empty cell and the cell's stripped text otherwise |
| `DistrictRows.ConfidenceLowIff` | scripts/convert_district_excel.py:111 | confidence is `Low` exactly when the cell is empty or its stripped text is `Low` |
| `DistrictRows.MissingNumbersReadAsZero` | scripts/convert_district_excel.py:91-110 | each of the 15 numeric fields is 0 when its cell holds no number: empty, NaN, or text `float()` refuses |
| `DistrictRows.EntryPercentagesInUnitRange` | scripts/convert_district_excel.py:95-107 | if every percentage column reads within [0, 100], every percentage field of the entry lies in [0, 1] |
| `DistrictRows.IsSkipped` | scripts/convert_district_excel.py:78-85 | a row whose SER or district cell is empty is skipped; `KeptRowWellFormed` and `IntDistrictIsSkipped` give the rest of the rule |
| `DistrictRows.KeptRowWellFormed` | scripts/convert_district_excel.py:78-85 | a kept row has a non-empty SER other than `SER` and `SER SUMMARY`, and a non-empty district that `int()` refuses |
| `DistrictRows.IntDistrictIsSkipped` | scripts/convert_district_excel.py:80-85 | a row whose district cell holds an integer is always skipped as a summary row |
| `DistrictRows.Extract` | scripts/convert_district_excel.py:72-134 | the pass gives at most one entry per row; `ExtractInRowOrder` and `ExtractLength` say which |
| `DistrictRows.ExtractStep` | scripts/convert_district_excel.py:72-134 | one more row adds that row's entry if the row is kept, and nothing if it is skipped |
| `DistrictRows.SersOfStep` | scripts/convert_district_excel.py:87 | appending an entry adds its SER to the recorded set |
| `DistrictRows.ExtractWellFormed` | scripts/convert_district_excel.py:72-134 | every emitted entry is well formed: SER and district as for a kept row, and the key of its SER |
| `DistrictRows.ExtractLength` | scripts/convert_district_excel.py:134-141 | the number of entries equals the number of kept rows |
| `DistrictRows.ExtractInRowOrder` | scripts/convert_district_excel.py:72-134 | the k-th entry is built from the k-th kept row; the kept positions increase; a position is kept exactly when its row is not skipped |
| `DistrictRows.SersOfExtract` | scripts/convert_district_excel.py:87 | a SER is recorded exactly when some kept row carries it |
| `DistrictRows.RohilkhandRowKept` | scripts/convert_district_excel.py:88 | a Rohilkhand district row is kept, with key `Rohelkhand`, its district name and confidence `Low` |
| `DistrictRows.TextCountRowSkipped` | scripts/convert_district_excel.py:80-83 | a row whose district is the text `21` is skipped |
| `DistrictRows.FloatCountRowKept` | scripts/convert_district_excel.py:80-85 | a row whose district is the float 21.0, printed `21.0`, is kept |
| `Selection.Select` | scripts/convert_district_excel.py:72-134 | the filter-and-map pass gives at most one result per input element |
| `Selection.KeptIndices` | scripts/convert_district_excel.py:78-85 | every listed position is in range, and its element is not skipped |
| `Selection.SelectAppend` | scripts/convert_district_excel.py:72-134 | passing over two stretches of rows in turn is the same as one pass over both |
| `Selection.SelectLength` | scripts/convert_district_excel.py:134 | one result per kept element |
| `Selection.KeptIndicesInOrder` | scripts/convert_district_excel.py:72-134 | the kept positions rise strictly, and every element that is not skipped is among them |
| `Selection.SelectFollowsKeptIndices` | scripts/convert_district_excel.py:72-134 | the k-th result is built from the k-th kept element, and there are as many results as kept elements |
| `Selection.SelectMembers` | scripts/convert_district_excel.py:113-134 | a value is a result exactly when it is built from some kept element |
| `StringOrder.Less` | scripts/convert_district_excel.py:143 | Python's string order by code point, in which a proper prefix sorts before its extensions; the lemmas below make it a strict total order |
| `StringOrder.LessIrreflexive` | scripts/convert_district_excel.py:143 | no string sorts before itself |
| `StringOrder.LessTransitive` | scripts/convert_district_excel.py:143 | the string order is transitive |
| `StringOrder.LessTotal` | scripts/convert_district_excel.py:143 | any two different strings are ordered one way or the other |
| `StringOrder.LessAsymmetric` | scripts/convert_district_excel.py:143 | the string order is asymmetric |
| `StringOrder.Insert` | scripts/convert_district_excel.py:143 | inserting into a strictly sorted list keeps it strictly sorted, and adds exactly the new element |
| `StringOrder.HeadIsLeast` | scripts/convert_district_excel.py:143 | the head of a strictly sorted list is below every other element, and does not occur again |
| `StringOrder.SortedUnique` | scripts/convert_district_excel.py:143 | two strictly sorted lists with the same elements are equal |
| `Convert.DataRows` | scripts/convert_district_excel.py:72 | the loop visits every row but the header, in order |
| `Convert.SortedSers` | scripts/convert_district_excel.py:143 | `sorted()` of the SER set is strictly ascending, and holds exactly the set's elements |
| `Convert.VisitRow` | scripts/convert_district_excel.py:73-134 | after visiting data row k, the entries and the SER set are those of the pass over rows 0..k, which skips blank, header and summary rows |
| `Convert.Convert` | scripts/convert_district_excel.py:69-148 | the districts are exactly `Extract` of the data rows, and all are well formed; `totalDistricts` is their number, which is the number of kept rows; `sersFound` is the sorted set of their SERs; `sers` is the canonical order |
| `Convert.OutputDetermined` | scripts/convert_district_excel.py:139-148 | the output described for a worksheet is unique |

## Left out

- Opening the workbook with openpyxl is not modelled. The worksheet is a sequence of rows of cell values, and `ws.max_row` is the length of that sequence.
- The hard-coded paths, `os.makedirs` and the `json.dump` write are not modelled, because they are file I/O.
- The printed summary and the per-SER district counts are not modelled, because they are console output only.
- The rounding with `round(…, n)` is not modelled (lines 54, 102 and 117-131). Every numeric field keeps its exact real value.
- `Cells.Float` carries Python's `str()` of the float as given. The float repr algorithm is not modelled.
- ParseFloat: treats the spellings `inf` and `infinity` as unparseable, so `safe_float` gives the default. Python returns an infinite float for them. The model's numbers are reals, which have no infinity.
- ParseFloat: keeps the exact decimal value. Python rounds to the nearest double, and overflows very large literals to infinity.
- ParseInt: accepts ASCII digits only. Python's `int()` and `float()` also accept other Unicode decimal digits.
- ParseInt: puts no bound on the number of digits. Python 3.11 and later, and the 3.7-3.10 security releases, refuse decimal text of more than 4300 digits with `ValueError`. So the script keeps a row whose district is such a number, and the model skips it.
- ParseIntOfIntToString: holds for every integer in the model. Under the same limit Python's `str(i)` raises for integers of more than 4300 digits.
- Cells.SafeFloat: an integer too large for a double raises `OverflowError` in Python, and that error escapes `safe_float`. The model converts it exactly.
- Cell values other than text, numbers, booleans and dates are not modelled. openpyxl delivers error cells as text, which the model covers.

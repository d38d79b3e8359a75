/** The converter's main pass (scripts/convert_district_excel.py, lines 69-148):
    walk the data rows of the "District Reach Summary" sheet, skip blank,
    header and summary rows, append one entry per remaining row and record
    every SER seen, then assemble the output document. */
module Convert {
  import opened PyText
  import opened Cells
  import opened Selection
  import opened DistrictRows
  import opened StringOrder

  datatype Metadata = Metadata(
    totalDistricts: nat,
    source: string,
    sersFound: seq<string>,
    generatedBy: string)

  /** The JSON document the converter writes. */
  datatype Output = Output(metadata: Metadata, sers: seq<string>, districts: seq<DistrictEntry>)

  /** The canonical SER order written to the output. */
  const SerOrder: seq<string> := ["Awadh", "Braj", "Bhojpur", "Bundelkhand", "Rohilkhand"]

  /** The rows the loop visits, `range(2, ws.max_row + 1)`: all but the header
      row. `sheet[r - 1]` is worksheet row `r`. */
  function DataRows(sheet: seq<Row>): (rows: seq<Row>)
    ensures |rows| == if sheet == [] then 0 else |sheet| - 1
    ensures forall i :: 0 <= i < |rows| ==> rows[i] == sheet[i + 1]
  {
    if sheet == [] then [] else sheet[1..]
  }

  /** `sorted(s)` for a set of strings. */
  method SortedSers(s: set<string>) returns (r: seq<string>)
    ensures StrictlySorted(r)
    ensures forall x :: x in r <==> x in s
  {
    r := [];
    var rest := s;
    while rest != {}
      invariant rest <= s
      invariant StrictlySorted(r)
      invariant forall x :: x in r <==> x in s && x !in rest
      decreases rest
    {
      var x :| x in rest;
      r := Insert(r, x);
      rest := rest - {x};
    }
  }

  const SourceNote := "UP_District_Final_Numbers.xlsx + UP_District_Reach_Model.xlsx"
  const ScriptName := "convert_district_excel.py"

  /** What the converter writes for `sheet`: the entries of the kept data
      rows in row order, their number, the sorted SER names seen, and the
      fixed fields. */
  ghost predicate IsOutputFor(sheet: seq<Row>, out: Output) {
    && out.districts == Extract(DataRows(sheet))
    && out.metadata.totalDistricts == |out.districts|
    && StrictlySorted(out.metadata.sersFound)
    && (forall s :: s in out.metadata.sersFound <==> s in SersOf(out.districts))
    && out.metadata.source == SourceNote
    && out.metadata.generatedBy == ScriptName
    && out.sers == SerOrder
  }

  /** One pass of the loop in `main()`, for data row `k`: leave a blank,
      header or summary row out; otherwise record its SER and append its
      entry. Before, the state is the pass over the rows before `k`; after,
      it is the pass over the rows up to and including `k`. */
  method VisitRow(ghost rows: seq<Row>, ghost k: nat, row: Row, districts: seq<DistrictEntry>, sersSeen: set<string>)
    returns (districts': seq<DistrictEntry>, sersSeen': set<string>)
    requires k < |rows| && row == rows[k]
    requires districts == Extract(rows[..k]) && sersSeen == SersOf(districts)
    ensures districts' == Extract(rows[..k + 1]) && sersSeen' == SersOf(districts')
  {
    ExtractStep(rows, k);
    SersOfStep(districts, MakeEntry(row));
    districts', sersSeen' := districts, sersSeen;
    var ser := SafeStr(CellAt(row, SerCol), "");
    var district := SafeStr(CellAt(row, DistrictCol), "");
    if ser == "" || district == "" || ser == "SER SUMMARY" || ser == "SER" {
      return;
    }
    if ParseInt(district).Some? {
      return;
    }

    sersSeen' := sersSeen + {ser};
    var entry := MakeEntry(row);
    districts' := districts + [entry];
  }

  /** `main()` without the workbook reading and the file and console output. */
  method Convert(sheet: seq<Row>) returns (out: Output)
    ensures IsOutputFor(sheet, out)
    ensures forall e :: e in out.districts ==> WellFormedEntry(e)
    ensures out.metadata.totalDistricts == KeptCount(DataRows(sheet), IsSkipped)
  {
    ghost var rows := DataRows(sheet);
    var districts: seq<DistrictEntry> := [];
    var sersSeen: set<string> := {};

    var r := 2;
    while r <= |sheet|
      invariant 2 <= r <= |rows| + 2
      invariant districts == Extract(rows[..r - 2])
      invariant sersSeen == SersOf(districts)
    {
      districts, sersSeen := VisitRow(rows, r - 2, sheet[r - 1], districts, sersSeen);
      r := r + 1;
    }
    assert r - 2 == |rows|;
    assert rows[..|rows|] == rows;
    assert districts == Extract(rows);

    var sersFound := SortedSers(sersSeen);
    out := Output(Metadata(|districts|, SourceNote, sersFound, ScriptName), SerOrder, districts);

    ExtractWellFormed(rows);
    ExtractLength(rows);
  }

  /** The description above pins the output down completely: in particular
      the set of SER names has only one sorted listing. */
  lemma OutputDetermined(sheet: seq<Row>, a: Output, b: Output)
    requires IsOutputFor(sheet, a) && IsOutputFor(sheet, b)
    ensures a == b
  {
    SortedUnique(a.metadata.sersFound, b.metadata.sersFound);
  }
}

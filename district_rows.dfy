/** One worksheet row of the district reach model: which rows the converter
    keeps, and the district entry it builds from a kept row
    (scripts/convert_district_excel.py, lines 23-26 and 72-134). */
module DistrictRows {
  import opened PyText
  import opened Cells
  import opened Selection

  /** A row's cells, column 1 first. */
  type Row = seq<Cell>

  /** `ws.cell(r, col).value`: columns are numbered from 1, and a column past
      the last one filled in reads as an empty cell. */
  function CellAt(row: Row, col: nat): (c: Cell)
    requires col >= 1
    ensures col > |row| ==> c == Blank
  {
    if col <= |row| then row[col - 1] else Blank
  }

  // The worksheet's columns.
  const SerCol := 1
  const DistrictCol := 2
  const SyncPopCol := 3
  const CensusPopCol := 4
  const UrbanCol := 5
  const LiteracyCol := 6
  const TvOwnCol := 7
  const ElectrificationCol := 8
  const MobileCol := 9
  const InternetCol := 10
  const CdmiCol := 11
  const AllocCol := 12
  const ReachOverallCol := 14
  const ReachUrbanCol := 15
  const ReachRuralCol := 16
  const TargetCol := 17
  const ReachedCol := 18
  const ConfidenceCol := 19

  /** The SER names whose key in the dashboard's data is spelled differently. */
  const ScrKeyMap: map<string, string> := map["Rohilkhand" := "Rohelkhand"]

  /** `SCR_KEY_MAP.get(ser, ser)`. */
  function ScrKey(ser: string): (k: string)
    ensures ser == "Rohilkhand" ==> k == "Rohelkhand"
    ensures ser != "Rohilkhand" ==> k == ser
  {
    if ser in ScrKeyMap then ScrKeyMap[ser] else ser
  }

  function SerOf(row: Row): string {
    SafeStr(CellAt(row, SerCol), "")
  }

  function DistrictOf(row: Row): string {
    SafeStr(CellAt(row, DistrictCol), "")
  }

  /** A blank row, or a header line of the SER summary section. */
  predicate IsBlankOrHeader(row: Row) {
    var ser := SerOf(row);
    var district := DistrictOf(row);
    ser == "" || district == "" || ser == "SER SUMMARY" || ser == "SER"
  }

  /** A summary row: its district column holds a count, which `int()` accepts. */
  predicate IsCountRow(row: Row) {
    ParseInt(DistrictOf(row)).Some?
  }

  /** The rows the converter passes over without producing an entry; among
      them every row whose SER or district cell is empty. */
  predicate IsSkipped(row: Row)
    ensures CellAt(row, SerCol).Blank? || CellAt(row, DistrictCol).Blank? ==> IsSkipped(row)
  {
    IsBlankOrHeader(row) || IsCountRow(row)
  }

  /** One district of the output. */
  datatype DistrictEntry = DistrictEntry(
    ser: string,
    scrKey: string,
    district: string,
    syncPop: real,
    censusPop: real,
    urbanPct: real,
    literacyPct: real,
    tvOwnershipPct: real,
    mobilePct: real,
    electrificationPct: real,
    internetPct: real,
    cdmiScore: real,
    allocPctInSer: real,
    reachOverall: real,
    reachUrban: real,
    reachRural: real,
    targetPop: real,
    reachedPop: real,
    confidence: string)

  /** The entry the converter builds from a kept row. */
  function MakeEntry(row: Row): (e: DistrictEntry)
    ensures e.ser == SerOf(row) && e.district == DistrictOf(row)
    ensures e.scrKey == ScrKey(e.ser)
    ensures CellAt(row, ConfidenceCol).Blank? ==> e.confidence == "Low"
    ensures !CellAt(row, ConfidenceCol).Blank? ==> e.confidence == Strip(Str(CellAt(row, ConfidenceCol)))
  {
    var ser := SerOf(row);
    DistrictEntry(
      ser := ser,
      scrKey := ScrKey(ser),
      district := DistrictOf(row),
      syncPop := SafeFloat(CellAt(row, SyncPopCol), 0.0),
      censusPop := SafeFloat(CellAt(row, CensusPopCol), 0.0),
      urbanPct := NormalizePct(CellAt(row, UrbanCol), 0.0),
      literacyPct := NormalizePct(CellAt(row, LiteracyCol), 0.0),
      tvOwnershipPct := NormalizePct(CellAt(row, TvOwnCol), 0.0),
      mobilePct := NormalizePct(CellAt(row, MobileCol), 0.0),
      electrificationPct := NormalizePct(CellAt(row, ElectrificationCol), 0.0),
      internetPct := NormalizePct(CellAt(row, InternetCol), 0.0),
      cdmiScore := SafeFloat(CellAt(row, CdmiCol), 0.0),
      allocPctInSer := NormalizePct(CellAt(row, AllocCol), 0.0),
      reachOverall := NormalizePct(CellAt(row, ReachOverallCol), 0.0),
      reachUrban := NormalizePct(CellAt(row, ReachUrbanCol), 0.0),
      reachRural := NormalizePct(CellAt(row, ReachRuralCol), 0.0),
      targetPop := SafeFloat(CellAt(row, TargetCol), 0.0),
      reachedPop := SafeFloat(CellAt(row, ReachedCol), 0.0),
      confidence := SafeStr(CellAt(row, ConfidenceCol), "Low"))
  }

  /** The columns read through normalize_pct. */
  const PctCols: set<nat> := {UrbanCol, LiteracyCol, TvOwnCol, ElectrificationCol, MobileCol,
                              InternetCol, AllocCol, ReachOverallCol, ReachUrbanCol, ReachRuralCol}

  predicate PctFieldsInUnitRange(e: DistrictEntry) {
    && 0.0 <= e.urbanPct <= 1.0 && 0.0 <= e.literacyPct <= 1.0
    && 0.0 <= e.tvOwnershipPct <= 1.0 && 0.0 <= e.electrificationPct <= 1.0
    && 0.0 <= e.mobilePct <= 1.0 && 0.0 <= e.internetPct <= 1.0
    && 0.0 <= e.allocPctInSer <= 1.0 && 0.0 <= e.reachOverall <= 1.0
    && 0.0 <= e.reachUrban <= 1.0 && 0.0 <= e.reachRural <= 1.0
  }

  /** When every percentage column reads within [0, 100], on either scale,
      every percentage field of the entry lies in [0, 1]. */
  lemma EntryPercentagesInUnitRange(row: Row)
    requires forall col :: col in PctCols ==> 0.0 <= SafeFloat(CellAt(row, col), 0.0) <= 100.0
    ensures PctFieldsInUnitRange(MakeEntry(row))
  {
  }

  /** The confidence tag is `Low` exactly when its cell is empty or reads `Low`
      once stripped: the default cannot be told apart from a typed `Low`. */
  lemma ConfidenceLowIff(row: Row)
    ensures MakeEntry(row).confidence == "Low" <==>
      CellAt(row, ConfidenceCol).Blank? || Strip(Str(CellAt(row, ConfidenceCol))) == "Low"
  {
    SafeStrIsDefault(CellAt(row, ConfidenceCol), "Low");
  }

  /** A numeric cell with no number in it (empty, NaN, or anything float()
      refuses) leaves 0 in its field. */
  lemma MissingNumbersReadAsZero(row: Row)
    ensures !ToFloat(CellAt(row, SyncPopCol)).Number? ==> MakeEntry(row).syncPop == 0.0
    ensures !ToFloat(CellAt(row, CensusPopCol)).Number? ==> MakeEntry(row).censusPop == 0.0
    ensures !ToFloat(CellAt(row, UrbanCol)).Number? ==> MakeEntry(row).urbanPct == 0.0
    ensures !ToFloat(CellAt(row, LiteracyCol)).Number? ==> MakeEntry(row).literacyPct == 0.0
    ensures !ToFloat(CellAt(row, TvOwnCol)).Number? ==> MakeEntry(row).tvOwnershipPct == 0.0
    ensures !ToFloat(CellAt(row, ElectrificationCol)).Number? ==> MakeEntry(row).electrificationPct == 0.0
    ensures !ToFloat(CellAt(row, MobileCol)).Number? ==> MakeEntry(row).mobilePct == 0.0
    ensures !ToFloat(CellAt(row, InternetCol)).Number? ==> MakeEntry(row).internetPct == 0.0
    ensures !ToFloat(CellAt(row, CdmiCol)).Number? ==> MakeEntry(row).cdmiScore == 0.0
    ensures !ToFloat(CellAt(row, AllocCol)).Number? ==> MakeEntry(row).allocPctInSer == 0.0
    ensures !ToFloat(CellAt(row, ReachOverallCol)).Number? ==> MakeEntry(row).reachOverall == 0.0
    ensures !ToFloat(CellAt(row, ReachUrbanCol)).Number? ==> MakeEntry(row).reachUrban == 0.0
    ensures !ToFloat(CellAt(row, ReachRuralCol)).Number? ==> MakeEntry(row).reachRural == 0.0
    ensures !ToFloat(CellAt(row, TargetCol)).Number? ==> MakeEntry(row).targetPop == 0.0
    ensures !ToFloat(CellAt(row, ReachedCol)).Number? ==> MakeEntry(row).reachedPop == 0.0
  {
  }

  /** What every entry the converter emits satisfies. */
  predicate WellFormedEntry(e: DistrictEntry) {
    && e.ser != "" && e.ser != "SER" && e.ser != "SER SUMMARY"
    && e.district != "" && ParseInt(e.district).None?
    && IsStripped(e.ser) && IsStripped(e.district)
    && e.scrKey == ScrKey(e.ser)
  }

  lemma KeptRowWellFormed(row: Row)
    requires !IsSkipped(row)
    ensures WellFormedEntry(MakeEntry(row))
  {
  }

  /** A district cell holding an integer always marks a summary row. */
  lemma IntDistrictIsSkipped(row: Row, i: int)
    requires CellAt(row, DistrictCol) == Int(i)
    ensures IsSkipped(row)
  {
    IntToStringShape(i);
    StripKeepsStripped(IntToString(i));
    ParseIntOfIntToString(i);
  }

  // ---------------------------------------------------------------------------
  // The whole pass over the data rows, as a specification
  // ---------------------------------------------------------------------------

  /** The entries the converter emits for `rows`, in row order: one per row
      that is not skipped. */
  function Extract(rows: seq<Row>): (es: seq<DistrictEntry>)
    ensures |es| <= |rows|
  {
    Select(rows, IsSkipped, MakeEntry)
  }

  /** The SER names of a list of entries. */
  function SersOf(es: seq<DistrictEntry>): set<string> {
    set e | e in es :: e.ser
  }

  /** Extending the rows by one extends the entries by that row's entry, unless it is skipped. */
  lemma ExtractStep(rows: seq<Row>, k: nat)
    requires k < |rows|
    ensures !IsSkipped(rows[k]) ==> Extract(rows[..k + 1]) == Extract(rows[..k]) + [MakeEntry(rows[k])]
    ensures IsSkipped(rows[k]) ==> Extract(rows[..k + 1]) == Extract(rows[..k])
  {
    assert rows[..k + 1][..k] == rows[..k];
  }

  /** Appending an entry adds its SER name to the recorded set. */
  lemma SersOfStep(es: seq<DistrictEntry>, e: DistrictEntry)
    ensures SersOf(es + [e]) == SersOf(es) + {e.ser}
  {
    assert forall x :: x in es + [e] <==> x in es || x == e;
  }

  /** Each emitted entry comes from a kept row, so it has a non-empty SER other
      than the two header markers and a non-empty district that is not a count. */
  lemma ExtractWellFormed(rows: seq<Row>)
    ensures forall e :: e in Extract(rows) ==> WellFormedEntry(e)
  {
    forall e | e in Extract(rows) ensures WellFormedEntry(e) {
      SelectMembers(rows, IsSkipped, MakeEntry, e);
      var i :| 0 <= i < |rows| && !IsSkipped(rows[i]) && MakeEntry(rows[i]) == e;
      KeptRowWellFormed(rows[i]);
    }
  }

  /** The number of entries is the number of kept rows. */
  lemma ExtractLength(rows: seq<Row>)
    ensures |Extract(rows)| == KeptCount(rows, IsSkipped)
  {
    SelectLength(rows, IsSkipped, MakeEntry);
  }

  /** The k-th entry is built from the k-th kept row, kept rows taken in ascending order. */
  lemma ExtractInRowOrder(rows: seq<Row>)
    ensures |Extract(rows)| == |KeptIndices(rows, IsSkipped)|
    ensures forall k :: 0 <= k < |Extract(rows)| ==> Extract(rows)[k] == MakeEntry(rows[KeptIndices(rows, IsSkipped)[k]])
    ensures forall k, m :: 0 <= k < m < |KeptIndices(rows, IsSkipped)| ==>
      KeptIndices(rows, IsSkipped)[k] < KeptIndices(rows, IsSkipped)[m]
    ensures forall i :: 0 <= i < |rows| ==> (i in KeptIndices(rows, IsSkipped) <==> !IsSkipped(rows[i]))
  {
    SelectFollowsKeptIndices(rows, IsSkipped, MakeEntry);
    KeptIndicesInOrder(rows, IsSkipped);
    var ks := KeptIndices(rows, IsSkipped);
    forall i | 0 <= i < |rows| && i in ks ensures !IsSkipped(rows[i]) {
      var k :| 0 <= k < |ks| && ks[k] == i;
    }
  }

  /** A SER name is recorded exactly when some kept row carries it. */
  lemma SersOfExtract(rows: seq<Row>, s: string)
    ensures s in SersOf(Extract(rows)) <==> exists i :: 0 <= i < |rows| && !IsSkipped(rows[i]) && SerOf(rows[i]) == s
  {
    var es := Extract(rows);
    if s in SersOf(es) {
      var e :| e in es && e.ser == s;
      SelectMembers(rows, IsSkipped, MakeEntry, e);
    }
    if exists i :: 0 <= i < |rows| && !IsSkipped(rows[i]) && SerOf(rows[i]) == s {
      var i :| 0 <= i < |rows| && !IsSkipped(rows[i]) && SerOf(rows[i]) == s;
      SelectMembers(rows, IsSkipped, MakeEntry, MakeEntry(rows[i]));
      assert MakeEntry(rows[i]) in es;
    }
  }

  // ---------------------------------------------------------------------------
  // Rows as they occur in the sheet
  // ---------------------------------------------------------------------------

  /** A district of Rohilkhand is kept, under the dashboard's spelling of the
      SER, with the default confidence. */
  lemma RohilkhandRowKept()
    ensures var row := [Text("Rohilkhand"), Text("Bareilly")];
      && !IsSkipped(row)
      && MakeEntry(row).scrKey == "Rohelkhand"
      && MakeEntry(row).district == "Bareilly"
      && MakeEntry(row).confidence == "Low"
  {
    StripKeepsStripped("Rohilkhand");
    StripKeepsStripped("Bareilly");
  }

  /** A summary line, whose district column holds a count typed as text, is skipped. */
  lemma TextCountRowSkipped()
    ensures IsSkipped([Text("Awadh"), Text("21")])
  {
    StripKeepsStripped("Awadh");
    StripKeepsStripped("21");
    assert IsDigitPart("21") by { assert "21"[..1] == "2"; }
  }

  /** The same count stored as a float prints as "21.0", which `int()`
      refuses, so that summary line is kept as a district. */
  lemma FloatCountRowKept()
    ensures !IsSkipped([Text("Awadh"), Float(21.0, "21.0")])
  {
    StripKeepsStripped("Awadh");
    StripKeepsStripped("21.0");
    assert !IsDigitPart("21.0");
  }
}

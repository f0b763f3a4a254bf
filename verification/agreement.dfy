/** The two implementations of the same computation side by side: the API
    works on dictionaries (src/routes/sheets.py), the offline script on a
    DataFrame (data_structure.py). On records built from DataFrame lines they
    derive the same columns, sort the same way and total the same sums. */
module Agreement {
  import opened Values
  import opened Sorting
  import SheetsDerive
  import SheetsSummary
  import FrameReport

  /** A DataFrame line as the API's record: every column present, `ITEM` and
      `MODEL` as text, the rest as numbers. */
  function LineRecord(l: FrameReport.Line): Record
  {
    map["ITEM" := Text(l.item), "MODEL" := Text(l.model), "QTY/CTN" := Num(l.qtyPerCtn),
        "CTNS" := Num(l.ctns), "NW" := Num(l.nw), "GW" := Num(l.gw)]
  }

  /** A derived DataFrame row as the API's record. */
  function RowRecord(r: FrameReport.Row): Record
  {
    LineRecord(r.line)["TOTAL" := Num(r.total)]["TOTAL NW" := Num(r.totalNw)]["TOTAL GW" := Num(r.totalGw)]
  }

  function Records(rows: seq<FrameReport.Row>): (recs: seq<Record>)
    ensures |recs| == |rows|
    ensures forall i | 0 <= i < |rows| :: recs[i] == RowRecord(rows[i])
  {
    seq(|rows|, i requires 0 <= i < |rows| => RowRecord(rows[i]))
  }

  /** The four summed columns of the DataFrame by their header names. */
  function Column(s: FrameReport.Sums, f: string): real
    requires f in {"CTNS", "TOTAL", "TOTAL NW", "TOTAL GW"}
  {
    if f == "CTNS" then s.ctns
    else if f == "TOTAL" then s.total
    else if f == "TOTAL NW" then s.totalNw
    else s.totalGw
  }

  /** The record derivation of the API turns a line's record into the record
      of the DataFrame's derived row: same three products, nothing else. */
  lemma DeriveRecordAgrees(l: FrameReport.Line)
    ensures SheetsDerive.ProcessRow(LineRecord(l)) == Ok(RowRecord(FrameReport.ProcessFrame([l])[0]))
  {
    var rec := LineRecord(l);
    var want := RowRecord(FrameReport.ProcessFrame([l])[0]);
    var got := SheetsDerive.ProcessRow(rec);
    assert got.Ok?;
    forall k
      ensures k in got.value <==> k in want
      ensures k in want ==> got.value[k] == want[k]
    {
      if k !in SheetsDerive.DerivedFields {
        assert SheetsDerive.Kept(rec, got.value, k);
      }
    }
    assert got.value == want;
  }

  /** `process_data` of the API and of the DataFrame agree line by line. */
  lemma DerivationsAgree(lines: seq<FrameReport.Line>)
    ensures SheetsDerive.ProcessData(seq(|lines|, i requires 0 <= i < |lines| => LineRecord(lines[i])))
            == Ok(Records(FrameReport.ProcessFrame(lines)))
  {
    var recs := seq(|lines|, i requires 0 <= i < |lines| => LineRecord(lines[i]));
    var rows := FrameReport.ProcessFrame(lines);
    forall i | 0 <= i < |lines|
      ensures SheetsDerive.ProcessRow(recs[i]) == Ok(RowRecord(rows[i]))
    {
      DeriveRecordAgrees(lines[i]);
      assert FrameReport.ProcessFrame([lines[i]])[0] == rows[i];
    }
    var r := SheetsDerive.ProcessData(recs);
    assert r.Ok?;
    assert r.value == Records(rows);
  }

  lemma {:induction false} ColumnSums(rows: seq<FrameReport.Row>, f: string)
    requires f in {"CTNS", "TOTAL", "TOTAL NW", "TOTAL GW"}
    ensures SheetsSummary.SumField(Records(rows), f) == Column(FrameReport.SumRows(rows), f)
    decreases |rows|
  {
    if |rows| > 0 {
      ColumnSums(rows[1..], f);
      assert Records(rows)[1..] == Records(rows[1..]);
    }
  }

  /** The API's totals of the records hold every numeric field once there is
      a record, and the four columns the DataFrame sums have its sums. */
  lemma TotalsAgree(rows: seq<FrameReport.Row>)
    ensures |rows| == 0 ==> SheetsSummary.TotalsOf(Records(rows)) == map[]
    ensures |rows| > 0 ==> forall f :: f in SheetsSummary.TotalsOf(Records(rows)) <==> f in SheetsSummary.NumericFields
    ensures forall f | f in {"CTNS", "TOTAL", "TOTAL NW", "TOTAL GW"} && |rows| > 0 ::
              SheetsSummary.TotalsOf(Records(rows))[f] == Column(FrameReport.SumRows(rows), f)
  {
    var recs := Records(rows);
    if |rows| > 0 {
      forall f | f in SheetsSummary.NumericFields
        ensures SheetsSummary.SomeRowHas(recs, f)
      {
        assert f in recs[0];
      }
      forall f | f in {"CTNS", "TOTAL", "TOTAL NW", "TOTAL GW"}
        ensures SheetsSummary.SumField(recs, f) == Column(FrameReport.SumRows(rows), f)
      {
        ColumnSums(rows, f);
      }
    }
  }

  /** Both keys read the record's item. */
  lemma KeysAgree(r: FrameReport.Row)
    ensures SheetsSummary.SortKey(RowRecord(r)) == FrameReport.ItemKey(r)
    ensures SheetsSummary.GroupLabel(RowRecord(r)) == FrameReport.ItemKey(r)
  {
  }

  lemma {:induction false} HavingRecords(rows: seq<FrameReport.Row>, k: string)
    ensures Having(Records(rows), SheetsSummary.SortKey, k) == Records(Having(rows, FrameReport.ItemKey, k))
    ensures Having(Records(rows), SheetsSummary.GroupLabel, k) == Records(Having(rows, FrameReport.ItemKey, k))
    decreases |rows|
  {
    if |rows| > 0 {
      HavingRecords(rows[1..], k);
      var recs := Records(rows);
      assert recs[1..] == Records(rows[1..]);
      KeysAgree(rows[0]);
      var p := if FrameReport.ItemKey(rows[0]) == k then [rows[0]] else [];
      var tail := Having(rows[1..], FrameReport.ItemKey, k);
      assert Records(p + tail) == Records(p) + Records(tail);
      assert Having(rows, FrameReport.ItemKey, k) == p + tail;
      assert Having(recs, SheetsSummary.SortKey, k) == Records(p) + Having(recs[1..], SheetsSummary.SortKey, k);
      assert Having(recs, SheetsSummary.GroupLabel, k) == Records(p) + Having(recs[1..], SheetsSummary.GroupLabel, k);
    }
  }

  lemma RecordsSorted(rows: seq<FrameReport.Row>)
    requires SortedBy(rows, FrameReport.ItemKey)
    ensures SortedBy(Records(rows), SheetsSummary.SortKey)
  {
  }

  /** Both sorts put the records in the same order: the API's `data` is the
      DataFrame's stably sorted frame, record by record. */
  lemma SortsAgree(rows: seq<FrameReport.Row>)
    ensures SheetsSummary.ItemsAreText(Records(rows))
    ensures SheetsSummary.SortAndSubtotal(Records(rows)).data
            == Records(StableSort(rows, FrameReport.ItemKey))
  {
    var sorted := StableSort(rows, FrameReport.ItemKey);
    RecordsSorted(sorted);
    forall k
      ensures Having(Records(sorted), SheetsSummary.SortKey, k) == Having(Records(rows), SheetsSummary.SortKey, k)
    {
      HavingRecords(sorted, k);
      HavingRecords(rows, k);
    }
    StableSortCharacterised(Records(rows), Records(sorted), SheetsSummary.SortKey);
  }

  /** Each item's subtotal agrees: the API's totals over the item's records
      carry the DataFrame's group sums in the four summed columns. */
  lemma SubtotalsAgree(rows: seq<FrameReport.Row>, k: string)
    requires Having(rows, FrameReport.ItemKey, k) != []
    ensures forall f | f in {"CTNS", "TOTAL", "TOTAL NW", "TOTAL GW"} ::
              && f in SheetsSummary.TotalsOf(Having(Records(rows), SheetsSummary.GroupLabel, k))
              && SheetsSummary.TotalsOf(Having(Records(rows), SheetsSummary.GroupLabel, k))[f]
                 == Column(FrameReport.SumRows(Having(rows, FrameReport.ItemKey, k)), f)
  {
    HavingRecords(rows, k);
    TotalsAgree(Having(rows, FrameReport.ItemKey, k));
  }
}

/** The per-record field deriver of the API (`process_data` in
    src/routes/sheets.py): each derived field is the product of two source
    fields and is written only when both sources are present. */
module SheetsDerive {
  import opened Values

  /** The fields `process_data` may write. */
  const DerivedFields: set<string> := {"TOTAL", "TOTAL NW", "TOTAL GW"}

  /** Python's `a * b` where the model defines it: two numbers multiply; every
      other combination raises `TypeError`. */
  function Multiply(a: Value, b: Value): Result<Value>
  {
    if a.Num? && b.Num? then Ok(Num(a.x * b.x)) else Err(TypeError)
  }

  /** One `if a in row and b in row: row[dest] = row[a] * row[b]` step. */
  function DeriveField(row: Record, dest: string, a: string, b: string): Result<Record>
  {
    if a in row && b in row then
      var v :- Multiply(row[a], row[b]);
      Ok(row[dest := v])
    else
      Ok(row)
  }

  /** Sources `a` and `b` can be multiplied, or one of them is absent. */
  predicate Multipliable(row: Record, a: string, b: string)
  {
    a in row && b in row ==> row[a].Num? && row[b].Num?
  }

  /** `out[dest]` is the product of the two sources when both are in `row`;
      otherwise `dest` is exactly as it was in `row`: not added, not zeroed. */
  predicate DerivedAs(row: Record, out: Record, dest: string, a: string, b: string)
    requires Multipliable(row, a, b)
  {
    if a in row && b in row then
      dest in out && out[dest] == Num(row[a].x * row[b].x)
    else
      (dest in out <==> dest in row) && (dest in row ==> out[dest] == row[dest])
  }

  /** Field `k` has the same presence and value in `row` and `out`. */
  predicate Kept(row: Record, out: Record, k: string)
  {
    (k in out <==> k in row) && (k in row ==> out[k] == row[k])
  }

  /** The loop body of `process_data` for one record. */
  function ProcessRow(row: Record): (r: Result<Record>)
    ensures r.Ok? <==> Multipliable(row, "QTY/CTN", "CTNS")
                       && Multipliable(row, "CTNS", "NW")
                       && Multipliable(row, "CTNS", "GW")
    ensures r.Ok? ==> && DerivedAs(row, r.value, "TOTAL", "QTY/CTN", "CTNS")
                      && DerivedAs(row, r.value, "TOTAL NW", "CTNS", "NW")
                      && DerivedAs(row, r.value, "TOTAL GW", "CTNS", "GW")
    ensures r.Ok? ==> forall k | k !in DerivedFields :: Kept(row, r.value, k)
  {
    var r1 :- DeriveField(row, "TOTAL", "QTY/CTN", "CTNS");
    var r2 :- DeriveField(r1, "TOTAL NW", "CTNS", "NW");
    DeriveField(r2, "TOTAL GW", "CTNS", "GW")
  }

  /** `process_data`: derive every record, in order; a `TypeError` in any
      record aborts the whole call. */
  function ProcessData(rows: seq<Record>): (r: Result<seq<Record>>)
    ensures r.Ok? <==> forall i | 0 <= i < |rows| :: ProcessRow(rows[i]).Ok?
    ensures r.Ok? ==> |r.value| == |rows|
    ensures r.Ok? ==> forall i | 0 <= i < |rows| :: ProcessRow(rows[i]) == Ok(r.value[i])
  {
    if |rows| == 0 then Ok([])
    else
      var first :- ProcessRow(rows[0]);
      var rest :- ProcessData(rows[1..]);
      assert forall i | 1 <= i < |rows| :: rows[i] == rows[1..][i - 1];
      Ok([first] + rest)
  }

  /** Deriving a record twice is the same as deriving it once: no derived
      field is ever a source field. */
  lemma ProcessRowIdempotent(row: Record)
    requires ProcessRow(row).Ok?
    ensures ProcessRow(ProcessRow(row).value) == ProcessRow(row)
  {
    var out := ProcessRow(row).value;
    var again := ProcessRow(out);
    assert again.Ok?;
    forall k
      ensures Kept(out, again.value, k)
    {
    }
    assert again.value == out;
  }

  lemma {:induction false} ProcessDataIdempotent(rows: seq<Record>)
    requires ProcessData(rows).Ok?
    ensures ProcessData(ProcessData(rows).value) == ProcessData(rows)
  {
    var out := ProcessData(rows).value;
    forall i | 0 <= i < |out|
      ensures ProcessRow(out[i]) == Ok(out[i])
    {
      ProcessRowIdempotent(rows[i]);
    }
    var again := ProcessData(out);
    assert again.Ok?;
    assert again.value == out;
  }

  /** Two examples: `QTY/CTN` alone derives no `TOTAL`;
      `QTY/CTN = 10` with `CTNS = 5` derives `TOTAL = 50`. */
  lemma PartialDerivationExamples()
    ensures ProcessRow(map["QTY/CTN" := Num(10.0)]) == Ok(map["QTY/CTN" := Num(10.0)])
    ensures ProcessRow(map["QTY/CTN" := Num(10.0), "CTNS" := Num(5.0)]).value["TOTAL"] == Num(50.0)
  {
  }
}

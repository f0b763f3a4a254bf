/** The cell rules of `parse_excel_file` (src/routes/sheets.py): the header
    row gives the field names, each later row gives one record, numeric
    columns hold numbers and the others stripped text, and rows with no data
    are dropped. The workbook itself and Python's conversions are parameters. */
module SheetsParse {
  import opened Values
  import opened Strings

  /** A cell as `iter_rows(values_only=True)` yields it: `None` or a value. */
  type Cell<C> = Option<C>

  /** The Python built-ins the parser applies to a cell value: truthiness,
      `str(v)`, and `int(v)` / `float(v)`, which give `None` where Python
      raises `ValueError` or `TypeError`. */
  datatype Builtins<-C> = Builtins(
    truthy: C -> bool,
    show: C -> string,
    toInt: C -> Option<real>,
    toFloat: C -> Option<real>)

  /** Python's truthiness of a cell: `None` is falsy. */
  predicate CellTruthy<C>(b: Builtins<C>, c: Cell<C>)
  {
    c.Some? && b.truthy(c.value)
  }

  // ---------------------------------------------------------------------------
  // Columns

  const NamedNumeric: set<string> := {"QTY/CTN", "CTNS", "NW", "GW"}

  /** The column test of lines 89 and 98. */
  predicate IsNumericHeader(h: string)
  {
    h in NamedNumeric || Contains(h, "QTY") || Contains(h, "WEIGHT") || Contains(h, "TOTAL")
  }

  /** A header is numeric exactly when it is one of the four names or has
      `QTY`, `WEIGHT` or `TOTAL` somewhere in it. */
  lemma NumericHeaderOccurrence(h: string)
    ensures IsNumericHeader(h) <==> || h in NamedNumeric
                                    || (exists i: nat :: OccursAt(h, "QTY", i))
                                    || (exists i: nat :: OccursAt(h, "WEIGHT", i))
                                    || (exists i: nat :: OccursAt(h, "TOTAL", i))
  {
    ContainsOccurrence(h, "QTY");
    ContainsOccurrence(h, "WEIGHT");
    ContainsOccurrence(h, "TOTAL");
  }

  /** The headers of the packing list: the derived columns and anything
      mentioning a weight are numeric; `ITEM` and `MODEL` are text, and the
      test is case-sensitive. */
  lemma HeaderExamples()
    ensures IsNumericHeader("TOTAL NW") && IsNumericHeader("GROSS WEIGHT") && IsNumericHeader("QTY/CTN")
    ensures !IsNumericHeader("ITEM") && !IsNumericHeader("MODEL") && !IsNumericHeader("qty")
  {
    assert OccursAt("GROSS WEIGHT", "WEIGHT", 6);
    ContainsOccurrence("GROSS WEIGHT", "WEIGHT");
    TextHeaderNames();
    NotContained("qty", "QTY");
    NotContained("qty", "WEIGHT");
    NotContained("qty", "TOTAL");
  }

  /** The two text columns of the packing list. */
  lemma TextHeaderNames()
    ensures !IsNumericHeader("ITEM") && !IsNumericHeader("MODEL")
  {
    NotContained("ITEM", "QTY");
    NotContained("ITEM", "WEIGHT");
    NotContained("ITEM", "TOTAL");
    NotContained("MODEL", "QTY");
    NotContained("MODEL", "WEIGHT");
    NotContained("MODEL", "TOTAL");
  }

  // ---------------------------------------------------------------------------
  // Cells

  /** Line 91, with line 93's fallback: `float(v)` when `str(v)` has a dot,
      `int(v)` otherwise, and 0 when the conversion raises. */
  function Convert<C>(b: Builtins<C>, v: C): (r: Value)
    ensures r.Num?
    ensures Contains(b.show(v), ".") && b.toFloat(v).Some? ==> r == Num(b.toFloat(v).value)
    ensures !Contains(b.show(v), ".") && b.toInt(v).Some? ==> r == Num(b.toInt(v).value)
    ensures Contains(b.show(v), ".") && b.toFloat(v).None? ==> r == Num(0.0)
    ensures !Contains(b.show(v), ".") && b.toInt(v).None? ==> r == Num(0.0)
  {
    var parsed := if Contains(b.show(v), ".") then b.toFloat(v) else b.toInt(v);
    if parsed.Some? then Num(parsed.value) else Num(0.0)
  }

  /** What line 104 sees of a converted cell: it counts as data exactly when
      the conversion chosen by the dot test succeeds with a non-zero number,
      so a cell whose conversion raises never keeps a row on its own. */
  lemma ConvertTruthy<C>(b: Builtins<C>, v: C)
    ensures Truthy(Convert(b, v)) <==>
              if Contains(b.show(v), ".") then b.toFloat(v).Some? && b.toFloat(v).value != 0.0
              else b.toInt(v).Some? && b.toInt(v).value != 0.0
  {
  }

  /** Lines 86-101: the value stored under `header` for column `col` of `row`. */
  function CellValue<C>(b: Builtins<C>, header: string, row: seq<Cell<C>>, col: nat): Value
  {
    if col < |row| && row[col].Some? then
      if IsNumericHeader(header) then Convert(b, row[col].value) else Text(Strip(b.show(row[col].value)))
    else if IsNumericHeader(header) then Num(0.0)
    else Text("")
  }

  /** A numeric column always holds a number and any other column stripped
      text without surrounding whitespace; a present cell of a numeric column
      holds its conversion, and one of a text column holds `str(v)` with only
      the surrounding whitespace cut off; a missing or empty cell gives a
      falsy default. */
  lemma CellKinds<C>(b: Builtins<C>, header: string, row: seq<Cell<C>>, col: nat)
    ensures IsNumericHeader(header) ==> CellValue(b, header, row, col).Num?
    ensures !IsNumericHeader(header) ==>
              && CellValue(b, header, row, col).Text?
              && Strip(CellValue(b, header, row, col).s) == CellValue(b, header, row, col).s
    ensures col < |row| && row[col].Some? && IsNumericHeader(header) ==>
              CellValue(b, header, row, col) == Convert(b, row[col].value)
    ensures col < |row| && row[col].Some? && !IsNumericHeader(header) ==>
              exists i: nat | i + |CellValue(b, header, row, col).s| <= |b.show(row[col].value)| ::
                && CellValue(b, header, row, col).s == b.show(row[col].value)[i..i + |CellValue(b, header, row, col).s|]
                && Blank(b.show(row[col].value)[..i])
                && Blank(b.show(row[col].value)[i + |CellValue(b, header, row, col).s|..])
    ensures col >= |row| || row[col].None? ==> !Truthy(CellValue(b, header, row, col))
  {
    if !IsNumericHeader(header) && col < |row| && row[col].Some? {
      StripIdempotent(b.show(row[col].value));
      StripIsSlice(b.show(row[col].value));
    }
  }

  // ---------------------------------------------------------------------------
  // Headers

  /** A field name and the column its values are read from. */
  datatype Header = Header(name: string, column: nat)

  /** The field name a header cell gives: its text, stripped. */
  function HeaderName<C>(b: Builtins<C>, c: Cell<C>): string
  {
    if c.Some? then Strip(b.show(c.value)) else ""
  }

  /** Lines 69-72: the stripped text of every truthy cell of the first row,
      in order; falsy cells are skipped. */
  function HeaderNames<C>(b: Builtins<C>, first: seq<Cell<C>>): (names: seq<string>)
    ensures |names| <= |first|
  {
    if |first| == 0 then []
    else (if CellTruthy(b, first[0]) then [HeaderName(b, first[0])] else []) + HeaderNames(b, first[1..])
  }

  /** The `i`-th name read from column `i`, as `enumerate(headers)` at line 85
      pairs them. */
  function Numbered(names: seq<string>): (hs: seq<Header>)
    ensures |hs| == |names|
    ensures forall i | 0 <= i < |names| :: hs[i] == Header(names[i], i)
  {
    seq(|names|, i requires 0 <= i < |names| => Header(names[i], i))
  }

  /** The headers as the code pairs them with columns. */
  function HeadersAsWritten<C>(b: Builtins<C>, first: seq<Cell<C>>): seq<Header>
  {
    Numbered(HeaderNames(b, first))
  }

  /** Each truthy cell of the first row from column `j` on, with its own column. */
  function AlignedFrom<C>(b: Builtins<C>, first: seq<Cell<C>>, j: nat): seq<Header>
    decreases |first| - j
  {
    if j >= |first| then []
    else (if CellTruthy(b, first[j]) then [Header(HeaderName(b, first[j]), j)] else [])
         + AlignedFrom(b, first, j + 1)
  }

  /** The headers paired with the columns they stand over. */
  function HeadersAligned<C>(b: Builtins<C>, first: seq<Cell<C>>): seq<Header>
  {
    AlignedFrom(b, first, 0)
  }

  function Names(hs: seq<Header>): (names: seq<string>)
    ensures |names| == |hs|
    ensures forall i | 0 <= i < |hs| :: names[i] == hs[i].name
  {
    seq(|hs|, i requires 0 <= i < |hs| => hs[i].name)
  }

  lemma {:induction false} AlignedFromNames<C>(b: Builtins<C>, first: seq<Cell<C>>, j: nat)
    requires j <= |first|
    ensures Names(AlignedFrom(b, first, j)) == HeaderNames(b, first[j..])
    decreases |first| - j
  {
    if j < |first| {
      AlignedFromNames(b, first, j + 1);
      assert first[j..][1..] == first[j + 1..];
      var p := if CellTruthy(b, first[j]) then [Header(HeaderName(b, first[j]), j)] else [];
      assert Names(p + AlignedFrom(b, first, j + 1)) == Names(p) + Names(AlignedFrom(b, first, j + 1));
    } else {
      assert first[j..] == [];
    }
  }

  /** Every aligned header sits over a truthy cell of its own column and is
      named by it. */
  lemma {:induction false} AlignedFromSound<C>(b: Builtins<C>, first: seq<Cell<C>>, j: nat)
    ensures forall h | h in AlignedFrom(b, first, j) ::
              j <= h.column < |first| && CellTruthy(b, first[h.column]) && h.name == HeaderName(b, first[h.column])
    decreases |first| - j
  {
    if j < |first| {
      AlignedFromSound(b, first, j + 1);
    }
  }

  /** The headers' columns strictly increase. */
  predicate Increasing(hs: seq<Header>)
  {
    forall i, k | 0 <= i < k < |hs| :: hs[i].column < hs[k].column
  }

  lemma IncreasingCons(h: Header, rest: seq<Header>)
    requires Increasing(rest)
    requires forall x | x in rest :: h.column < x.column
    ensures Increasing([h] + rest)
  {
    var hs := [h] + rest;
    forall i, k | 0 <= i < k < |hs|
      ensures hs[i].column < hs[k].column
    {
      assert hs[k] == rest[k - 1];
      if i > 0 {
        assert hs[i] == rest[i - 1];
      }
    }
  }

  /** The aligned headers' columns strictly increase. */
  lemma {:induction false} AlignedFromIncreasing<C>(b: Builtins<C>, first: seq<Cell<C>>, j: nat)
    ensures Increasing(AlignedFrom(b, first, j))
    decreases |first| - j
  {
    if j < |first| {
      var rest := AlignedFrom(b, first, j + 1);
      AlignedFromIncreasing(b, first, j + 1);
      AlignedFromSound(b, first, j + 1);
      if CellTruthy(b, first[j]) {
        IncreasingCons(Header(HeaderName(b, first[j]), j), rest);
      }
    }
  }

  /** Every truthy cell of the header row has its aligned header. */
  lemma {:induction false} AlignedFromComplete<C>(b: Builtins<C>, first: seq<Cell<C>>, j: nat, c: nat)
    requires j <= c < |first| && CellTruthy(b, first[c])
    ensures exists i | 0 <= i < |AlignedFrom(b, first, j)| :: AlignedFrom(b, first, j)[i].column == c
    decreases |first| - j
  {
    var hs := AlignedFrom(b, first, j);
    var p := if CellTruthy(b, first[j]) then [Header(HeaderName(b, first[j]), j)] else [];
    assert hs == p + AlignedFrom(b, first, j + 1);
    if c == j {
      assert hs[0].column == c;
    } else {
      AlignedFromComplete(b, first, j + 1, c);
      var i :| 0 <= i < |AlignedFrom(b, first, j + 1)| && AlignedFrom(b, first, j + 1)[i].column == c;
      assert hs[|p| + i].column == c;
    }
  }

  /** With no falsy cell in the header row, the `i`-th header from `j` on
      reads column `j + i`. */
  lemma {:induction false} AlignedWhenNoBlankHeader<C>(b: Builtins<C>, first: seq<Cell<C>>, j: nat)
    requires j <= |first|
    requires forall c | 0 <= c < |first| :: CellTruthy(b, first[c])
    ensures |AlignedFrom(b, first, j)| == |first| - j
    ensures forall i | 0 <= i < |first| - j :: AlignedFrom(b, first, j)[i].column == j + i
    decreases |first| - j
  {
    if j < |first| {
      AlignedWhenNoBlankHeader(b, first, j + 1);
      var rest := AlignedFrom(b, first, j + 1);
      assert CellTruthy(b, first[j]);
      assert AlignedFrom(b, first, j) == [Header(HeaderName(b, first[j]), j)] + rest;
    }
  }

  /** As written and aligned agree on a header row without blank cells. */
  lemma HeadersAgreeWithoutBlanks<C>(b: Builtins<C>, first: seq<Cell<C>>)
    requires forall c | 0 <= c < |first| :: CellTruthy(b, first[c])
    ensures HeadersAsWritten(b, first) == HeadersAligned(b, first)
  {
    AlignedWhenNoBlankHeader(b, first, 0);
    AlignedFromNames(b, first, 0);
    assert first[0..] == first;
    var aw, al := HeadersAsWritten(b, first), HeadersAligned(b, first);
    assert |aw| == |al|;
    forall i | 0 <= i < |aw|
      ensures aw[i] == al[i]
    {
      assert Names(al)[i] == al[i].name;
    }
  }

  // ---------------------------------------------------------------------------
  // Records

  /** `headers[j]` is not assigned again by a later header. */
  predicate LastNamed(hs: seq<Header>, j: nat)
    requires j < |hs|
  {
    forall k | j < k < |hs| :: hs[k].name != hs[j].name
  }

  /** Lines 84-101: one assignment per header, in order, so a repeated name
      keeps the value of its last column. */
  function Fill<C>(b: Builtins<C>, hs: seq<Header>, row: seq<Cell<C>>): Record
    decreases |hs|
  {
    if |hs| == 0 then map[]
    else
      var last := hs[|hs| - 1];
      Fill(b, hs[..|hs| - 1], row)[last.name := CellValue(b, last.name, row, last.column)]
  }

  /** A record has exactly the header names as keys, and each name holds the
      value read for its last header. */
  lemma {:induction false} FillSpec<C>(b: Builtins<C>, hs: seq<Header>, row: seq<Cell<C>>)
    ensures forall k :: k in Fill(b, hs, row) <==> k in Names(hs)
    ensures forall j | 0 <= j < |hs| && LastNamed(hs, j) ::
              Fill(b, hs, row)[hs[j].name] == CellValue(b, hs[j].name, row, hs[j].column)
    decreases |hs|
  {
    if |hs| > 0 {
      var init, last := hs[..|hs| - 1], hs[|hs| - 1];
      FillSpec(b, init, row);
      assert Names(hs) == Names(init) + [last.name];
      forall j | 0 <= j < |hs| - 1 && LastNamed(hs, j)
        ensures Fill(b, hs, row)[hs[j].name] == CellValue(b, hs[j].name, row, hs[j].column)
      {
        assert init[j] == hs[j];
        assert hs[j].name != last.name;
        assert LastNamed(init, j) by {
          assert forall k | j < k < |init| :: init[k] == hs[k];
        }
      }
    }
  }

  /** A record keeps line 104's test: some value is truthy. */
  predicate HasData(r: Record)
  {
    exists k | k in r :: Truthy(r[k])
  }

  /** Line 81's test on the raw cells. */
  predicate AnyTruthy<C>(b: Builtins<C>, row: seq<Cell<C>>)
  {
    exists j | 0 <= j < |row| :: CellTruthy(b, row[j])
  }

  /** Whether a data row yields a record: line 81's test on its raw cells
      and line 104's on its record. */
  predicate Kept<C>(b: Builtins<C>, hs: seq<Header>, row: seq<Cell<C>>)
  {
    AnyTruthy(b, row) && HasData(Fill(b, hs, row))
  }

  /** Line 80-105: the records of the data rows that pass both tests. */
  function ParseRows<C>(b: Builtins<C>, hs: seq<Header>, rows: seq<seq<Cell<C>>>): (out: seq<Record>)
    ensures |out| <= |rows|
  {
    if |rows| == 0 then []
    else
      (if Kept(b, hs, rows[0]) then [Fill(b, hs, rows[0])] else []) + ParseRows(b, hs, rows[1..])
  }

  /** The positions, from `j` on and in ascending order, of the data rows
      that yield a record. */
  function KeptIndices<C>(b: Builtins<C>, hs: seq<Header>, rows: seq<seq<Cell<C>>>, j: nat): (idx: seq<nat>)
    ensures forall t | 0 <= t < |idx| :: j <= idx[t] < |rows|
    ensures forall t, u | 0 <= t < u < |idx| :: idx[t] < idx[u]
    ensures forall i | j <= i < |rows| :: Kept(b, hs, rows[i]) <==> i in idx
    decreases |rows| - j
  {
    if j >= |rows| then []
    else
      var rest := KeptIndices(b, hs, rows, j + 1);
      var idx := (if Kept(b, hs, rows[j]) then [j] else []) + rest;
      assert forall t | 0 <= t < |idx| :: idx[t] == j || idx[t] in rest;
      idx
  }

  /** One step of `ParseRowsFrom`: prefixing a record and its row's index
      keeps the records and the indices in step. */
  lemma KeptStep<C>(b: Builtins<C>, hs: seq<Header>, rows: seq<seq<Cell<C>>>,
                    p: seq<Record>, tail: seq<Record>, q: seq<nat>, rest: seq<nat>)
    requires |p| == |q| <= 1 && |tail| == |rest|
    requires |q| == 1 ==> q[0] < |rows| && p[0] == Fill(b, hs, rows[q[0]])
    requires forall t | 0 <= t < |rest| :: rest[t] < |rows| && tail[t] == Fill(b, hs, rows[rest[t]])
    ensures forall t | 0 <= t < |q + rest| :: (q + rest)[t] < |rows| && (p + tail)[t] == Fill(b, hs, rows[(q + rest)[t]])
  {
    forall t | 0 <= t < |q + rest|
      ensures (q + rest)[t] < |rows| && (p + tail)[t] == Fill(b, hs, rows[(q + rest)[t]])
    {
      if t >= |q| {
        assert (p + tail)[t] == tail[t - |q|] && (q + rest)[t] == rest[t - |q|];
      }
    }
  }

  /** The records of `rows[j..]` are those of the kept rows, one each, in
      sheet order. */
  lemma {:induction false} ParseRowsFrom<C>(b: Builtins<C>, hs: seq<Header>, rows: seq<seq<Cell<C>>>, j: nat)
    requires j <= |rows|
    ensures |ParseRows(b, hs, rows[j..])| == |KeptIndices(b, hs, rows, j)|
    ensures forall t | 0 <= t < |KeptIndices(b, hs, rows, j)| ::
              ParseRows(b, hs, rows[j..])[t] == Fill(b, hs, rows[KeptIndices(b, hs, rows, j)[t]])
    decreases |rows| - j
  {
    if j < |rows| {
      ParseRowsFrom(b, hs, rows, j + 1);
      assert rows[j..][1..] == rows[j + 1..];
      assert rows[j..][0] == rows[j];
      var out, tail := ParseRows(b, hs, rows[j..]), ParseRows(b, hs, rows[j + 1..]);
      var idx, rest := KeptIndices(b, hs, rows, j), KeptIndices(b, hs, rows, j + 1);
      var p := if Kept(b, hs, rows[j]) then [Fill(b, hs, rows[j])] else [];
      var q := if Kept(b, hs, rows[j]) then [j] else [];
      assert out == p + tail;
      assert idx == q + rest;
      KeptStep(b, hs, rows, p, tail, q, rest);
    } else {
      assert rows[j..] == [];
    }
  }

  /** The records kept are exactly those of the rows that have a truthy raw
      cell and whose record has a truthy value. */
  lemma {:induction false} ParseRowsExactly<C>(b: Builtins<C>, hs: seq<Header>, rows: seq<seq<Cell<C>>>)
    ensures forall r | r in ParseRows(b, hs, rows) ::
              exists i | 0 <= i < |rows| :: && AnyTruthy(b, rows[i]) && HasData(r)
                                            && r == Fill(b, hs, rows[i])
    ensures forall i | 0 <= i < |rows| && AnyTruthy(b, rows[i]) && HasData(Fill(b, hs, rows[i])) ::
              Fill(b, hs, rows[i]) in ParseRows(b, hs, rows)
    ensures |ParseRows(b, hs, rows)| == |KeptIndices(b, hs, rows, 0)|
    ensures forall t | 0 <= t < |KeptIndices(b, hs, rows, 0)| ::
              ParseRows(b, hs, rows)[t] == Fill(b, hs, rows[KeptIndices(b, hs, rows, 0)[t]])
    decreases |rows|
  {
    ParseRowsFrom(b, hs, rows, 0);
    assert rows[0..] == rows;
    if |rows| > 0 {
      ParseRowsExactly(b, hs, rows[1..]);
      assert forall i | 1 <= i < |rows| :: rows[i] == rows[1..][i - 1];
      forall r | r in ParseRows(b, hs, rows[1..])
        ensures exists i | 0 <= i < |rows| :: && AnyTruthy(b, rows[i]) && HasData(r)
                                              && r == Fill(b, hs, rows[i])
      {
        var i :| 0 <= i < |rows[1..]| && AnyTruthy(b, rows[1..][i]) && HasData(r) && r == Fill(b, hs, rows[1..][i]);
        assert rows[i + 1] == rows[1..][i];
      }
    }
  }

  /** `parse_excel_file` with the headers paired with their own columns. */
  function ParseSheet<C>(b: Builtins<C>, first: seq<Cell<C>>, rest: seq<seq<Cell<C>>>): (r: Result<seq<Record>>)
    ensures r.Err? <==> !AnyTruthy(b, first)
    ensures r.Err? ==> r.error == NoHeaders
    ensures r.Ok? ==> forall i | 0 <= i < |r.value| :: HasData(r.value[i])
    ensures r.Ok? ==> && |r.value| == |KeptIndices(b, HeadersAligned(b, first), rest, 0)|
                      && forall t | 0 <= t < |r.value| ::
                           r.value[t] == Fill(b, HeadersAligned(b, first), rest[KeptIndices(b, HeadersAligned(b, first), rest, 0)[t]])
  {
    var hs := HeadersAligned(b, first);
    NoHeadersExactly(b, first);
    if |hs| == 0 then Err(NoHeaders)
    else
      ParseRowsExactly(b, hs, rest);
      Ok(ParseRows(b, hs, rest))
  }

  /** `parse_excel_file` as written (lines 61-110): the `i`-th kept header
      reads column `i`. */
  function ParseSheetAsWritten<C>(b: Builtins<C>, first: seq<Cell<C>>, rest: seq<seq<Cell<C>>>): (r: Result<seq<Record>>)
    ensures r.Err? <==> !AnyTruthy(b, first)
    ensures r.Err? ==> r.error == NoHeaders
    ensures r.Ok? ==> forall i | 0 <= i < |r.value| :: HasData(r.value[i])
    ensures r.Ok? ==> && |r.value| == |KeptIndices(b, HeadersAsWritten(b, first), rest, 0)|
                      && forall t | 0 <= t < |r.value| ::
                           r.value[t] == Fill(b, HeadersAsWritten(b, first), rest[KeptIndices(b, HeadersAsWritten(b, first), rest, 0)[t]])
  {
    var hs := HeadersAsWritten(b, first);
    NoHeadersExactly(b, first);
    if |hs| == 0 then Err(NoHeaders)
    else
      ParseRowsExactly(b, hs, rest);
      Ok(ParseRows(b, hs, rest))
  }

  /** Lines 75-76: no header exactly when no cell of the first row is truthy. */
  lemma NoHeadersExactly<C>(b: Builtins<C>, first: seq<Cell<C>>)
    ensures |HeadersAligned(b, first)| == 0 <==> !AnyTruthy(b, first)
    ensures |HeadersAsWritten(b, first)| == 0 <==> !AnyTruthy(b, first)
  {
    AlignedFromNames(b, first, 0);
    assert first[0..] == first;
    var hs := AlignedFrom(b, first, 0);
    if |hs| > 0 {
      AlignedFromSound(b, first, 0);
      assert hs[0] in hs;
    }
    if c :| 0 <= c < |first| && CellTruthy(b, first[c]) {
      AlignedFromComplete(b, first, 0, c);
    }
  }

  /** With the headers aligned, every field holds the value of the column its
      header stands over (the last such column, for a repeated name). */
  lemma ReadsOwnColumn<C>(b: Builtins<C>, first: seq<Cell<C>>, row: seq<Cell<C>>, c: nat)
    requires c < |first| && CellTruthy(b, first[c])
    requires forall d | c < d < |first| && CellTruthy(b, first[d]) :: HeaderName(b, first[d]) != HeaderName(b, first[c])
    ensures HeaderName(b, first[c]) in Fill(b, HeadersAligned(b, first), row)
    ensures Fill(b, HeadersAligned(b, first), row)[HeaderName(b, first[c])]
            == CellValue(b, HeaderName(b, first[c]), row, c)
  {
    var hs := AlignedFrom(b, first, 0);
    AlignedFromComplete(b, first, 0, c);
    AlignedFromSound(b, first, 0);
    AlignedFromIncreasing(b, first, 0);
    var i :| 0 <= i < |hs| && hs[i].column == c;
    assert hs[i] in hs;
    forall k | i < k < |hs|
      ensures hs[k].name != hs[i].name
    {
      assert hs[k] in hs;
      assert hs[i].column < hs[k].column;
    }
    assert LastNamed(hs, i);
    FillSpec(b, hs, row);
    assert hs[i].name in Names(hs);
  }

  /** Strictly increasing columns drift apart at least as fast as their
      indices. */
  lemma {:induction false} IncreasingSpread(hs: seq<Header>, m: nat, n: nat)
    requires Increasing(hs) && m <= n < |hs|
    ensures hs[n].column - hs[m].column >= n - m
    decreases n - m
  {
    if m < n {
      IncreasingSpread(hs, m + 1, n);
      assert hs[m].column < hs[m + 1].column;
    }
  }

  /** An aligned header to the right of a falsy header cell has fewer
      headers before it than its column number. */
  lemma AlignedIndexBelow<C>(b: Builtins<C>, first: seq<Cell<C>>, j: nat, i: nat)
    requires j < |first| && !CellTruthy(b, first[j])
    requires i < |AlignedFrom(b, first, 0)| && j < AlignedFrom(b, first, 0)[i].column
    ensures i < AlignedFrom(b, first, 0)[i].column
  {
    var hs := AlignedFrom(b, first, 0);
    AlignedFromIncreasing(b, first, 0);
    IncreasingSpread(hs, 0, i);
    if hs[i].column == i {
      AlignedFromSound(b, first, 0);
      assert hs[j] in hs;
      IncreasingSpread(hs, 0, j);
      IncreasingSpread(hs, j, i);
      assert false;
    }
  }

  /** As written, a falsy header cell before a truthy one shifts that header
      onto a column to the left of its own: the header standing over column
      `k` is read from column `i < k`. */
  lemma BlankHeaderMisaligns<C>(b: Builtins<C>, first: seq<Cell<C>>, j: nat, k: nat)
    requires j < k < |first| && !CellTruthy(b, first[j]) && CellTruthy(b, first[k])
    ensures |HeadersAsWritten(b, first)| == |HeadersAligned(b, first)|
    ensures exists i | 0 <= i < |HeadersAligned(b, first)| ::
              && HeadersAligned(b, first)[i] == Header(HeaderName(b, first[k]), k)
              && HeadersAsWritten(b, first)[i] == Header(HeaderName(b, first[k]), i)
              && i < k
  {
    var hs := AlignedFrom(b, first, 0);
    AlignedFromNames(b, first, 0);
    assert first[0..] == first;
    AlignedFromComplete(b, first, 0, k);
    var i :| 0 <= i < |hs| && hs[i].column == k;
    AlignedIndexBelow(b, first, j, i);
    AlignedFromSound(b, first, 0);
    assert hs[i] in hs;
    assert hs[i] == Header(HeaderName(b, first[k]), k);
    assert Names(hs)[i] == hs[i].name;
  }

  // ---------------------------------------------------------------------------
  // Examples on cells that are strings

  /** Cells holding strings: the empty string is falsy, `int` accepts "5". */
  function TextCells(): Builtins<string>
  {
    Builtins(s => s != "", s => s, s => if s == "5" then Some(5.0) else None, s => None)
  }

  /** A header row with a blank middle cell, and a data row under it. */
  const BlankHeaderRow: seq<Cell<string>> := [Some("ITEM"), None, Some("CTNS")]
  const ShiftedRow: seq<Cell<string>> := [Some("A"), Some("x"), Some("5")]

  lemma BlankHeaderPairings()
    ensures HeadersAsWritten(TextCells(), BlankHeaderRow) == [Header("ITEM", 0), Header("CTNS", 1)]
    ensures HeadersAligned(TextCells(), BlankHeaderRow) == [Header("ITEM", 0), Header("CTNS", 2)]
  {
    var b, first := TextCells(), BlankHeaderRow;
    StripPlain("ITEM");
    StripPlain("CTNS");
    assert HeaderNames(b, first[2..]) == ["CTNS"];
    assert HeaderNames(b, first[1..]) == ["CTNS"] by {
      assert first[1..][1..] == first[2..];
    }
    assert HeaderNames(b, first) == ["ITEM", "CTNS"];
    assert AlignedFrom(b, first, 2) == [Header("CTNS", 2)];
  }

  lemma ShiftedRowRecords()
    ensures Fill(TextCells(), [Header("ITEM", 0), Header("CTNS", 1)], ShiftedRow)
            == map["ITEM" := Text("A"), "CTNS" := Num(0.0)]
    ensures Fill(TextCells(), [Header("ITEM", 0), Header("CTNS", 2)], ShiftedRow)
            == map["ITEM" := Text("A"), "CTNS" := Num(5.0)]
  {
    var b, row := TextCells(), ShiftedRow;
    StripPlain("A");
    TextHeaderNames();
    assert IsNumericHeader("CTNS");
    NotContained("x", ".");
    NotContained("5", ".");
    assert CellValue(b, "ITEM", row, 0) == Text("A");
    assert CellValue(b, "CTNS", row, 1) == Num(0.0);
    assert CellValue(b, "CTNS", row, 2) == Num(5.0);
    FillTwo(b, Header("ITEM", 0), Header("CTNS", 1), row);
    FillTwo(b, Header("ITEM", 0), Header("CTNS", 2), row);
  }

  /** A blank cell in the header row shifts every later header one column to
      the left as written: `CTNS` reads the `x` under the blank header and
      stores 0, where the aligned parser reads the 5 under `CTNS`. */
  lemma BlankHeaderShiftsColumns()
    ensures ParseSheetAsWritten(TextCells(), BlankHeaderRow, [ShiftedRow])
            == Ok([map["ITEM" := Text("A"), "CTNS" := Num(0.0)]])
    ensures ParseSheet(TextCells(), BlankHeaderRow, [ShiftedRow])
            == Ok([map["ITEM" := Text("A"), "CTNS" := Num(5.0)]])
  {
    var b, row := TextCells(), ShiftedRow;
    BlankHeaderPairings();
    ShiftedRowRecords();
    var recW := map["ITEM" := Text("A"), "CTNS" := Num(0.0)];
    var recA := map["ITEM" := Text("A"), "CTNS" := Num(5.0)];
    assert CellTruthy(b, row[0]);
    assert "ITEM" in recW && Truthy(recW["ITEM"]);
    assert "ITEM" in recA && Truthy(recA["ITEM"]);
    OneRowKept(b, [Header("ITEM", 0), Header("CTNS", 1)], row);
    OneRowKept(b, [Header("ITEM", 0), Header("CTNS", 2)], row);
  }

  lemma OneRowKept<C>(b: Builtins<C>, hs: seq<Header>, row: seq<Cell<C>>)
    requires AnyTruthy(b, row) && HasData(Fill(b, hs, row))
    ensures ParseRows(b, hs, [row]) == [Fill(b, hs, row)]
  {
    assert [row][1..] == [];
  }

  /** Filling two headers assigns the first, then the second. */
  lemma FillTwo<C>(b: Builtins<C>, h1: Header, h2: Header, row: seq<Cell<C>>)
    ensures Fill(b, [h1, h2], row) == map[][h1.name := CellValue(b, h1.name, row, h1.column)]
                                             [h2.name := CellValue(b, h2.name, row, h2.column)]
  {
    assert [h1, h2][..1] == [h1];
    assert [h1][..0] == [];
    assert Fill(b, [h1], row) == map[][h1.name := CellValue(b, h1.name, row, h1.column)];
  }

  /** Line 81 is not implied by line 104: a row whose only cell is `0` has no
      truthy raw cell, yet its text column would hold "0", which is truthy. */
  lemma BlankRowTestMatters()
    ensures var b := Builtins((n: int) => n != 0, (n: int) => if n == 0 then "0" else "1",
                              (n: int) => Some(n as real), (n: int) => None);
            var hs := [Header("ITEM", 0)];
            && !AnyTruthy(b, [Some(0)])
            && HasData(Fill(b, hs, [Some(0)]))
            && ParseRows(b, hs, [[Some(0)]]) == []
  {
    var b := Builtins((n: int) => n != 0, (n: int) => if n == 0 then "0" else "1",
                      (n: int) => Some(n as real), (n: int) => None);
    var hs := [Header("ITEM", 0)];
    var row: seq<Cell<int>> := [Some(0)];
    TextHeaderNames();
    StripPlain("0");
    assert CellValue(b, "ITEM", row, 0) == Text("0");
    assert hs[..0] == [];
    var rec := Fill(b, hs, row);
    assert rec == map["ITEM" := Text("0")];
    assert "ITEM" in rec && Truthy(rec["ITEM"]);
    assert !CellTruthy(b, row[0]);
  }
}

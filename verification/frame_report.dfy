/** The offline DataFrame version (data_structure.py): derive three columns on
    every line, then build one interleaved report: each item's lines in
    ascending item order, each followed by that item's subtotal row, and a
    single grand-total row at the end. DataFrame operations are modelled by
    their meaning over sequences. */
module FrameReport {
  import opened Strings
  import opened Sorting

  /** One input line: the columns of `DATA_HEADERS` that are not derived. */
  datatype Line = Line(item: string, model: string, qtyPerCtn: real, ctns: real, nw: real, gw: real)

  /** A line with its three derived columns. */
  datatype Row = Row(line: Line, total: real, totalNw: real, totalGw: real)

  /** The four summed columns: `CTNS`, `TOTAL`, `TOTAL NW`, `TOTAL GW`. */
  datatype Sums = Sums(ctns: real, total: real, totalNw: real, totalGw: real)
  {
    function Plus(other: Sums): Sums
    {
      Sums(ctns + other.ctns, total + other.total, totalNw + other.totalNw, totalGw + other.totalGw)
    }
  }

  const Zero := Sums(0.0, 0.0, 0.0, 0.0)

  /** A row of the assembled frame. Its `ITEM` cell is `Label`. */
  datatype ReportRow =
    | Data(row: Row)
    | Subtotal(item: string, sums: Sums)
    | GrandTotal(sums: Sums)

  function Label(r: ReportRow): string
  {
    match r
    case Data(row) => row.line.item
    case Subtotal(item, _) => item + " Subtotal"
    case GrandTotal(_) => "Grand Total"
  }

  /** Line 66 looks a subtotal row up by its label; two subtotal rows share a
      label exactly when they are for the same item, so each item finds its
      own row of sums. */
  lemma SubtotalLabels(a: string, b: string, x: Sums, y: Sums)
    ensures Label(Subtotal(a, x)) == Label(Subtotal(b, y)) <==> a == b
  {
    if Label(Subtotal(a, x)) == Label(Subtotal(b, y)) {
      var la, lb := a + " Subtotal", b + " Subtotal";
      assert |a| == |b|;
      assert a == la[..|a|] && b == lb[..|b|];
    }
  }

  // ---------------------------------------------------------------------------
  // process_data

  /** `process_data` (lines 30-35): all three derived columns, on every line. */
  function ProcessFrame(lines: seq<Line>): (rows: seq<Row>)
    ensures |rows| == |lines|
    ensures forall i | 0 <= i < |lines| ::
              && rows[i].line == lines[i]
              && rows[i].total == lines[i].qtyPerCtn * lines[i].ctns
              && rows[i].totalNw == lines[i].ctns * lines[i].nw
              && rows[i].totalGw == lines[i].ctns * lines[i].gw
  {
    seq(|lines|, i requires 0 <= i < |lines| =>
      Row(lines[i], lines[i].qtyPerCtn * lines[i].ctns, lines[i].ctns * lines[i].nw, lines[i].ctns * lines[i].gw))
  }

  // ---------------------------------------------------------------------------
  // Sums

  function ItemKey(r: Row): string
  {
    r.line.item
  }

  function RowSums(r: Row): Sums
  {
    Sums(r.line.ctns, r.total, r.totalNw, r.totalGw)
  }

  /** Column sums over `rows` (`.sum()` and the `'sum'` aggregation). */
  function SumRows(rows: seq<Row>): Sums
  {
    if |rows| == 0 then Zero else RowSums(rows[0]).Plus(SumRows(rows[1..]))
  }

  lemma {:induction false} SumRowsConcat(a: seq<Row>, b: seq<Row>)
    ensures SumRows(a + b) == SumRows(a).Plus(SumRows(b))
    decreases |a|
  {
    if |a| == 0 {
      assert a + b == b;
    } else {
      assert (a + b)[1..] == a[1..] + b;
      SumRowsConcat(a[1..], b);
    }
  }

  /** Column sums do not depend on the order of the rows. */
  lemma {:induction false} SumRowsPermutation(a: seq<Row>, b: seq<Row>)
    requires multiset(a) == multiset(b)
    ensures SumRows(a) == SumRows(b)
    decreases |a|
  {
    if |a| == 0 {
      assert |b| == |multiset(b)| == 0;
    } else {
      var i := PermutationSplit(a, b);
      var rest := b[..i] + b[i + 1..];
      assert a == [a[0]] + a[1..];
      SumRowsPermutation(a[1..], rest);
      SumRowsConcat(b[..i] + [b[i]], b[i + 1..]);
      SumRowsConcat(b[..i], [b[i]]);
      SumRowsConcat(b[..i], b[i + 1..]);
      var x, y, z := SumRows(b[..i]), RowSums(b[i]), SumRows(b[i + 1..]);
      assert SumRows([b[i]]) == y.Plus(Zero) == y;
      calc {
        SumRows(b);
        x.Plus(y).Plus(z);
        y.Plus(x.Plus(z));
        y.Plus(SumRows(rest));
        SumRows(a);
      }
    }
  }

  // ---------------------------------------------------------------------------
  // sort_and_subtotal as written

  /** The rows whose item is not `k`, in order. */
  function Without(s: seq<Row>, k: string): (r: seq<Row>)
    ensures |r| <= |s|
  {
    if |s| == 0 then []
    else (if ItemKey(s[0]) == k then [] else [s[0]]) + Without(s[1..], k)
  }

  /** `df_sorted['ITEM'].unique()`: each item once, in order of first appearance. */
  function UniqueItems(s: seq<Row>): seq<string>
    decreases |s|
  {
    if |s| == 0 then []
    else [ItemKey(s[0])] + UniqueItems(Without(s[1..], ItemKey(s[0])))
  }

  function DataRows(rows: seq<Row>): (r: seq<ReportRow>)
    ensures |r| == |rows|
    ensures forall i | 0 <= i < |rows| :: r[i] == Data(rows[i])
  {
    seq(|rows|, i requires 0 <= i < |rows| => Data(rows[i]))
  }

  /** Lines 63-67 for the items `items`: each item's rows (`df_sorted[df_sorted['ITEM'] == item]`)
      followed by its row of the group-by sums. */
  function Blocks(s: seq<Row>, items: seq<string>): seq<ReportRow>
  {
    if |items| == 0 then []
    else
      var group := Having(s, ItemKey, items[0]);
      DataRows(group) + [Subtotal(items[0], SumRows(group))] + Blocks(s, items[1..])
  }

  /** Lines 42-69 applied to the sorted frame `s`. */
  function ReportOf(s: seq<Row>): seq<ReportRow>
  {
    Blocks(s, UniqueItems(s)) + [GrandTotal(SumRows(s))]
  }

  /** `sort_and_subtotal` (lines 37-71). */
  function SortAndSubtotal(rows: seq<Row>): seq<ReportRow>
  {
    ReportOf(StableSort(rows, ItemKey))
  }

  // ---------------------------------------------------------------------------
  // The same report built from contiguous runs of a sorted frame

  /** How many leading rows share the first row's item. */
  function RunLength(s: seq<Row>): (n: nat)
    requires |s| > 0
    ensures 1 <= n <= |s|
    ensures forall j | 0 <= j < n :: ItemKey(s[j]) == ItemKey(s[0])
    ensures n < |s| ==> ItemKey(s[n]) != ItemKey(s[0])
  {
    if |s| == 1 || ItemKey(s[1]) != ItemKey(s[0]) then 1
    else 1 + RunLength(s[1..])
  }

  /** One pass over a sorted frame: each run of equal items, then its subtotal. */
  function RunBlocks(s: seq<Row>): seq<ReportRow>
    decreases |s|
  {
    if |s| == 0 then []
    else
      var n := RunLength(s);
      DataRows(s[..n]) + [Subtotal(ItemKey(s[0]), SumRows(s[..n]))] + RunBlocks(s[n..])
  }

  /** In a sorted frame every row after the first run has a larger item. */
  lemma AfterRun(s: seq<Row>, j: nat)
    requires SortedBy(s, ItemKey) && |s| > 0
    requires RunLength(s) <= j < |s|
    ensures Below(ItemKey(s[0]), ItemKey(s[j]))
  {
    AboveChange(s, RunLength(s), j);
  }

  /** Once a sorted frame's item changes at `n`, every item from `n` on is
      above the first. */
  lemma AboveChange(s: seq<Row>, n: nat, j: nat)
    requires SortedBy(s, ItemKey)
    requires 0 < n <= j < |s| && ItemKey(s[n]) != ItemKey(s[0])
    ensures Below(ItemKey(s[0]), ItemKey(s[j]))
  {
    var k0, kn, kj := ItemKey(s[0]), ItemKey(s[n]), ItemKey(s[j]);
    SortedAt(s, ItemKey, 0, n);
    assert Below(k0, kn);
    if j > n {
      SortedAt(s, ItemKey, n, j);
      if kn != kj {
        BelowTransitive(k0, kn, kj);
      }
    }
  }

  lemma {:induction false} WithoutAll(s: seq<Row>, k: string)
    requires forall j | 0 <= j < |s| :: ItemKey(s[j]) == k
    ensures Without(s, k) == []
  {
    if |s| > 0 {
      WithoutAll(s[1..], k);
    }
  }

  lemma {:induction false} WithoutNone(s: seq<Row>, k: string)
    requires forall j | 0 <= j < |s| :: ItemKey(s[j]) != k
    ensures Without(s, k) == s
  {
    if |s| > 0 {
      WithoutNone(s[1..], k);
      assert s == [s[0]] + s[1..];
    }
  }

  lemma {:induction false} WithoutConcat(a: seq<Row>, b: seq<Row>, k: string)
    ensures Without(a + b, k) == Without(a, k) + Without(b, k)
    decreases |a|
  {
    if |a| == 0 {
      assert a + b == b;
    } else {
      var p := if ItemKey(a[0]) == k then [] else [a[0]];
      assert (a + b)[0] == a[0];
      assert (a + b)[1..] == a[1..] + b;
      WithoutConcat(a[1..], b, k);
      calc {
        Without(a + b, k);
        p + Without(a[1..] + b, k);
        p + (Without(a[1..], k) + Without(b, k));
        (p + Without(a[1..], k)) + Without(b, k);
        Without(a, k) + Without(b, k);
      }
    }
  }

  /** The rows after the first run of a sorted frame all have other items. */
  lemma RestDiffers(s: seq<Row>)
    requires SortedBy(s, ItemKey) && |s| > 0
    ensures forall j | RunLength(s) <= j < |s| :: ItemKey(s[j]) != ItemKey(s[0])
  {
    forall j | RunLength(s) <= j < |s|
      ensures ItemKey(s[j]) != ItemKey(s[0])
    {
      AfterRun(s, j);
      BelowIrreflexive(ItemKey(s[0]));
    }
  }

  /** In a sorted frame the first item is listed first, then the items of the rest. */
  lemma FirstRunItems(s: seq<Row>)
    requires |s| > 0
    requires forall j | RunLength(s) <= j < |s| :: ItemKey(s[j]) != ItemKey(s[0])
    ensures UniqueItems(s) == [ItemKey(s[0])] + UniqueItems(s[RunLength(s)..])
  {
    WithoutFirstRun(s);
  }

  lemma {:induction false} WithoutFirstRun(s: seq<Row>)
    requires |s| > 0
    requires forall j | RunLength(s) <= j < |s| :: ItemKey(s[j]) != ItemKey(s[0])
    ensures Without(s[1..], ItemKey(s[0])) == s[RunLength(s)..]
    decreases |s|
  {
    var k0 := ItemKey(s[0]);
    if |s| == 1 || ItemKey(s[1]) != k0 {
      assert forall j | 0 <= j < |s[1..]| :: ItemKey(s[1..][j]) != k0 by {
        forall j | 0 <= j < |s[1..]| ensures ItemKey(s[1..][j]) != k0 {
          assert s[1..][j] == s[j + 1];
        }
      }
      WithoutNone(s[1..], k0);
    } else {
      var t := s[1..];
      assert RunLength(s) == 1 + RunLength(t);
      forall j | RunLength(t) <= j < |t|
        ensures ItemKey(t[j]) != ItemKey(t[0])
      {
        assert t[j] == s[j + 1];
      }
      WithoutFirstRun(t);
      assert t[RunLength(t)..] == s[RunLength(s)..];
    }
  }

  /** The first run holds all rows of the first item and none of any other. */
  lemma FirstRunHaving(s: seq<Row>, k: string)
    requires SortedBy(s, ItemKey) && |s| > 0
    ensures k == ItemKey(s[0]) ==> Having(s, ItemKey, k) == s[..RunLength(s)]
    ensures k != ItemKey(s[0]) ==> Having(s, ItemKey, k) == Having(s[RunLength(s)..], ItemKey, k)
  {
    var n := RunLength(s);
    RestDiffers(s);
    assert forall j | 0 <= j < |s[n..]| :: s[n..][j] == s[j + n];
    assert s == s[..n] + s[n..];
    HavingConcat(s[..n], s[n..], ItemKey, k);
    if k == ItemKey(s[0]) {
      HavingOfRun(s[..n], k);
      HavingNoneOf(s[n..], k);
    } else {
      HavingNoneOf(s[..n], k);
    }
  }

  lemma {:induction false} HavingOfRun(s: seq<Row>, k: string)
    requires forall j | 0 <= j < |s| :: ItemKey(s[j]) == k
    ensures Having(s, ItemKey, k) == s
  {
    if |s| > 0 {
      HavingOfRun(s[1..], k);
      assert s == [s[0]] + s[1..];
    }
  }

  lemma {:induction false} HavingNoneOf(s: seq<Row>, k: string)
    requires forall j | 0 <= j < |s| :: ItemKey(s[j]) != k
    ensures Having(s, ItemKey, k) == []
  {
    if |s| > 0 {
      HavingNoneOf(s[1..], k);
    }
  }

  /** Every item `UniqueItems` lists is the item of some row. */
  lemma {:induction false} UniqueItemsOccur(s: seq<Row>, k: string)
    requires k in UniqueItems(s)
    ensures exists j | 0 <= j < |s| :: ItemKey(s[j]) == k
    decreases |s|
  {
    if k != ItemKey(s[0]) {
      var t := Without(s[1..], ItemKey(s[0]));
      UniqueItemsOccur(t, k);
      var j :| 0 <= j < |t| && ItemKey(t[j]) == k;
      WithoutSubset(s[1..], ItemKey(s[0]));
      assert t[j] in s[1..];
    }
  }

  lemma {:induction false} WithoutSubset(s: seq<Row>, k: string)
    ensures forall x | x in Without(s, k) :: x in s && ItemKey(x) != k
  {
    if |s| > 0 {
      WithoutSubset(s[1..], k);
    }
  }

  /** Blocks for items that occur only after the first run ignore the first run. */
  lemma {:induction false} BlocksSkipRun(s: seq<Row>, items: seq<string>)
    requires SortedBy(s, ItemKey) && |s| > 0
    requires forall i | 0 <= i < |items| :: items[i] != ItemKey(s[0])
    ensures Blocks(s, items) == Blocks(s[RunLength(s)..], items)
    decreases |items|
  {
    if |items| > 0 {
      FirstRunHaving(s, items[0]);
      BlocksSkipRun(s, items[1..]);
    }
  }

  /** Filtering per unique item, as the script does, gives the same report
      as one pass over the runs of the sorted frame. */
  lemma {:induction false} BlocksAreRuns(s: seq<Row>)
    requires SortedBy(s, ItemKey)
    ensures Blocks(s, UniqueItems(s)) == RunBlocks(s)
    decreases |s|
  {
    if |s| > 0 {
      var n := RunLength(s);
      var k0 := ItemKey(s[0]);
      var rest := s[n..];
      RestDiffers(s);
      FirstRunItems(s);
      FirstRunHaving(s, k0);
      assert SortedBy(rest, ItemKey);
      forall i | 0 <= i < |UniqueItems(rest)|
        ensures UniqueItems(rest)[i] != k0
      {
        var k := UniqueItems(rest)[i];
        UniqueItemsOccur(rest, k);
        var j :| 0 <= j < |rest| && ItemKey(rest[j]) == k;
        AfterRun(s, n + j);
        BelowIrreflexive(k0);
      }
      BlocksSkipRun(s, UniqueItems(rest));
      BlocksAreRuns(rest);
      assert UniqueItems(s)[1..] == UniqueItems(rest);
    }
  }

  // ---------------------------------------------------------------------------
  // What the report looks like

  /** The distinct items of `rows`. */
  function ItemSet(rows: seq<Row>): set<string>
  {
    set r | r in rows :: ItemKey(r)
  }

  /** The input rows the report shows, in report order. */
  function DataOf(rep: seq<ReportRow>): seq<Row>
  {
    if |rep| == 0 then []
    else (if rep[0].Data? then [rep[0].row] else []) + DataOf(rep[1..])
  }

  /** The subtotal rows of the report, in report order. */
  function SubtotalsIn(rep: seq<ReportRow>): (subs: seq<ReportRow>)
    ensures forall i | 0 <= i < |subs| :: subs[i].Subtotal?
  {
    if |rep| == 0 then []
    else (if rep[0].Subtotal? then [rep[0]] else []) + SubtotalsIn(rep[1..])
  }

  /** The items the subtotal rows stand for. */
  function SubtotalItems(subs: seq<ReportRow>): set<string>
    requires forall i | 0 <= i < |subs| :: subs[i].Subtotal?
  {
    set i | 0 <= i < |subs| :: subs[i].item
  }

  /** The subtotal rows are in strictly ascending order of item. */
  predicate Ascending(subs: seq<ReportRow>)
    requires forall i | 0 <= i < |subs| :: subs[i].Subtotal?
  {
    forall i, j | 0 <= i < j < |subs| :: Below(subs[i].item, subs[j].item)
  }

  /** The column sums of the subtotal rows, added up. */
  function SumSubtotals(subs: seq<ReportRow>): Sums
    requires forall i | 0 <= i < |subs| :: subs[i].Subtotal?
  {
    if |subs| == 0 then Zero else subs[0].sums.Plus(SumSubtotals(subs[1..]))
  }

  /** Which row may stand directly below which: an item's lines stay together
      and end with that item's subtotal; after a subtotal comes the next,
      larger item or the grand total; nothing comes after the grand total. */
  predicate Follows(a: ReportRow, b: ReportRow)
  {
    match a
    case Data(r) => (b.Data? && ItemKey(b.row) == ItemKey(r)) || (b.Subtotal? && b.item == ItemKey(r))
    case Subtotal(k, _) => (b.Data? && Below(k, ItemKey(b.row))) || b.GrandTotal?
    case GrandTotal(_) => false
  }

  /** Every row of `rep` is allowed to follow the one above it. */
  predicate Chain(rep: seq<ReportRow>)
  {
    forall i | 0 <= i < |rep| - 1 :: Follows(rep[i], rep[i + 1])
  }

  lemma {:induction false} ChainConcat(a: seq<ReportRow>, b: seq<ReportRow>)
    requires Chain(a) && Chain(b)
    requires |a| > 0 && |b| > 0 ==> Follows(a[|a| - 1], b[0])
    ensures Chain(a + b)
  {
    var c := a + b;
    forall i | 0 <= i < |c| - 1
      ensures Follows(c[i], c[i + 1])
    {
      if i + 1 > |a| {
        assert c[i] == b[i - |a|] && c[i + 1] == b[i - |a| + 1];
      }
    }
  }

  lemma {:induction false} DataOfConcat(a: seq<ReportRow>, b: seq<ReportRow>)
    ensures DataOf(a + b) == DataOf(a) + DataOf(b)
    decreases |a|
  {
    if |a| == 0 {
      assert a + b == b;
    } else {
      var p := if a[0].Data? then [a[0].row] else [];
      assert (a + b)[0] == a[0];
      assert (a + b)[1..] == a[1..] + b;
      DataOfConcat(a[1..], b);
      calc {
        DataOf(a + b);
        p + DataOf(a[1..] + b);
        p + (DataOf(a[1..]) + DataOf(b));
        (p + DataOf(a[1..])) + DataOf(b);
      }
    }
  }

  lemma {:induction false} SubtotalsInConcat(a: seq<ReportRow>, b: seq<ReportRow>)
    ensures SubtotalsIn(a + b) == SubtotalsIn(a) + SubtotalsIn(b)
    decreases |a|
  {
    if |a| == 0 {
      assert a + b == b;
    } else {
      var p := if a[0].Subtotal? then [a[0]] else [];
      assert (a + b)[0] == a[0];
      assert (a + b)[1..] == a[1..] + b;
      SubtotalsInConcat(a[1..], b);
      calc {
        SubtotalsIn(a + b);
        p + SubtotalsIn(a[1..] + b);
        p + (SubtotalsIn(a[1..]) + SubtotalsIn(b));
        (p + SubtotalsIn(a[1..])) + SubtotalsIn(b);
      }
    }
  }

  lemma {:induction false} DataRowsOnly(rows: seq<Row>)
    ensures DataOf(DataRows(rows)) == rows
    ensures SubtotalsIn(DataRows(rows)) == []
    decreases |rows|
  {
    if |rows| > 0 {
      DataRowsOnly(rows[1..]);
      assert DataRows(rows)[1..] == DataRows(rows[1..]);
      assert rows == [rows[0]] + rows[1..];
    }
  }

  lemma {:induction false} RunBlocksUnfold(s: seq<Row>)
    requires |s| > 0
    ensures RunBlocks(s) == DataRows(s[..RunLength(s)])
                            + [Subtotal(ItemKey(s[0]), SumRows(s[..RunLength(s)]))]
                            + RunBlocks(s[RunLength(s)..])
  {
  }

  lemma {:induction false} DataOfBlock(a: seq<Row>, sub: ReportRow, b: seq<ReportRow>)
    requires sub.Subtotal?
    ensures DataOf(DataRows(a) + [sub] + b) == a + DataOf(b)
  {
    DataRowsOnly(a);
    DataOfConcat(DataRows(a) + [sub], b);
    DataOfConcat(DataRows(a), [sub]);
  }

  lemma {:induction false} SubtotalsOfBlock(a: seq<Row>, sub: ReportRow, b: seq<ReportRow>)
    requires sub.Subtotal?
    ensures SubtotalsIn(DataRows(a) + [sub] + b) == [sub] + SubtotalsIn(b)
  {
    DataRowsOnly(a);
    SubtotalsInConcat(DataRows(a) + [sub], b);
    SubtotalsInConcat(DataRows(a), [sub]);
  }

  /** One block of a sorted frame: its first run, that run's subtotal, and
      the blocks of the rest. */
  lemma {:induction false} BlockSplit(s: seq<Row>)
    requires |s| > 0
    ensures var n := RunLength(s);
            var sub := Subtotal(ItemKey(s[0]), SumRows(s[..n]));
            && DataOf(RunBlocks(s)) == s[..n] + DataOf(RunBlocks(s[n..]))
            && SubtotalsIn(RunBlocks(s)) == [sub] + SubtotalsIn(RunBlocks(s[n..]))
            && |RunBlocks(s)| == n + 1 + |RunBlocks(s[n..])|
  {
    var n := RunLength(s);
    var sub := Subtotal(ItemKey(s[0]), SumRows(s[..n]));
    RunBlocksUnfold(s);
    DataOfBlock(s[..n], sub, RunBlocks(s[n..]));
    SubtotalsOfBlock(s[..n], sub, RunBlocks(s[n..]));
  }

  lemma {:induction false} SortedSuffix(s: seq<Row>, n: nat)
    requires SortedBy(s, ItemKey) && n <= |s|
    ensures SortedBy(s[n..], ItemKey)
  {
    assert forall j | 0 <= j < |s[n..]| :: s[n..][j] == s[n + j];
  }

  /** The item of the first run is below the item of the row after it. */
  lemma {:induction false} NextRunAbove(s: seq<Row>)
    requires SortedBy(s, ItemKey) && |s| > 0
    ensures RunLength(s) < |s| ==> Below(ItemKey(s[0]), ItemKey(s[RunLength(s)]))
  {
    if RunLength(s) < |s| {
      AfterRun(s, RunLength(s));
    }
  }

  lemma {:induction false} ChainStep(s: seq<Row>)
    requires |s| > 0
    requires var rest := s[RunLength(s)..];
             && Chain(RunBlocks(rest))
             && (|rest| > 0 ==> && RunBlocks(rest)[0] == Data(rest[0])
                                && RunBlocks(rest)[|RunBlocks(rest)| - 1].Subtotal?
                                && Below(ItemKey(s[0]), ItemKey(rest[0])))
    ensures Chain(RunBlocks(s))
    ensures RunBlocks(s)[0] == Data(s[0])
    ensures RunBlocks(s)[|RunBlocks(s)| - 1].Subtotal?
  {
    var n := RunLength(s);
    var rest := s[n..];
    var a := DataRows(s[..n]) + [Subtotal(ItemKey(s[0]), SumRows(s[..n]))];
    RunBlocksUnfold(s);
    forall i | 0 <= i < |a| - 1
      ensures Follows(a[i], a[i + 1])
    {
      assert a[i] == Data(s[i]);
    }
    ChainConcat(a, RunBlocks(rest));
  }

  /** Consecutive rows of the runs part follow one another; it starts with the
      first row and ends with a subtotal. */
  lemma {:induction false} RunBlocksChain(s: seq<Row>)
    requires SortedBy(s, ItemKey)
    ensures Chain(RunBlocks(s))
    ensures |s| == 0 <==> RunBlocks(s) == []
    ensures |s| > 0 ==> RunBlocks(s)[0] == Data(s[0])
    ensures |s| > 0 ==> RunBlocks(s)[|RunBlocks(s)| - 1].Subtotal?
    decreases |s|
  {
    if |s| > 0 {
      var n := RunLength(s);
      SortedSuffix(s, n);
      RunBlocksChain(s[n..]);
      NextRunAbove(s);
      ChainStep(s);
    }
  }

  /** The runs part shows exactly the rows of `s`, in order, and is longer
      than `s` by one subtotal row per run. */
  lemma {:induction false} RunBlocksData(s: seq<Row>)
    ensures DataOf(RunBlocks(s)) == s
    ensures |RunBlocks(s)| == |s| + |SubtotalsIn(RunBlocks(s))|
    decreases |s|
  {
    if |s| > 0 {
      var n := RunLength(s);
      BlockSplit(s);
      RunBlocksData(s[n..]);
      DataStep(s, n, RunBlocks(s), RunBlocks(s[n..]));
    }
  }

  lemma {:induction false} DataStep(s: seq<Row>, n: nat, whole: seq<ReportRow>, rest: seq<ReportRow>)
    requires n <= |s|
    requires DataOf(whole) == s[..n] + DataOf(rest) && DataOf(rest) == s[n..]
    requires |SubtotalsIn(whole)| == 1 + |SubtotalsIn(rest)|
    requires |whole| == n + 1 + |rest| && |rest| == |s[n..]| + |SubtotalsIn(rest)|
    ensures DataOf(whole) == s && |whole| == |s| + |SubtotalsIn(whole)|
  {
    assert s == s[..n] + s[n..];
  }

  /** The items of `s` are the first run's item and the items after it. */
  lemma {:induction false} ItemSetSplit(s: seq<Row>)
    requires |s| > 0
    ensures ItemSet(s) == {ItemKey(s[0])} + ItemSet(s[RunLength(s)..])
  {
    var n := RunLength(s);
    assert s == s[..n] + s[n..];
    assert forall r | r in s[..n] :: ItemKey(r) == ItemKey(s[0]);
  }

  lemma SubtotalItemsCons(sub: ReportRow, tail: seq<ReportRow>)
    requires sub.Subtotal? && forall i | 0 <= i < |tail| :: tail[i].Subtotal?
    ensures SubtotalItems([sub] + tail) == {sub.item} + SubtotalItems(tail)
  {
    var subs := [sub] + tail;
    forall x | x in SubtotalItems(tail)
      ensures x in SubtotalItems(subs)
    {
      var j :| 0 <= j < |tail| && tail[j].item == x;
      assert subs[j + 1] == tail[j];
    }
    forall x | x in SubtotalItems(subs) && x != sub.item
      ensures x in SubtotalItems(tail)
    {
      var j :| 0 <= j < |subs| && subs[j].item == x;
      assert subs[j] == tail[j - 1];
    }
    assert subs[0] == sub;
  }

  /** Putting a subtotal for a smaller item in front keeps the subtotal rows
      ascending and adds exactly that item. */
  lemma {:induction false} PrependSubtotal(sub: ReportRow, tail: seq<ReportRow>, items: set<string>)
    requires sub.Subtotal? && forall i | 0 <= i < |tail| :: tail[i].Subtotal?
    requires Ascending(tail) && SubtotalItems(tail) == items && |tail| == |items|
    requires forall k | k in items :: Below(sub.item, k)
    ensures Ascending([sub] + tail)
    ensures SubtotalItems([sub] + tail) == {sub.item} + items
    ensures |[sub] + tail| == |{sub.item} + items|
  {
    var subs := [sub] + tail;
    BelowIrreflexive(sub.item);
    assert sub.item !in items;
    SubtotalItemsCons(sub, tail);
    forall i, j | 0 <= i < j < |subs|
      ensures Below(subs[i].item, subs[j].item)
    {
      assert subs[j] == tail[j - 1];
      if i > 0 {
        assert subs[i] == tail[i - 1];
      } else {
        assert tail[j - 1].item in SubtotalItems(tail);
      }
    }
  }

  lemma {:induction false} ItemsStep(s: seq<Row>)
    requires |s| > 0
    requires var tail := SubtotalsIn(RunBlocks(s[RunLength(s)..]));
             && Ascending(tail)
             && SubtotalItems(tail) == ItemSet(s[RunLength(s)..])
             && |tail| == |ItemSet(s[RunLength(s)..])|
             && (forall k | k in ItemSet(s[RunLength(s)..]) :: Below(ItemKey(s[0]), k))
    ensures var subs := SubtotalsIn(RunBlocks(s));
            && Ascending(subs)
            && SubtotalItems(subs) == ItemSet(s)
            && |subs| == |ItemSet(s)|
  {
    var n := RunLength(s);
    var rest := s[n..];
    BlockSplit(s);
    ItemSetSplit(s);
    PrependSubtotal(Subtotal(ItemKey(s[0]), SumRows(s[..n])), SubtotalsIn(RunBlocks(rest)), ItemSet(rest));
  }

  /** Every item after the first run of a sorted frame is above the first item. */
  lemma {:induction false} RestAbove(s: seq<Row>)
    requires SortedBy(s, ItemKey) && |s| > 0
    ensures forall k | k in ItemSet(s[RunLength(s)..]) :: Below(ItemKey(s[0]), k)
  {
    var n := RunLength(s);
    forall k | k in ItemSet(s[n..])
      ensures Below(ItemKey(s[0]), k)
    {
      var m :| 0 <= m < |s[n..]| && ItemKey(s[n..][m]) == k;
      assert s[n..][m] == s[n + m];
      AfterRun(s, n + m);
    }
  }

  /** The subtotal rows of the runs part name each item of `s` once, in
      ascending order. */
  lemma {:induction false} RunBlocksItems(s: seq<Row>)
    requires SortedBy(s, ItemKey)
    ensures var subs := SubtotalsIn(RunBlocks(s));
            && Ascending(subs)
            && SubtotalItems(subs) == ItemSet(s)
            && |subs| == |ItemSet(s)|
    decreases |s|
  {
    if |s| > 0 {
      var n := RunLength(s);
      SortedSuffix(s, n);
      RunBlocksItems(s[n..]);
      RestAbove(s);
      ItemsStep(s);
    }
  }

  /** Putting a subtotal in front of the subtotals of the rest of a frame
      keeps every subtotal equal to its item's sums in the whole frame. */
  lemma {:induction false} PrependSums(sub: ReportRow, tail: seq<ReportRow>, whole: seq<Row>, rest: seq<Row>)
    requires sub.Subtotal? && forall i | 0 <= i < |tail| :: tail[i].Subtotal?
    requires sub.sums == SumRows(Having(whole, ItemKey, sub.item))
    requires forall i | 0 <= i < |tail| :: && tail[i].item != sub.item
                                           && tail[i].sums == SumRows(Having(rest, ItemKey, tail[i].item))
    requires forall k | k != sub.item :: Having(whole, ItemKey, k) == Having(rest, ItemKey, k)
    ensures forall i | 0 <= i < |[sub] + tail| ::
              ([sub] + tail)[i].sums == SumRows(Having(whole, ItemKey, ([sub] + tail)[i].item))
    ensures SumSubtotals([sub] + tail) == sub.sums.Plus(SumSubtotals(tail))
  {
    var subs := [sub] + tail;
    forall i | 0 < i < |subs|
      ensures subs[i].sums == SumRows(Having(whole, ItemKey, subs[i].item))
    {
      assert subs[i] == tail[i - 1];
    }
    assert subs[1..] == tail;
  }

  lemma {:induction false} SumsStep(s: seq<Row>)
    requires |s| > 0
    requires Having(s, ItemKey, ItemKey(s[0])) == s[..RunLength(s)]
    requires forall k | k != ItemKey(s[0]) :: Having(s, ItemKey, k) == Having(s[RunLength(s)..], ItemKey, k)
    requires var tail := SubtotalsIn(RunBlocks(s[RunLength(s)..]));
             && (forall i | 0 <= i < |tail| :: && tail[i].item != ItemKey(s[0])
                                               && tail[i].sums == SumRows(Having(s[RunLength(s)..], ItemKey, tail[i].item)))
             && SumSubtotals(tail) == SumRows(s[RunLength(s)..])
    ensures var subs := SubtotalsIn(RunBlocks(s));
            && (forall i | 0 <= i < |subs| :: subs[i].sums == SumRows(Having(s, ItemKey, subs[i].item)))
            && SumSubtotals(subs) == SumRows(s)
  {
    var n := RunLength(s);
    var rest := s[n..];
    var sub := Subtotal(ItemKey(s[0]), SumRows(s[..n]));
    BlockSplit(s);
    PrependSums(sub, SubtotalsIn(RunBlocks(rest)), s, rest);
    assert s == s[..n] + rest;
    SumRowsConcat(s[..n], rest);
  }

  /** Each subtotal row holds the column sums of its item's rows, and the
      subtotals add up to the column sums of the whole frame. */
  lemma {:induction false} RunBlocksSums(s: seq<Row>)
    requires SortedBy(s, ItemKey)
    ensures var subs := SubtotalsIn(RunBlocks(s));
            && (forall i | 0 <= i < |subs| :: subs[i].sums == SumRows(Having(s, ItemKey, subs[i].item)))
            && SumSubtotals(subs) == SumRows(s)
    decreases |s|
  {
    if |s| > 0 {
      var n := RunLength(s);
      var k0 := ItemKey(s[0]);
      var rest := s[n..];
      var tail := SubtotalsIn(RunBlocks(rest));
      SortedSuffix(s, n);
      RunBlocksSums(rest);
      RunBlocksItems(rest);
      RestAbove(s);
      BelowIrreflexive(k0);
      FirstRunHaving(s, k0);
      forall k | k != k0
        ensures Having(s, ItemKey, k) == Having(rest, ItemKey, k)
      {
        FirstRunHaving(s, k);
      }
      forall i | 0 <= i < |tail|
        ensures tail[i].item != k0
      {
        assert tail[i].item in SubtotalItems(tail);
      }
      SumsStep(s);
    }
  }

  // ---------------------------------------------------------------------------
  // The report of any sorted arrangement

  /** `s` is a frame `sort_values(by='ITEM')` may return for `rows`: the same
      rows in ascending item order. pandas' default sort is not stable, so
      lines of one item may come in any order. */
  predicate Arrangement(rows: seq<Row>, s: seq<Row>)
  {
    SortedBy(s, ItemKey) && multiset(s) == multiset(rows)
  }

  lemma ItemSetPermutation(a: seq<Row>, b: seq<Row>)
    requires multiset(a) == multiset(b)
    ensures ItemSet(a) == ItemSet(b)
  {
    forall r
      ensures r in a <==> r in b
    {
      assert r in a <==> r in multiset(a);
      assert r in b <==> r in multiset(b);
    }
  }

  lemma HavingSumsPermutation(a: seq<Row>, b: seq<Row>, k: string)
    requires multiset(a) == multiset(b)
    ensures SumRows(Having(a, ItemKey, k)) == SumRows(Having(b, ItemKey, k))
  {
    HavingPermutation(a, b, ItemKey, k);
    SumRowsPermutation(Having(a, ItemKey, k), Having(b, ItemKey, k));
  }

  /** The report of a sorted frame is its runs part followed by the grand total. */
  lemma {:induction false} ReportIsRuns(s: seq<Row>)
    requires SortedBy(s, ItemKey)
    ensures ReportOf(s) == RunBlocks(s) + [GrandTotal(SumRows(s))]
    ensures DataOf(ReportOf(s)) == DataOf(RunBlocks(s))
    ensures SubtotalsIn(ReportOf(s)) == SubtotalsIn(RunBlocks(s))
  {
    BlocksAreRuns(s);
    var g := GrandTotal(SumRows(s));
    DataOfConcat(RunBlocks(s), [g]);
    SubtotalsInConcat(RunBlocks(s), [g]);
  }

  /** The shape of the report: every row may follow the one above it (so each
      item's lines stand together, end in that item's subtotal, and items
      ascend); it does not open with a subtotal; it ends with the grand total
      of all rows; and it has one row per input row, one per distinct item,
      and one more. */
  lemma {:induction false} ReportShape(rows: seq<Row>, s: seq<Row>)
    requires Arrangement(rows, s)
    ensures Chain(ReportOf(s))
    ensures !ReportOf(s)[0].Subtotal?
    ensures ReportOf(s)[|ReportOf(s)| - 1] == GrandTotal(SumRows(rows))
    ensures |ReportOf(s)| == |rows| + |ItemSet(rows)| + 1
  {
    var g := GrandTotal(SumRows(s));
    ReportIsRuns(s);
    RunBlocksChain(s);
    ChainConcat(RunBlocks(s), [g]);
    RestDiffersIfAny(s);
    RunBlocksData(s);
    RunBlocksItems(s);
    ItemSetPermutation(s, rows);
    SumRowsPermutation(s, rows);
    assert |s| == |multiset(s)| == |multiset(rows)| == |rows|;
  }

  lemma RestDiffersIfAny(s: seq<Row>)
    requires SortedBy(s, ItemKey)
    ensures |s| > 0 ==> forall j | RunLength(s) <= j < |s| :: ItemKey(s[j]) != ItemKey(s[0])
  {
    if |s| > 0 {
      RestDiffers(s);
    }
  }

  /** The report shows every input row exactly once, in the sorted order, and
      nothing else as a data row. */
  lemma {:induction false} ReportData(rows: seq<Row>, s: seq<Row>)
    requires Arrangement(rows, s)
    ensures DataOf(ReportOf(s)) == s
    ensures multiset(DataOf(ReportOf(s))) == multiset(rows)
    ensures SortedBy(DataOf(ReportOf(s)), ItemKey)
  {
    ReportIsRuns(s);
    RunBlocksData(s);
  }

  /** One subtotal row per distinct item, in strictly ascending item order,
      each holding the column sums of that item's rows; the subtotals add up
      to the grand total. */
  lemma {:induction false} ReportSubtotals(rows: seq<Row>, s: seq<Row>)
    requires Arrangement(rows, s)
    ensures Ascending(SubtotalsIn(ReportOf(s)))
    ensures SubtotalItems(SubtotalsIn(ReportOf(s))) == ItemSet(rows)
    ensures forall i | 0 <= i < |SubtotalsIn(ReportOf(s))| ::
              SubtotalsIn(ReportOf(s))[i].sums == SumRows(Having(rows, ItemKey, SubtotalsIn(ReportOf(s))[i].item))
    ensures SumSubtotals(SubtotalsIn(ReportOf(s))) == SumRows(rows)
  {
    var subs := SubtotalsIn(ReportOf(s));
    ReportIsRuns(s);
    RunBlocksItems(s);
    RunBlocksSums(s);
    ItemSetPermutation(s, rows);
    SumRowsPermutation(s, rows);
    forall i | 0 <= i < |subs|
      ensures subs[i].sums == SumRows(Having(rows, ItemKey, subs[i].item))
    {
      HavingSumsPermutation(s, rows, subs[i].item);
    }
  }

  /** `sort_and_subtotal` (lines 37-71) with the stable sort as its
      `sort_values`: the sorted frame, each item closed by its subtotal in
      ascending item order, and the grand total of all rows last. */
  lemma SortAndSubtotalReport(rows: seq<Row>)
    ensures Chain(SortAndSubtotal(rows))
    ensures !SortAndSubtotal(rows)[0].Subtotal?
    ensures SortAndSubtotal(rows)[|SortAndSubtotal(rows)| - 1] == GrandTotal(SumRows(rows))
    ensures |SortAndSubtotal(rows)| == |rows| + |ItemSet(rows)| + 1
    ensures DataOf(SortAndSubtotal(rows)) == StableSort(rows, ItemKey)
    ensures Ascending(SubtotalsIn(SortAndSubtotal(rows)))
    ensures SubtotalItems(SubtotalsIn(SortAndSubtotal(rows))) == ItemSet(rows)
    ensures forall i | 0 <= i < |SubtotalsIn(SortAndSubtotal(rows))| ::
              SubtotalsIn(SortAndSubtotal(rows))[i].sums
              == SumRows(Having(rows, ItemKey, SubtotalsIn(SortAndSubtotal(rows))[i].item))
    ensures SumSubtotals(SubtotalsIn(SortAndSubtotal(rows))) == SumRows(rows)
  {
    var s := StableSort(rows, ItemKey);
    assert Arrangement(rows, s);
    ReportShape(rows, s);
    ReportData(rows, s);
    ReportSubtotals(rows, s);
  }

  lemma {:induction false} DropFirstSubtotal(a: seq<ReportRow>)
    requires forall i | 0 <= i < |a| :: a[i].Subtotal?
    requires Ascending(a) && |a| > 0
    ensures Ascending(a[1..])
    ensures SubtotalItems(a[1..]) == SubtotalItems(a) - {a[0].item}
  {
    forall x
      ensures x in SubtotalItems(a[1..]) <==> x in SubtotalItems(a) && x != a[0].item
    {
      if x in SubtotalItems(a[1..]) {
        var j :| 0 <= j < |a[1..]| && a[1..][j].item == x;
        assert a[j + 1].item == x;
        assert Below(a[0].item, x);
        BelowIrreflexive(x);
      }
      if x in SubtotalItems(a) && x != a[0].item {
        var j :| 0 <= j < |a| && a[j].item == x;
        assert a[1..][j - 1] == a[j];
      }
    }
    assert forall i, j | 0 <= i < j < |a[1..]| :: a[1..][i] == a[i + 1] && a[1..][j] == a[j + 1];
  }

  lemma FirstSubtotalListed(a: seq<ReportRow>)
    requires forall i | 0 <= i < |a| :: a[i].Subtotal?
    ensures |a| > 0 <==> SubtotalItems(a) != {}
  {
    if |a| > 0 {
      assert a[0].item in SubtotalItems(a);
    }
  }

  /** Subtotal rows are determined by their items and the frame: two ascending
      lists of subtotals over the same items and the same rows are equal. */
  lemma {:induction false} SubtotalsUnique(a: seq<ReportRow>, b: seq<ReportRow>, rows: seq<Row>)
    requires forall i | 0 <= i < |a| :: a[i].Subtotal?
    requires forall i | 0 <= i < |b| :: b[i].Subtotal?
    requires Ascending(a) && Ascending(b) && SubtotalItems(a) == SubtotalItems(b)
    requires forall i | 0 <= i < |a| :: a[i].sums == SumRows(Having(rows, ItemKey, a[i].item))
    requires forall i | 0 <= i < |b| :: b[i].sums == SumRows(Having(rows, ItemKey, b[i].item))
    ensures a == b
    decreases |a|
  {
    FirstSubtotalListed(a);
    FirstSubtotalListed(b);
    if |a| > 0 && |b| > 0 {
      var ka, kb := a[0].item, b[0].item;
      assert ka in SubtotalItems(b) && kb in SubtotalItems(a);
      var j :| 0 <= j < |b| && b[j].item == ka;
      var i :| 0 <= i < |a| && a[i].item == kb;
      if ka != kb {
        assert i > 0 && j > 0;
        assert Below(ka, kb) && Below(kb, ka);
        BelowTrichotomy(ka, kb);
      }
      assert a[0] == b[0];
      DropFirstSubtotal(a);
      DropFirstSubtotal(b);
      SubtotalsUnique(a[1..], b[1..], rows);
      assert a == [a[0]] + a[1..] && b == [b[0]] + b[1..];
    }
  }

  /** Which sorted arrangement the sort returns changes only the order of
      each item's lines: the subtotal rows, the grand total and the length
      of the report are the same, and each item shows the same lines. */
  lemma ArrangementsAgree(rows: seq<Row>, s1: seq<Row>, s2: seq<Row>, k: string)
    requires Arrangement(rows, s1) && Arrangement(rows, s2)
    ensures SubtotalsIn(ReportOf(s1)) == SubtotalsIn(ReportOf(s2))
    ensures |ReportOf(s1)| == |ReportOf(s2)|
    ensures ReportOf(s1)[|ReportOf(s1)| - 1] == ReportOf(s2)[|ReportOf(s2)| - 1]
    ensures multiset(Having(DataOf(ReportOf(s1)), ItemKey, k)) == multiset(Having(DataOf(ReportOf(s2)), ItemKey, k))
  {
    ReportSubtotals(rows, s1);
    ReportSubtotals(rows, s2);
    SubtotalsUnique(SubtotalsIn(ReportOf(s1)), SubtotalsIn(ReportOf(s2)), rows);
    ReportShape(rows, s1);
    ReportShape(rows, s2);
    ReportData(rows, s1);
    ReportData(rows, s2);
    HavingPermutation(s1, s2, ItemKey, k);
  }
}

/** The aggregator of the API (`sort_and_subtotal` in src/routes/sheets.py):
    sort the records by `ITEM`, bucket them by `ITEM`, and total seven numeric
    fields per bucket and over everything. The result is three parts, `data`,
    `subtotals` and `grand_total`, not an interleaved report. */
module SheetsSummary {
  import opened Values
  import opened Strings
  import opened Sorting

  /** The fields `sort_and_subtotal` totals, in the order it visits them. */
  const NumericFields: seq<string> := ["CTNS", "TOTAL", "TOTAL NW", "TOTAL GW", "QTY/CTN", "NW", "GW"]

  /** Per-field totals: a field that no row carries is absent, not 0. */
  type Totals = map<string, real>

  /** Every `ITEM` present is a string. Python raises `TypeError` when it has
      to order a string against a number; the model admits strings only. */
  predicate ItemsAreText(rows: seq<Record>)
  {
    forall i | 0 <= i < |rows| :: "ITEM" in rows[i] ==> rows[i]["ITEM"].Text?
  }

  /** The sort key `x.get('ITEM', '')`. */
  function SortKey(row: Record): string
  {
    if "ITEM" in row && row["ITEM"].Text? then row["ITEM"].s else ""
  }

  /** The bucket label `row.get('ITEM', 'Unknown')`. */
  function GroupLabel(row: Record): string
  {
    if "ITEM" in row && row["ITEM"].Text? then row["ITEM"].s else "Unknown"
  }

  // ---------------------------------------------------------------------------
  // Totals

  /** `sum(row.get(f, 0) for row in rows if isinstance(row.get(f), (int, float)))`. */
  function SumField(rows: seq<Record>, f: string): real
  {
    if |rows| == 0 then 0.0 else Contribution(rows[0], f) + SumField(rows[1..], f)
  }

  /** `any(f in row for row in rows)`. */
  predicate SomeRowHas(rows: seq<Record>, f: string)
  {
    exists i | 0 <= i < |rows| :: f in rows[i]
  }

  /** The totals dictionary built for `rows` by lines 46-48 (and 54-56). */
  function TotalsOf(rows: seq<Record>): Totals
  {
    map f | f in NumericFields && SomeRowHas(rows, f) :: SumField(rows, f)
  }

  /** The numbers field `f` holds across `rows`, in order: the values the
      `isinstance` filter of line 48 lets through. */
  function NumbersIn(rows: seq<Record>, f: string): seq<real>
  {
    if |rows| == 0 then []
    else (if f in rows[0] && rows[0][f].Num? then [rows[0][f].x] else []) + NumbersIn(rows[1..], f)
  }

  function Sum(xs: seq<real>): real
  {
    if |xs| == 0 then 0.0 else xs[0] + Sum(xs[1..])
  }

  lemma {:induction false} SumOfNumbers(rows: seq<Record>, f: string)
    ensures SumField(rows, f) == Sum(NumbersIn(rows, f))
    decreases |rows|
  {
    if |rows| > 0 {
      SumOfNumbers(rows[1..], f);
      var p := if f in rows[0] && rows[0][f].Num? then [rows[0][f].x] else [];
      var rest := NumbersIn(rows[1..], f);
      if p != [] {
        assert (p + rest)[1..] == rest;
      } else {
        assert p + rest == rest;
      }
    }
  }

  /** A totals dictionary has field `f` exactly when `f` is one of the seven
      numeric fields and some row carries `f` at all (even as text or null);
      it then holds the sum of the numbers `f` holds, nothing for the rest. */
  lemma TotalsRule(rows: seq<Record>, f: string)
    ensures f in TotalsOf(rows) <==> f in NumericFields && exists i | 0 <= i < |rows| :: f in rows[i]
    ensures f in TotalsOf(rows) ==> TotalsOf(rows)[f] == Sum(NumbersIn(rows, f))
  {
    SumOfNumbers(rows, f);
  }

  lemma {:induction false} SumFieldConcat(a: seq<Record>, b: seq<Record>, f: string)
    ensures SumField(a + b, f) == SumField(a, f) + SumField(b, f)
    decreases |a|
  {
    if |a| == 0 {
      assert a + b == b;
    } else {
      assert (a + b)[1..] == a[1..] + b;
      SumFieldConcat(a[1..], b, f);
    }
  }

  /** A field no row carries sums to 0. */
  lemma {:induction false} SumFieldAbsent(rows: seq<Record>, f: string)
    requires !SomeRowHas(rows, f)
    ensures SumField(rows, f) == 0.0
  {
    if |rows| > 0 {
      assert !SomeRowHas(rows[1..], f) by {
        forall i | 0 <= i < |rows| - 1 ensures f !in rows[1..][i] {
          assert rows[1..][i] == rows[i + 1];
        }
      }
      SumFieldAbsent(rows[1..], f);
    }
  }

  /** Sums do not depend on the order of the rows. */
  lemma {:induction false} SumFieldPermutation(a: seq<Record>, b: seq<Record>, f: string)
    requires multiset(a) == multiset(b)
    ensures SumField(a, f) == SumField(b, f)
    decreases |a|
  {
    if |a| == 0 {
      assert |b| == |multiset(b)| == 0;
    } else {
      var i := PermutationSplit(a, b);
      var rest := b[..i] + b[i + 1..];
      assert a == [a[0]] + a[1..];
      SumFieldPermutation(a[1..], rest, f);
      SumFieldConcat(b[..i] + [b[i]], b[i + 1..], f);
      SumFieldConcat(b[..i], [b[i]], f);
      SumFieldConcat(b[..i], b[i + 1..], f);
    }
  }

  lemma SomeRowHasPermutation(a: seq<Record>, b: seq<Record>, f: string)
    requires multiset(a) == multiset(b)
    ensures SomeRowHas(a, f) <==> SomeRowHas(b, f)
  {
    if SomeRowHas(a, f) {
      var i :| 0 <= i < |a| && f in a[i];
      assert a[i] in multiset(b);
    }
    if SomeRowHas(b, f) {
      var i :| 0 <= i < |b| && f in b[i];
      assert b[i] in multiset(a);
    }
  }

  /** Totals depend only on which rows there are, not on their order. */
  lemma TotalsPermutation(a: seq<Record>, b: seq<Record>)
    requires multiset(a) == multiset(b)
    ensures TotalsOf(a) == TotalsOf(b)
  {
    forall f | f in NumericFields
      ensures (SomeRowHas(a, f) <==> SomeRowHas(b, f)) && SumField(a, f) == SumField(b, f)
    {
      SomeRowHasPermutation(a, b, f);
      SumFieldPermutation(a, b, f);
    }
  }

  // ---------------------------------------------------------------------------
  // Grouping

  /** One bucket of `items`: a label and its rows, in the order they were met. */
  datatype Group = Group(item: string, rows: seq<Record>)

  /** The index of the bucket labelled `item`, or -1 (`item not in items`). */
  function FindGroup(groups: seq<Group>, item: string): (i: int)
    ensures -1 <= i < |groups|
    ensures i >= 0 ==> groups[i].item == item
    ensures i < 0 ==> forall j | 0 <= j < |groups| :: groups[j].item != item
  {
    if |groups| == 0 then -1
    else if groups[|groups| - 1].item == item then |groups| - 1
    else FindGroup(groups[..|groups| - 1], item)
  }

  /** Lines 36-39: file `row` under its label, opening a bucket if needed. */
  function Bucket(groups: seq<Group>, row: Record): seq<Group>
  {
    var item := GroupLabel(row);
    var i := FindGroup(groups, item);
    if i < 0 then groups + [Group(item, [row])]
    else groups[i := Group(item, groups[i].rows + [row])]
  }

  /** All buckets' rows, one bucket after the other. */
  function Flatten(groups: seq<Group>): seq<Record>
  {
    if |groups| == 0 then [] else groups[0].rows + Flatten(groups[1..])
  }

  predicate DistinctLabels(groups: seq<Group>)
  {
    forall i, j | 0 <= i < j < |groups| :: groups[i].item != groups[j].item
  }

  predicate HasGroup(groups: seq<Group>, item: string)
  {
    exists i | 0 <= i < |groups| :: groups[i].item == item
  }

  /** `groups` partitions `rows` by label: one bucket per label, holding
      exactly that label's rows in their order in `rows`, and together
      holding every row once. */
  predicate GroupingOf(groups: seq<Group>, rows: seq<Record>)
  {
    && DistinctLabels(groups)
    && (forall i | 0 <= i < |groups| :: groups[i].rows == Having(rows, GroupLabel, groups[i].item))
    && (forall i | 0 <= i < |groups| :: |groups[i].rows| > 0)
    && (forall j | 0 <= j < |rows| :: HasGroup(groups, GroupLabel(rows[j])))
    && multiset(Flatten(groups)) == multiset(rows)
  }

  lemma {:induction false} FlattenAppend(groups: seq<Group>, g: Group)
    ensures Flatten(groups + [g]) == Flatten(groups) + g.rows
    decreases |groups|
  {
    if |groups| == 0 {
      assert Flatten([g]) == g.rows + Flatten([]);
    } else {
      assert (groups + [g])[1..] == groups[1..] + [g];
      FlattenAppend(groups[1..], g);
    }
  }

  lemma {:induction false} FlattenExtend(groups: seq<Group>, i: nat, row: Record)
    requires i < |groups|
    ensures multiset(Flatten(groups[i := Group(groups[i].item, groups[i].rows + [row])]))
            == multiset(Flatten(groups)) + multiset{row}
    decreases |groups|
  {
    var g' := groups[i := Group(groups[i].item, groups[i].rows + [row])];
    if i > 0 {
      assert g'[1..] == groups[1..][i - 1 := Group(groups[i].item, groups[i].rows + [row])];
      FlattenExtend(groups[1..], i - 1, row);
    } else {
      assert g'[1..] == groups[1..];
    }
  }

  lemma BucketDistinct(groups: seq<Group>, row: Record)
    requires DistinctLabels(groups)
    ensures DistinctLabels(Bucket(groups, row))
  {
  }

  lemma BucketNonEmpty(groups: seq<Group>, row: Record)
    requires forall i | 0 <= i < |groups| :: |groups[i].rows| > 0
    ensures forall i | 0 <= i < |Bucket(groups, row)| :: |Bucket(groups, row)[i].rows| > 0
  {
  }

  lemma BucketFlatten(groups: seq<Group>, row: Record)
    ensures multiset(Flatten(Bucket(groups, row))) == multiset(Flatten(groups)) + multiset{row}
  {
    var i := FindGroup(groups, GroupLabel(row));
    if i < 0 {
      FlattenAppend(groups, Group(GroupLabel(row), [row]));
    } else {
      FlattenExtend(groups, i, row);
    }
  }

  lemma BucketCovers(groups: seq<Group>, rows: seq<Record>, row: Record)
    requires forall j | 0 <= j < |rows| :: HasGroup(groups, GroupLabel(rows[j]))
    ensures forall j | 0 <= j < |rows + [row]| :: HasGroup(Bucket(groups, row), GroupLabel((rows + [row])[j]))
  {
    var out := Bucket(groups, row);
    var i := FindGroup(groups, GroupLabel(row));
    forall j | 0 <= j < |rows + [row]|
      ensures HasGroup(out, GroupLabel((rows + [row])[j]))
    {
      if j < |rows| {
        assert (rows + [row])[j] == rows[j];
        var k :| 0 <= k < |groups| && groups[k].item == GroupLabel(rows[j]);
        assert out[k].item == groups[k].item;
      } else if i < 0 {
        assert out[|groups|].item == GroupLabel(row);
      } else {
        assert out[i].item == GroupLabel(row);
      }
    }
  }

  /** A label no bucket has is the label of no row. */
  lemma NoRowsWithoutGroup(groups: seq<Group>, rows: seq<Record>, item: string)
    requires forall j | 0 <= j < |rows| :: HasGroup(groups, GroupLabel(rows[j]))
    requires !HasGroup(groups, item)
    ensures Having(rows, GroupLabel, item) == []
  {
    HavingExactly(rows, GroupLabel, item);
  }

  lemma HavingLast<T>(rows: seq<T>, row: T, key: T -> string, k: string)
    ensures Having(rows + [row], key, k) == Having(rows, key, k) + (if key(row) == k then [row] else [])
  {
    HavingConcat(rows, [row], key, k);
    assert Having([row], key, k) == (if key(row) == k then [row] else []) + Having([row][1..], key, k);
  }

  lemma BucketHavingAt(groups: seq<Group>, rows: seq<Record>, row: Record, k: nat)
    requires DistinctLabels(groups)
    requires forall i | 0 <= i < |groups| :: groups[i].rows == Having(rows, GroupLabel, groups[i].item)
    requires forall j | 0 <= j < |rows| :: HasGroup(groups, GroupLabel(rows[j]))
    requires k < |Bucket(groups, row)|
    ensures Bucket(groups, row)[k].rows == Having(rows + [row], GroupLabel, Bucket(groups, row)[k].item)
  {
    var item := GroupLabel(row);
    var i := FindGroup(groups, item);
    var out := Bucket(groups, row);
    HavingLast(rows, row, GroupLabel, out[k].item);
    if i < 0 {
      if k == |groups| {
        NoRowsWithoutGroup(groups, rows, item);
      } else {
        assert out[k] == groups[k];
      }
    } else if k != i {
      assert out[k] == groups[k];
      assert groups[k].item != item;
    }
  }

  lemma BucketGrouping(groups: seq<Group>, rows: seq<Record>, row: Record)
    requires GroupingOf(groups, rows)
    ensures GroupingOf(Bucket(groups, row), rows + [row])
  {
    BucketDistinct(groups, row);
    BucketNonEmpty(groups, row);
    BucketFlatten(groups, row);
    BucketCovers(groups, rows, row);
    forall k | 0 <= k < |Bucket(groups, row)|
      ensures Bucket(groups, row)[k].rows == Having(rows + [row], GroupLabel, Bucket(groups, row)[k].item)
    {
      BucketHavingAt(groups, rows, row, k);
    }
  }

  /** Lines 34-39: the `items` dictionary, as buckets in insertion order. */
  function GroupRows(rows: seq<Record>): seq<Group>
  {
    if |rows| == 0 then []
    else Bucket(GroupRows(rows[..|rows| - 1]), rows[|rows| - 1])
  }

  /** The buckets partition the rows by label. */
  lemma {:induction false} GroupRowsPartition(rows: seq<Record>)
    ensures GroupingOf(GroupRows(rows), rows)
  {
    if |rows| > 0 {
      var before := rows[..|rows| - 1];
      var row := rows[|rows| - 1];
      assert before + [row] == rows;
      assert GroupRows(rows) == Bucket(GroupRows(before), row);
      GroupRowsPartition(before);
      BucketGrouping(GroupRows(before), before, row);
    }
  }

  // ---------------------------------------------------------------------------
  // The summary

  datatype Subtotal = Subtotal(item: string, totals: Totals)

  /** The dictionary `sort_and_subtotal` returns; `subtotals` keeps the
      insertion order of Python's dictionary. */
  datatype Summary = Summary(data: seq<Record>, subtotals: seq<Subtotal>, grandTotal: Totals)

  /** Lines 42-49: one subtotal per bucket. */
  function SubtotalsOf(groups: seq<Group>): (subs: seq<Subtotal>)
    ensures |subs| == |groups|
    ensures forall i | 0 <= i < |groups| ::
              subs[i].item == groups[i].item && subs[i].totals == TotalsOf(groups[i].rows)
  {
    if |groups| == 0 then []
    else [Subtotal(groups[0].item, TotalsOf(groups[0].rows))] + SubtotalsOf(groups[1..])
  }

  predicate HasSubtotal(subs: seq<Subtotal>, item: string)
  {
    exists i | 0 <= i < |subs| :: subs[i].item == item
  }

  /** `sort_and_subtotal` (lines 21-59). */
  function SortAndSubtotal(rows: seq<Record>): (r: Summary)
    requires ItemsAreText(rows)
    // `data` is a stable sort of the input by `ITEM`, missing `ITEM` as ''.
    ensures SortedBy(r.data, SortKey)
    ensures multiset(r.data) == multiset(rows)
    ensures forall k :: Having(r.data, SortKey, k) == Having(rows, SortKey, k)
    // one subtotal per label, and every row's label has one
    ensures forall i, j | 0 <= i < j < |r.subtotals| :: r.subtotals[i].item != r.subtotals[j].item
    ensures forall j | 0 <= j < |rows| :: HasSubtotal(r.subtotals, GroupLabel(rows[j]))
    // each subtotal totals exactly the rows of its label, in whatever order
    ensures forall i | 0 <= i < |r.subtotals| ::
              r.subtotals[i].totals == TotalsOf(Having(rows, GroupLabel, r.subtotals[i].item))
              && Having(rows, GroupLabel, r.subtotals[i].item) != []
    // the grand total totals every row
    ensures r.grandTotal == TotalsOf(rows)
  {
    var data := StableSort(rows, SortKey);
    var groups := GroupRows(data);
    GroupRowsPartition(data);
    SubtotalsMatchInput(rows, data, groups);
    TotalsPermutation(data, rows);
    Summary(data, SubtotalsOf(groups), TotalsOf(data))
  }

  lemma SubtotalsMatchInput(rows: seq<Record>, data: seq<Record>, groups: seq<Group>)
    requires multiset(data) == multiset(rows)
    requires forall i | 0 <= i < |groups| :: groups[i].rows == Having(data, GroupLabel, groups[i].item)
    requires forall i | 0 <= i < |groups| :: |groups[i].rows| > 0
    requires forall k | 0 <= k < |data| :: HasGroup(groups, GroupLabel(data[k]))
    ensures forall j | 0 <= j < |rows| :: HasSubtotal(SubtotalsOf(groups), GroupLabel(rows[j]))
    ensures forall i | 0 <= i < |groups| ::
              TotalsOf(groups[i].rows) == TotalsOf(Having(rows, GroupLabel, groups[i].item))
              && Having(rows, GroupLabel, groups[i].item) != []
  {
    forall j | 0 <= j < |rows|
      ensures HasSubtotal(SubtotalsOf(groups), GroupLabel(rows[j]))
    {
      SubtotalForRow(rows, data, groups, j);
    }
    forall i | 0 <= i < |groups|
      ensures TotalsOf(groups[i].rows) == TotalsOf(Having(rows, GroupLabel, groups[i].item))
      ensures Having(rows, GroupLabel, groups[i].item) != []
    {
      GroupMatchesInput(rows, data, groups[i]);
    }
  }

  lemma SubtotalForRow(rows: seq<Record>, data: seq<Record>, groups: seq<Group>, j: nat)
    requires multiset(data) == multiset(rows)
    requires forall k | 0 <= k < |data| :: HasGroup(groups, GroupLabel(data[k]))
    requires j < |rows|
    ensures HasSubtotal(SubtotalsOf(groups), GroupLabel(rows[j]))
  {
    var subs := SubtotalsOf(groups);
    assert rows[j] in multiset(data);
    var k :| 0 <= k < |data| && data[k] == rows[j];
    assert HasGroup(groups, GroupLabel(data[k]));
    var i :| 0 <= i < |groups| && groups[i].item == GroupLabel(data[k]);
    assert subs[i].item == GroupLabel(rows[j]);
  }

  lemma GroupMatchesInput(rows: seq<Record>, data: seq<Record>, g: Group)
    requires multiset(data) == multiset(rows)
    requires g.rows == Having(data, GroupLabel, g.item) && |g.rows| > 0
    ensures TotalsOf(g.rows) == TotalsOf(Having(rows, GroupLabel, g.item))
    ensures Having(rows, GroupLabel, g.item) != []
  {
    HavingPermutation(data, rows, GroupLabel, g.item);
    TotalsPermutation(g.rows, Having(rows, GroupLabel, g.item));
  }

  // ---------------------------------------------------------------------------
  // Grand total against subtotals

  /** Field `f` of all subtotals added up, a subtotal without `f` adding 0. */
  function SumSubtotals(subs: seq<Subtotal>, f: string): real
  {
    if |subs| == 0 then 0.0
    else (if f in subs[0].totals then subs[0].totals[f] else 0.0) + SumSubtotals(subs[1..], f)
  }

  predicate SomeSubtotalHas(subs: seq<Subtotal>, f: string)
  {
    exists i | 0 <= i < |subs| :: f in subs[i].totals
  }

  lemma FlattenTotals(groups: seq<Group>, f: string)
    requires f in NumericFields
    ensures SumField(Flatten(groups), f) == SumSubtotals(SubtotalsOf(groups), f)
    ensures SomeRowHas(Flatten(groups), f) <==> SomeSubtotalHas(SubtotalsOf(groups), f)
  {
    FlattenSums(groups, f);
    FlattenHas(groups, f);
  }

  lemma {:induction false} FlattenSums(groups: seq<Group>, f: string)
    requires f in NumericFields
    ensures SumField(Flatten(groups), f) == SumSubtotals(SubtotalsOf(groups), f)
    decreases |groups|
  {
    if |groups| > 0 {
      var g := groups[0];
      FlattenSums(groups[1..], f);
      assert SubtotalsOf(groups)[1..] == SubtotalsOf(groups[1..]);
      SumFieldConcat(g.rows, Flatten(groups[1..]), f);
      if !SomeRowHas(g.rows, f) {
        SumFieldAbsent(g.rows, f);
      }
    }
  }

  lemma {:induction false} FlattenHas(groups: seq<Group>, f: string)
    requires f in NumericFields
    ensures SomeRowHas(Flatten(groups), f) <==> SomeSubtotalHas(SubtotalsOf(groups), f)
    decreases |groups|
  {
    if |groups| > 0 {
      var subs := SubtotalsOf(groups);
      FlattenHas(groups[1..], f);
      assert subs[1..] == SubtotalsOf(groups[1..]);
      SomeRowHasConcat(groups[0].rows, Flatten(groups[1..]), f);
      if SomeSubtotalHas(subs[1..], f) {
        var i :| 0 <= i < |subs[1..]| && f in subs[1..][i].totals;
        assert f in subs[i + 1].totals;
      }
      if SomeSubtotalHas(subs, f) {
        var i :| 0 <= i < |subs| && f in subs[i].totals;
        if i > 0 {
          assert f in subs[1..][i - 1].totals;
        }
      }
    }
  }

  lemma SomeRowHasConcat(a: seq<Record>, b: seq<Record>, f: string)
    ensures SomeRowHas(a + b, f) <==> SomeRowHas(a, f) || SomeRowHas(b, f)
  {
    if SomeRowHas(a + b, f) {
      var i :| 0 <= i < |a + b| && f in (a + b)[i];
      if i >= |a| {
        assert (a + b)[i] == b[i - |a|];
      }
    }
    if SomeRowHas(a, f) {
      var i :| 0 <= i < |a| && f in a[i];
      assert (a + b)[i] == a[i];
    }
    if SomeRowHas(b, f) {
      var i :| 0 <= i < |b| && f in b[i];
      assert (a + b)[|a| + i] == b[i];
    }
  }

  /** The grand total has a field exactly when some subtotal has it, and its
      value is the sum of that field over the subtotals. */
  lemma GrandTotalIsSumOfSubtotals(rows: seq<Record>)
    requires ItemsAreText(rows)
    ensures forall f :: f in SortAndSubtotal(rows).grandTotal
                        <==> SomeSubtotalHas(SortAndSubtotal(rows).subtotals, f)
    ensures forall f | f in SortAndSubtotal(rows).grandTotal ::
              SortAndSubtotal(rows).grandTotal[f] == SumSubtotals(SortAndSubtotal(rows).subtotals, f)
  {
    var r := SortAndSubtotal(rows);
    var data := StableSort(rows, SortKey);
    var groups := GroupRows(data);
    GroupRowsPartition(data);
    assert r.subtotals == SubtotalsOf(groups);
    forall f
      ensures f in r.grandTotal <==> SomeSubtotalHas(r.subtotals, f)
      ensures f in r.grandTotal ==> r.grandTotal[f] == SumSubtotals(r.subtotals, f)
    {
      if f in NumericFields {
        FlattenTotals(groups, f);
        SomeRowHasPermutation(data, Flatten(groups), f);
        SumFieldPermutation(data, Flatten(groups), f);
        TotalsPermutation(data, rows);
      } else {
        assert !SomeSubtotalHas(r.subtotals, f);
      }
    }
  }

  /** No input gives no subtotals and an empty grand total; more generally the
      grand total is empty exactly when no row carries a numeric field. */
  lemma EmptyTotals(rows: seq<Record>)
    requires ItemsAreText(rows)
    ensures |rows| == 0 ==> SortAndSubtotal(rows) == Summary([], [], map[])
    ensures SortAndSubtotal(rows).grandTotal == map[]
            <==> forall j, f | 0 <= j < |rows| && f in NumericFields :: f !in rows[j]
  {
    var t := SortAndSubtotal(rows).grandTotal;
    if t == map[] {
      forall j, f | 0 <= j < |rows| && f in NumericFields
        ensures f !in rows[j]
      {
        assert f !in t;
      }
    }
    if |rows| == 0 {
      assert t == map[];
    }
  }

  /** The sort key and the bucket label disagree on rows without `ITEM`: such a
      row sorts before every row with a non-empty `ITEM`, yet it is totalled
      together with the rows whose `ITEM` is literally "Unknown". */
  lemma MissingItemQuirk(rows: seq<Record>, i: nat, j: nat)
    requires ItemsAreText(rows)
    requires i < |SortAndSubtotal(rows).data| && j < |SortAndSubtotal(rows).data|
    requires "ITEM" !in SortAndSubtotal(rows).data[i]
    requires "ITEM" in SortAndSubtotal(rows).data[j] && SortAndSubtotal(rows).data[j]["ITEM"] != Text("")
    ensures i < j
    ensures GroupLabel(SortAndSubtotal(rows).data[i]) == "Unknown"
    ensures SortAndSubtotal(rows).data[j]["ITEM"] == Text("Unknown")
            ==> GroupLabel(SortAndSubtotal(rows).data[j]) == GroupLabel(SortAndSubtotal(rows).data[i])
  {
    var d := SortAndSubtotal(rows).data;
    assert d[j] in multiset(rows);
    assert SortKey(d[i]) == "" && SortKey(d[j]) != "";
    EmptyIsLeast(SortKey(d[j]));
    SortedBelowOrder(d, SortKey, i, j);
  }
}

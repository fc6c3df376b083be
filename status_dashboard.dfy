/** The statistics page: the amount per category, phase and sub-category
    for the pie charts, and the amount per day for the line chart
    (frontend/src/pages/StatusDashboard.jsx). */
module StatusDashboard {
  import opened Seqs
  import opened Records
  import opened StableSort
  import opened Aggregation

  /** A pie chart slice `{ name, value }`. */
  datatype Slice = Slice(name: string, value: int)

  /** A line chart point `{ date, amount }`. */
  datatype Point = Point(date: int, amount: int)

  function SliceEntries(data: seq<Slice>): (r: seq<(string, int)>)
    ensures |r| == |data| && forall i :: 0 <= i < |r| ==> r[i] == (data[i].name, data[i].value)
  {
    seq(|data|, i requires 0 <= i < |data| => (data[i].name, data[i].value))
  }

  function SliceNames(data: seq<Slice>): (r: seq<string>)
    ensures |r| == |data| && forall i :: 0 <= i < |r| ==> r[i] == data[i].name
  {
    seq(|data|, i requires 0 <= i < |data| => data[i].name)
  }

  function PointEntries(points: seq<Point>): (r: seq<(int, int)>)
    ensures |r| == |points| && forall i :: 0 <= i < |r| ==> r[i] == (points[i].date, points[i].amount)
  {
    seq(|points|, i requires 0 <= i < |points| => (points[i].date, points[i].amount))
  }

  /** The `{ date, amount }` objects built from `[date, amount]` entries. */
  function ToPoints(entries: seq<(int, int)>): (points: seq<Point>)
    ensures |points| == |entries|
    ensures forall i :: 0 <= i < |points| ==> points[i].date == entries[i].0 && points[i].amount == entries[i].1
    ensures PointEntries(points) == entries
  {
    seq(|entries|, i requires 0 <= i < |entries| => Point(entries[i].0, entries[i].1))
  }

  /** `processData(key, 'title')`: one slice per title of the relation
      (a missing or empty title counts as "Uncategorized"), in order of
      first appearance, each valued at the summed amount of its records;
      the slices add up to the total of all records. */
  method ProcessData(expenses: seq<Expense>, rel: Relation) returns (data: seq<Slice>)
    ensures SliceEntries(data) == TotalsFor(FirstKeys(expenses, TitleOr(rel, "Uncategorized")), expenses, TitleOr(rel, "Uncategorized"))
    ensures IsTotalsOf(SliceEntries(data), expenses, TitleOr(rel, "Uncategorized"))
    ensures InFirstEncounterOrder(SliceNames(data), expenses, TitleOr(rel, "Uncategorized"))
  {
    var f := TitleOr(rel, "Uncategorized");
    var entries := SumBy(expenses, f);
    data := seq(|entries|, i requires 0 <= i < |entries| => Slice(entries[i].0, entries[i].1));
    assert SliceEntries(data) == entries;
    assert SliceNames(data) == FirstKeys(expenses, f);
    KeyTotalsFacts(expenses, f);
    FirstKeysOrder(expenses, f);
  }

  /** The per-day totals sorted by date are the totals of the records, with
      strictly ascending dates. */
  lemma DailyTotalsFacts(expenses: seq<Expense>)
    ensures var r := SortSpec(TotalsFor(FirstKeys(expenses, PurchaseDateOf()), expenses, PurchaseDateOf()), EntryKey(), Asc);
      && IsTotalsOf(r, expenses, PurchaseDateOf())
      && forall i, j :: 0 <= i < j < |r| ==> r[i].0 < r[j].0
  {
    var entries := TotalsFor(FirstKeys(expenses, PurchaseDateOf()), expenses, PurchaseDateOf());
    var r := SortSpec(entries, EntryKey(), Asc);
    KeyTotalsFacts(expenses, PurchaseDateOf());
    SortKeepsTotals(entries, expenses, PurchaseDateOf(), EntryKey(), Asc);
    SortSpecProperties(entries, EntryKey(), Asc);
    AscendingDistinctKeys(r);
  }

  /** `timeSeriesData`: one point per purchase date, valued at the summed
      amount of that day's records, in strictly ascending date order; the
      points add up to the total of all records. */
  method TimeSeries(expenses: seq<Expense>) returns (points: seq<Point>)
    ensures PointEntries(points) == SortSpec(TotalsFor(FirstKeys(expenses, PurchaseDateOf()), expenses, PurchaseDateOf()), EntryKey(), Asc)
    ensures IsTotalsOf(PointEntries(points), expenses, PurchaseDateOf())
    ensures forall i, j :: 0 <= i < j < |points| ==> points[i].date < points[j].date
  {
    var entries := SumBy(expenses, PurchaseDateOf());
    var sorted := Sort(entries, EntryKey(), Asc);
    DailyTotalsFacts(expenses);
    points := ToPoints(sorted);
  }
}

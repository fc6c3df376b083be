/** The bar above the expense list: the invested total and the per-category
    totals, largest first (frontend/src/components/SummaryBar.jsx). */
module SummaryBar {
  import opened Seqs
  import opened Records
  import opened StableSort
  import opened Aggregation

  /** The key of the breakdown: the category title, or "Uncategorized". */
  function CategoryOf(): Expense -> string {
    TitleOr(Relation.CategoryOf, "Uncategorized")
  }

  /** The per-category totals sorted by amount, largest first, are the
      totals of the records, with non-increasing amounts. */
  lemma BreakdownFacts(expenses: seq<Expense>)
    ensures var r := SortSpec(TotalsFor(FirstKeys(expenses, CategoryOf()), expenses, CategoryOf()), EntryAmount(), Desc);
      && IsTotalsOf(r, expenses, CategoryOf())
      && forall i, j :: 0 <= i < j < |r| ==> r[i].1 >= r[j].1
  {
    var entries := TotalsFor(FirstKeys(expenses, CategoryOf()), expenses, CategoryOf());
    KeyTotalsFacts(expenses, CategoryOf());
    SortKeepsTotals(entries, expenses, CategoryOf(), EntryAmount(), Desc);
    SortSpecProperties(entries, EntryAmount(), Desc);
    DescendingAmounts(SortSpec(entries, EntryAmount(), Desc));
  }

  /** `categoryBreakdown`: one `[title, amount]` entry per category title,
      the amounts summed per title, sorted by amount, largest first; equal
      amounts stay in order of the titles' first appearance. The entries
      add up to the invested total. */
  method CategoryBreakdown(expenses: seq<Expense>) returns (r: seq<(string, int)>)
    ensures r == SortSpec(TotalsFor(FirstKeys(expenses, CategoryOf()), expenses, CategoryOf()), EntryAmount(), Desc)
    ensures IsTotalsOf(r, expenses, CategoryOf())
    ensures forall i, j :: 0 <= i < j < |r| ==> r[i].1 >= r[j].1
    ensures TiesInOrder(r, TotalsFor(FirstKeys(expenses, CategoryOf()), expenses, CategoryOf()), EntryAmount())
  {
    var entries := SumBy(expenses, CategoryOf());
    r := Sort(entries, EntryAmount(), Desc);
    BreakdownFacts(expenses);
  }
}

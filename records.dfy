/** The records the view layer receives from the API, already parsed.
    Amounts are integer cents; dates are day numbers, so that comparing
    two dates compares the days they denote. */
module Records {
  import opened Wrappers
  import opened Seqs

  /** A related row nested in an expense (category, sub-category, phase or
      tag): its id and its title. */
  datatype Ref = Ref(id: int, title: string)

  datatype Expense = Expense(
    id: int,
    title: string,
    amount: int,
    purchaseDate: int,
    category: Option<Ref>,
    subCategory: Option<Ref>,
    phase: Option<Ref>,
    tags: seq<Ref>,
    notes: Option<string>)

  /** The taxonomy as the management page and the expense form load it. */
  datatype SubCategory = SubCategory(id: int, title: string, categoryId: int)
  datatype Category = Category(id: int, title: string, subCategories: seq<SubCategory>)
  /** A phase or a tag: a flat id and title. */
  datatype Label = Label(id: int, title: string)

  /** Which nested relation of an expense a view reads. */
  datatype Relation = CategoryOf | SubCategoryOf | PhaseOf

  function Related(e: Expense, rel: Relation): Option<Ref> {
    match rel
    case CategoryOf => e.category
    case SubCategoryOf => e.subCategory
    case PhaseOf => e.phase
  }

  /** `e[rel]?.title || fallback`: a missing relation and an empty title
      (falsy in JavaScript) both give the fallback label. */
  function LabelOr(e: Expense, rel: Relation, fallback: string): (r: string)
    ensures Related(e, rel).Some? && Related(e, rel).value.title != "" ==> r == Related(e, rel).value.title
    ensures Related(e, rel).None? || Related(e, rel).value.title == "" ==> r == fallback
  {
    match Related(e, rel)
    case Some(ref) => if ref.title != "" then ref.title else fallback
    case None => fallback
  }

  /** The record's date: the key of the newest-first list and of the time series. */
  function PurchaseDateOf(): Expense -> int {
    (e: Expense) => e.purchaseDate
  }

  /** `e => e[rel]?.title || fallback`, the key the summaries file a record under. */
  function TitleOr(rel: Relation, fallback: string): Expense -> string {
    e => LabelOr(e, rel, fallback)
  }

  /** A record's amount. */
  function AmountOf(): Expense -> int {
    (e: Expense) => e.amount
  }

  /** `expenses.reduce((sum, e) => sum + e.amount, 0)`. */
  function Total(s: seq<Expense>): int {
    SumOf(s, AmountOf())
  }

  lemma {:induction false} TotalAppend(a: seq<Expense>, b: seq<Expense>)
    ensures Total(a + b) == Total(a) + Total(b)
    decreases |b|
  {
    if b == [] {
      assert a + b == a;
    } else {
      assert (a + b)[..|a + b| - 1] == a + b[..|b| - 1];
      TotalAppend(a, b[..|b| - 1]);
    }
  }

  /** The total of a non-empty list is that of all but the last record, plus its amount. */
  lemma TotalStep(s: seq<Expense>)
    requires s != []
    ensures Total(s) == Total(s[..|s| - 1]) + s[|s| - 1].amount
  {
    assert AmountOf()(s[|s| - 1]) == s[|s| - 1].amount;
  }

  lemma TotalOfOne(e: Expense)
    ensures Total([e]) == e.amount
  {
    TotalStep([e]);
    assert [e][..0] == [];
  }
}

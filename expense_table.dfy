/** The expense table: the option lists offered to its filter controls,
    the nine-clause filter, the sort on a copy, and the state updates
    behind its controls (frontend/src/components/ExpenseTable.jsx). */
module ExpenseTable {
  import opened Wrappers
  import opened Text
  import opened Seqs
  import opened Records
  import opened StableSort

  /** The `filters` state. Text criteria are unset when empty; a date or
      amount bound is `None` when its input text is empty. */
  datatype FilterState = FilterState(
    dateFrom: Option<int>,
    dateTo: Option<int>,
    title: string,
    category: string,
    subCategory: string,
    phase: string,
    tags: seq<string>,
    amountFrom: Option<int>,
    amountTo: Option<int>)

  const NoFilters := FilterState(None, None, "", "", "", "", [], None, None)

  /** The two columns whose headers call `requestSort`. */
  datatype SortKey = PurchaseDate | Amount

  datatype SortConfig = SortConfig(key: SortKey, direction: Direction)

  const DefaultSort := SortConfig(PurchaseDate, Desc)

  // ---------------------------------------------------------------------
  // Option lists (`uniqueValues`)

  datatype Options = Options(
    categories: seq<string>,
    subCategories: seq<string>,
    phases: seq<string>,
    tags: seq<string>)

  /** `Array.from(set).sort()` yields each value once, ascending. */
  ghost predicate StrictlySorted(r: seq<string>) {
    forall i, j :: 0 <= i < j < |r| ==> StrLess(r[i], r[j])
  }

  /** `getUnique` adds `e[rel]?.title` only when it is truthy (non-empty). */
  predicate HasTitle(e: Expense, rel: Relation, t: string) {
    Related(e, rel).Some? && Related(e, rel).value.title == t && t != ""
  }

  /** The sub-category options' filter: no category chosen, or the record's
      category title is the chosen one. */
  predicate InCategory(e: Expense, category: string) {
    category == "" || (e.category.Some? && e.category.value.title == category)
  }

  function KeepAll(): Expense -> bool {
    e => true
  }

  function KeepCategory(category: string): Expense -> bool {
    e => InCategory(e, category)
  }

  /** `m` is the least element of `values` in string order. */
  predicate IsLeast(m: string, values: set<string>) {
    m in values && forall t :: t in values && t != m ==> StrLess(m, t)
  }

  lemma {:induction false} LeastExists(values: set<string>) returns (m: string)
    requires values != {}
    ensures IsLeast(m, values)
    decreases |values|
  {
    var x :| x in values;
    if values == {x} {
      m := x;
    } else {
      var rest := values - {x};
      var m' := LeastExists(rest);
      if StrLess(x, m') {
        forall t | t in values && t != x ensures StrLess(x, t) {
          if t != m' { StrLessTransitive(x, m', t); }
        }
        m := x;
      } else {
        StrLessTotal(x, m');
        m := m';
      }
    }
  }

  /** `Array.from(values).sort()`. */
  method SortedStrings(values: set<string>) returns (r: seq<string>)
    ensures StrictlySorted(r)
    ensures forall t :: t in r <==> t in values
  {
    r := [];
    var rest := values;
    while rest != {}
      invariant rest <= values
      invariant forall t :: t in r <==> t in values && t !in rest
      invariant StrictlySorted(r)
      invariant forall i, t :: 0 <= i < |r| && t in rest ==> StrLess(r[i], t)
      decreases |rest|
    {
      ghost var least := LeastExists(rest);
      var m :| m in rest && IsLeast(m, rest);
      forall t | t in rest - {m} ensures StrLess(m, t) {
        assert IsLeast(m, rest);
        assert t in rest;
        assert t != m;
      }
      r := r + [m];
      rest := rest - {m};
    }
  }

  /** `getUnique(key, 'title', filterFn)`: the distinct non-empty titles of
      relation `rel` among the records `keep` accepts, sorted. */
  method GetUnique(expenses: seq<Expense>, rel: Relation, keep: Expense -> bool) returns (r: seq<string>)
    ensures StrictlySorted(r)
    ensures forall t :: t in r <==>
      exists i :: 0 <= i < |expenses| && keep(expenses[i]) && HasTitle(expenses[i], rel, t)
  {
    var values: set<string> := {};
    for i := 0 to |expenses|
      invariant forall t :: t in values <==>
        exists k :: 0 <= k < i && keep(expenses[k]) && HasTitle(expenses[k], rel, t)
    {
      var e := expenses[i];
      if keep(e) {
        match Related(e, rel)
        case Some(ref) =>
          if ref.title != "" {
            values := values + {ref.title};
          }
        case None =>
      }
    }
    r := SortedStrings(values);
  }

  /** The tag option list: every tag title, the empty one included. */
  method TagOptions(expenses: seq<Expense>) returns (r: seq<string>)
    ensures StrictlySorted(r)
    ensures forall t :: t in r <==>
      exists i, j :: 0 <= i < |expenses| && 0 <= j < |expenses[i].tags| && expenses[i].tags[j].title == t
  {
    var values: set<string> := {};
    for i := 0 to |expenses|
      invariant forall t :: t in values <==>
        exists k, j :: 0 <= k < i && 0 <= j < |expenses[k].tags| && expenses[k].tags[j].title == t
    {
      var tags := expenses[i].tags;
      for j := 0 to |tags|
        invariant forall t :: t in values <==>
          (exists k, j' :: 0 <= k < i && 0 <= j' < |expenses[k].tags| && expenses[k].tags[j'].title == t)
          || (exists j' :: 0 <= j' < j && tags[j'].title == t)
      {
        values := values + {tags[j].title};
      }
    }
    r := SortedStrings(values);
  }

  /** `uniqueValues`: the four option lists. Only the sub-category list
      depends on the filters, and only on the chosen category. */
  method UniqueValues(expenses: seq<Expense>, filters: FilterState) returns (o: Options)
    ensures StrictlySorted(o.categories) && StrictlySorted(o.subCategories)
    ensures StrictlySorted(o.phases) && StrictlySorted(o.tags)
    ensures forall t :: t in o.categories <==> exists e :: e in expenses && HasTitle(e, CategoryOf, t)
    ensures forall t :: t in o.subCategories <==>
      exists e :: e in expenses && InCategory(e, filters.category) && HasTitle(e, SubCategoryOf, t)
    ensures forall t :: t in o.phases <==> exists e :: e in expenses && HasTitle(e, PhaseOf, t)
    ensures forall t :: t in o.tags <==> exists e, tag :: e in expenses && tag in e.tags && tag.title == t
  {
    var categories := GetUnique(expenses, CategoryOf, KeepAll());
    var subCategories := GetUnique(expenses, SubCategoryOf, KeepCategory(filters.category));
    var phases := GetUnique(expenses, PhaseOf, KeepAll());
    var tags := TagOptions(expenses);
    o := Options(categories, subCategories, phases, tags);
    forall t | t in o.tags ensures exists e, tag :: e in expenses && tag in e.tags && tag.title == t {
      var i, j :| 0 <= i < |expenses| && 0 <= j < |expenses[i].tags| && expenses[i].tags[j].title == t;
      assert expenses[i] in expenses && expenses[i].tags[j] in expenses[i].tags;
    }
    forall t | (exists e, tag :: e in expenses && tag in e.tags && tag.title == t) ensures t in o.tags {
      var e, tag :| e in expenses && tag in e.tags && tag.title == t;
      var i :| 0 <= i < |expenses| && expenses[i] == e;
      var j :| 0 <= j < |e.tags| && e.tags[j] == tag;
    }
  }

  // ---------------------------------------------------------------------
  // The filter (`filteredExpenses`)

  predicate DateFromOk(e: Expense, f: FilterState) {
    f.dateFrom.None? || e.purchaseDate >= f.dateFrom.value
  }

  predicate DateToOk(e: Expense, f: FilterState) {
    f.dateTo.None? || e.purchaseDate <= f.dateTo.value
  }

  predicate TitleOk(e: Expense, f: FilterState) {
    ContainsIgnoringCase(e.title, f.title)
  }

  /** `filters.category ? expense.category?.title === filters.category : true` */
  predicate CategoryOk(e: Expense, f: FilterState) {
    f.category == "" || (e.category.Some? && e.category.value.title == f.category)
  }

  predicate SubCategoryOk(e: Expense, f: FilterState) {
    f.subCategory == "" || (e.subCategory.Some? && e.subCategory.value.title == f.subCategory)
  }

  predicate PhaseOk(e: Expense, f: FilterState) {
    f.phase == "" || (e.phase.Some? && e.phase.value.title == f.phase)
  }

  /** `tags.some(tag => selected.includes(tag.title))`, as the left-to-right scan. */
  function SomeTagSelected(tags: seq<Ref>, selected: seq<string>): (b: bool)
    ensures b <==> exists i :: 0 <= i < |tags| && tags[i].title in selected
  {
    if tags == [] then false
    else if tags[0].title in selected then true
    else
      var b := SomeTagSelected(tags[1..], selected);
      assert forall i :: 1 <= i < |tags| ==> tags[i] == tags[1..][i - 1];
      b
  }

  /** ANY-match: with tags selected, some tag of the record must be one of them. */
  predicate TagsOk(e: Expense, f: FilterState) {
    |f.tags| == 0 || SomeTagSelected(e.tags, f.tags)
  }

  predicate AmountFromOk(e: Expense, f: FilterState) {
    f.amountFrom.None? || e.amount >= f.amountFrom.value
  }

  predicate AmountToOk(e: Expense, f: FilterState) {
    f.amountTo.None? || e.amount <= f.amountTo.value
  }

  predicate Passes(e: Expense, f: FilterState) {
    && DateFromOk(e, f) && DateToOk(e, f)
    && TitleOk(e, f)
    && CategoryOk(e, f) && SubCategoryOk(e, f) && PhaseOk(e, f)
    && TagsOk(e, f)
    && AmountFromOk(e, f) && AmountToOk(e, f)
  }

  function PassesFn(f: FilterState): Expense -> bool {
    e => Passes(e, f)
  }

  /** `expenses.filter(...)`: the records passing every clause, at strictly
      increasing positions, exactly the positions whose record passes. */
  function FilteredExpenses(expenses: seq<Expense>, f: FilterState): (r: seq<Expense>)
    ensures IsSelection(r, expenses, KeptIndices(expenses, PassesFn(f)))
    ensures forall j :: 0 <= j < |expenses| ==>
      (j in KeptIndices(expenses, PassesFn(f)) <==> Passes(expenses[j], f))
  {
    FilterSelects(expenses, PassesFn(f));
    Filter(expenses, PassesFn(f))
  }

  /** With every criterion unset, every record is kept. */
  lemma NoFiltersKeepEverything(expenses: seq<Expense>)
    ensures FilteredExpenses(expenses, NoFilters) == expenses
  {
    forall e | e in expenses ensures PassesFn(NoFilters)(e) {
      EmptyFoundEverywhere(e.title);
    }
    FilterKeepsAll(expenses, PassesFn(NoFilters));
  }

  /** A record without tags fails a non-empty tag filter, whatever else it matches. */
  lemma UntaggedFailsTagFilter(e: Expense, f: FilterState)
    requires e.tags == [] && f.tags != []
    ensures !Passes(e, f)
  {
  }

  // ---------------------------------------------------------------------
  // The sort (`sortedExpenses`)

  /** `Number(amount)` or `new Date(purchase_date)`, the compared values. */
  function SortValue(e: Expense, key: SortKey): int {
    match key
    case PurchaseDate => e.purchaseDate
    case Amount => e.amount
  }

  function SortValueFn(key: SortKey): Expense -> int {
    e => SortValue(e, key)
  }

  /** `[...filtered].sort(cmp)`: a permutation of its input, non-decreasing
      on the key for `asc` and non-increasing for `desc`, records with equal
      keys in input order in both directions. */
  method SortedExpenses(filtered: seq<Expense>, config: SortConfig) returns (r: seq<Expense>)
    ensures multiset(r) == multiset(filtered)
    ensures config.direction == Asc ==>
      forall i, j :: 0 <= i < j < |r| ==> SortValue(r[i], config.key) <= SortValue(r[j], config.key)
    ensures config.direction == Desc ==>
      forall i, j :: 0 <= i < j < |r| ==> SortValue(r[i], config.key) >= SortValue(r[j], config.key)
    ensures TiesInOrder(r, filtered, SortValueFn(config.key))
    ensures r == SortSpec(filtered, SortValueFn(config.key), config.direction)
  {
    r := Sort(filtered, SortValueFn(config.key), config.direction);
    forall i, j | 0 <= i < j < |r|
      ensures !Before(SortValue(r[j], config.key), SortValue(r[i], config.key), config.direction)
    {
      assert !Before(SortValueFn(config.key)(r[j]), SortValueFn(config.key)(r[i]), config.direction);
    }
  }

  /** The rows the table shows: the filtered records, sorted on the chosen
      column in the chosen direction, equal keys in filtered order. */
  method VisibleRows(expenses: seq<Expense>, filters: FilterState, config: SortConfig) returns (r: seq<Expense>)
    ensures multiset(r) == multiset(FilteredExpenses(expenses, filters))
    ensures config.direction == Asc ==>
      forall i, j :: 0 <= i < j < |r| ==> SortValue(r[i], config.key) <= SortValue(r[j], config.key)
    ensures config.direction == Desc ==>
      forall i, j :: 0 <= i < j < |r| ==> SortValue(r[i], config.key) >= SortValue(r[j], config.key)
    ensures TiesInOrder(r, FilteredExpenses(expenses, filters), SortValueFn(config.key))
    ensures r == SortSpec(FilteredExpenses(expenses, filters), SortValueFn(config.key), config.direction)
    ensures forall i :: 0 <= i < |r| ==> r[i] in expenses && Passes(r[i], filters)
    ensures forall e :: e in expenses && Passes(e, filters) ==> e in r
  {
    var filtered := FilteredExpenses(expenses, filters);
    r := SortedExpenses(filtered, config);
    forall i | 0 <= i < |r| ensures r[i] in expenses && Passes(r[i], filters) {
      assert r[i] in multiset(filtered);
      assert PassesFn(filters)(r[i]);
    }
    forall e | e in expenses && Passes(e, filters) ensures e in r {
      var j :| 0 <= j < |expenses| && expenses[j] == e;
      assert PassesFn(filters)(expenses[j]);
      assert e in multiset(filtered);
    }
  }

  // ---------------------------------------------------------------------
  // State updates behind the controls

  datatype FilterUpdate =
    | SetDateFrom(date: Option<int>)
    | SetDateTo(date: Option<int>)
    | SetTitle(text: string)
    | SetCategory(text: string)
    | SetSubCategory(text: string)
    | SetPhase(text: string)
    | SetTags(selected: seq<string>)
    | SetAmountFrom(bound: Option<int>)
    | SetAmountTo(bound: Option<int>)

  /** `handleFilterChange(key, value)`: sets the one field; choosing a
      category also clears the sub-category. */
  function HandleFilterChange(f: FilterState, u: FilterUpdate): (r: FilterState)
    ensures u.SetCategory? ==> r == f.(category := u.text, subCategory := "")
    ensures u.SetSubCategory? ==> r == f.(subCategory := u.text)
    ensures u.SetTitle? ==> r == f.(title := u.text)
    ensures u.SetPhase? ==> r == f.(phase := u.text)
    ensures u.SetTags? ==> r == f.(tags := u.selected)
    ensures u.SetDateFrom? ==> r == f.(dateFrom := u.date)
    ensures u.SetDateTo? ==> r == f.(dateTo := u.date)
    ensures u.SetAmountFrom? ==> r == f.(amountFrom := u.bound)
    ensures u.SetAmountTo? ==> r == f.(amountTo := u.bound)
  {
    match u
    case SetDateFrom(d) => f.(dateFrom := d)
    case SetDateTo(d) => f.(dateTo := d)
    case SetTitle(t) => f.(title := t)
    case SetCategory(c) => f.(category := c, subCategory := "")
    case SetSubCategory(c) => f.(subCategory := c)
    case SetPhase(p) => f.(phase := p)
    case SetTags(ts) => f.(tags := ts)
    case SetAmountFrom(a) => f.(amountFrom := a)
    case SetAmountTo(a) => f.(amountTo := a)
  }

  /** After a category is chosen, the sub-category clause passes every
      record: the table shows the records of that category that match the
      other criteria, whatever sub-category had been chosen before. */
  lemma CategoryChangeDropsSubCategory(expenses: seq<Expense>, f: FilterState, category: string)
    ensures var r := HandleFilterChange(f, SetCategory(category));
      FilteredExpenses(expenses, r) == FilteredExpenses(expenses, f.(category := category, subCategory := ""))
      && forall e :: e in FilteredExpenses(expenses, r) ==> SubCategoryOk(e, r) && CategoryOk(e, r)
  {
    var r := HandleFilterChange(f, SetCategory(category));
    assert r == f.(category := category, subCategory := "");
    var out := FilteredExpenses(expenses, r);
    forall e | e in out ensures SubCategoryOk(e, r) && CategoryOk(e, r) {
      var i :| 0 <= i < |out| && out[i] == e;
      assert PassesFn(r)(out[i]);
    }
  }

  /** `requestSort(key)`: the same key sorted ascending turns descending;
      anything else sorts `key` ascending. */
  function RequestSort(config: SortConfig, key: SortKey): (r: SortConfig)
    ensures r.key == key
    ensures r.direction == Desc <==> config.key == key && config.direction == Asc
  {
    var direction := if config.key == key && config.direction == Asc then Desc else Asc;
    SortConfig(key, direction)
  }

  /** Clicking the same header again always flips the direction. */
  lemma RequestSortAgainFlips(config: SortConfig, key: SortKey)
    ensures RequestSort(RequestSort(config, key), key).key == key
    ensures RequestSort(RequestSort(config, key), key).direction != RequestSort(config, key).direction
  {
  }

  /** From the initial newest-first order, the first click on either header
      sorts that column ascending. */
  lemma FirstClickSortsAscending(key: SortKey)
    ensures RequestSort(DefaultSort, key) == SortConfig(key, Asc)
  {
  }
}

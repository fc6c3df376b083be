/** The dashboard page: the loaded list (newest first), the grouped views
    by category or phase with their totals, and the delete flow
    (frontend/src/pages/Dashboard.jsx). */
module Dashboard {
  import opened Wrappers
  import opened Seqs
  import opened Records
  import opened StableSort
  import opened Aggregation
  import ExpenseTable

  datatype ViewMode = Timeline | ByCategory | ByPhase

  /** `fetchExpenses`: the response sorted by purchase date, newest first;
      records of the same day keep the server's order. */
  method LoadExpenses(response: seq<Expense>) returns (expenses: seq<Expense>)
    ensures multiset(expenses) == multiset(response)
    ensures forall i, j :: 0 <= i < j < |expenses| ==> expenses[i].purchaseDate >= expenses[j].purchaseDate
    ensures TiesInOrder(expenses, response, PurchaseDateOf())
  {
    expenses := Sort(response, PurchaseDateOf(), Desc);
    forall i, j | 0 <= i < j < |expenses| ensures expenses[i].purchaseDate >= expenses[j].purchaseDate {
      assert !Before(PurchaseDateOf()(expenses[j]), PurchaseDateOf()(expenses[i]), Desc);
    }
  }

  // ---------------------------------------------------------------------
  // Grouped views (`groupedExpenses`)

  /** The heading a record is filed under: its category title, or
      "Uncategorized", in the category view; its phase title, or
      "No Phase", in any other view. An empty title counts as missing. */
  function GroupLabel(e: Expense, mode: ViewMode): (r: string)
    ensures r != ""
    ensures mode == ByCategory ==>
      (r == "Uncategorized" || (e.category.Some? && r == e.category.value.title))
    ensures mode == ByCategory && e.category.Some? && e.category.value.title != "" ==> r == e.category.value.title
    ensures mode != ByCategory ==>
      (r == "No Phase" || (e.phase.Some? && r == e.phase.value.title))
    ensures mode != ByCategory && e.phase.Some? && e.phase.value.title != "" ==> r == e.phase.value.title
  {
    if mode == ByCategory then LabelOr(e, CategoryOf, "Uncategorized")
    else LabelOr(e, PhaseOf, "No Phase")
  }

  function GroupLabelOf(mode: ViewMode): Expense -> string {
    e => GroupLabel(e, mode)
  }

  /** The records of the groups, group after group. */
  function Flatten(groups: seq<(string, seq<Expense>)>): seq<Expense> {
    if groups == [] then [] else Flatten(groups[..|groups| - 1]) + groups[|groups| - 1].1
  }

  /** The sum of the group totals shown in the group headers. */
  function SumOfGroupTotals(groups: seq<(string, seq<Expense>)>): int {
    if groups == [] then 0 else SumOfGroupTotals(groups[..|groups| - 1]) + Total(groups[|groups| - 1].1)
  }

  /** Groups listing each key of `ks` with its members flatten to, and sum
      up as, the members key after key. */
  lemma {:induction false} GroupsMatchKeys(groups: seq<(string, seq<Expense>)>, ks: seq<string>,
                                           s: seq<Expense>, f: Expense -> string)
    requires |groups| == |ks|
    requires forall i :: 0 <= i < |groups| ==> groups[i] == (ks[i], Members(s, f, ks[i]))
    ensures Flatten(groups) == ConcatMembers(ks, s, f)
    ensures SumOfGroupTotals(groups) == SumOverKeys(ks, s, f)
  {
    if groups != [] {
      var n := |groups|;
      GroupsMatchKeys(groups[..n - 1], ks[..n - 1], s, f);
    }
  }

  /** What `GroupBy` returns for the labels of `mode`. */
  ghost predicate GroupedBy(groups: seq<(string, seq<Expense>)>, expenses: seq<Expense>, mode: ViewMode) {
    && |groups| == |FirstKeys(expenses, GroupLabelOf(mode))|
    && forall i :: 0 <= i < |groups| ==>
         groups[i] == (FirstKeys(expenses, GroupLabelOf(mode))[i],
                       Members(expenses, GroupLabelOf(mode), FirstKeys(expenses, GroupLabelOf(mode))[i]))
  }

  lemma GroupedLabels(groups: seq<(string, seq<Expense>)>, expenses: seq<Expense>, mode: ViewMode)
    requires GroupedBy(groups, expenses, mode)
    ensures forall i, j :: 0 <= i < j < |groups| ==> groups[i].0 != groups[j].0
    ensures forall p :: 0 <= p < |expenses| ==>
      exists i :: 0 <= i < |groups| && groups[i].0 == GroupLabel(expenses[p], mode)
    ensures InFirstEncounterOrder(seq(|groups|, i requires 0 <= i < |groups| => groups[i].0), expenses, GroupLabelOf(mode))
  {
    var f := GroupLabelOf(mode);
    var ks := FirstKeys(expenses, f);
    FirstKeysSpec(expenses, f);
    FirstKeysOrder(expenses, f);
    assert seq(|groups|, i requires 0 <= i < |groups| => groups[i].0) == ks;
    forall p | 0 <= p < |expenses| ensures exists i :: 0 <= i < |groups| && groups[i].0 == GroupLabel(expenses[p], mode) {
      var i :| 0 <= i < |ks| && ks[i] == f(expenses[p]);
      assert groups[i].0 == ks[i];
    }
  }

  lemma GroupedMembers(groups: seq<(string, seq<Expense>)>, expenses: seq<Expense>, mode: ViewMode, i: int)
    requires GroupedBy(groups, expenses, mode) && 0 <= i < |groups|
    ensures groups[i].1 != []
    ensures IsSelection(groups[i].1, expenses, KeptIndices(expenses, KeyIs(GroupLabelOf(mode), groups[i].0)))
    ensures forall p :: 0 <= p < |expenses| ==>
      (p in KeptIndices(expenses, KeyIs(GroupLabelOf(mode), groups[i].0)) <==> GroupLabel(expenses[p], mode) == groups[i].0)
  {
    var f := GroupLabelOf(mode);
    var k := groups[i].0;
    FirstKeysSpec(expenses, f);
    assert k in FirstKeys(expenses, f);
    var p :| 0 <= p < |expenses| && f(expenses[p]) == k;
    assert KeyIs(f, k)(expenses[p]);
    FilterSelects(expenses, KeyIs(f, k));
  }

  lemma GroupedSums(groups: seq<(string, seq<Expense>)>, expenses: seq<Expense>, mode: ViewMode)
    requires GroupedBy(groups, expenses, mode)
    ensures multiset(Flatten(groups)) == multiset(expenses)
    ensures SumOfGroupTotals(groups) == Total(expenses)
  {
    var f := GroupLabelOf(mode);
    GroupsMatchKeys(groups, FirstKeys(expenses, f), expenses, f);
    GroupsPartition(expenses, f);
    TotalsAddUp(expenses, f);
  }

  /** `Object.entries(groupedExpenses(mode))`: one group per distinct label,
      in order of first appearance, holding that label's records in list
      order; every record is in exactly one group, and the group totals add
      up to the total of the list. */
  method GroupedExpenses(expenses: seq<Expense>, mode: ViewMode) returns (groups: seq<(string, seq<Expense>)>)
    ensures forall i, j :: 0 <= i < j < |groups| ==> groups[i].0 != groups[j].0
    ensures forall i :: 0 <= i < |groups| ==>
      && groups[i].1 != []
      && IsSelection(groups[i].1, expenses, KeptIndices(expenses, KeyIs(GroupLabelOf(mode), groups[i].0)))
      && forall p :: 0 <= p < |expenses| ==>
           (p in KeptIndices(expenses, KeyIs(GroupLabelOf(mode), groups[i].0)) <==> GroupLabel(expenses[p], mode) == groups[i].0)
    ensures forall p :: 0 <= p < |expenses| ==>
      exists i :: 0 <= i < |groups| && groups[i].0 == GroupLabel(expenses[p], mode)
    ensures InFirstEncounterOrder(seq(|groups|, i requires 0 <= i < |groups| => groups[i].0), expenses, GroupLabelOf(mode))
    ensures multiset(Flatten(groups)) == multiset(expenses)
    ensures SumOfGroupTotals(groups) == Total(expenses)
  {
    groups := GroupBy(expenses, GroupLabelOf(mode));
    GroupedLabels(groups, expenses, mode);
    forall i | 0 <= i < |groups|
      ensures groups[i].1 != []
      ensures IsSelection(groups[i].1, expenses, KeptIndices(expenses, KeyIs(GroupLabelOf(mode), groups[i].0)))
      ensures forall p :: 0 <= p < |expenses| ==>
        (p in KeptIndices(expenses, KeyIs(GroupLabelOf(mode), groups[i].0)) <==> GroupLabel(expenses[p], mode) == groups[i].0)
    {
      GroupedMembers(groups, expenses, mode, i);
    }
    GroupedSums(groups, expenses, mode);
  }

  /** Each group is shown in its own expense table, whose filters then
      work inside the group: the table of group `heading` shows the records
      of the filtered list that carry that label, in list order. */
  lemma FilteringWithinGroup(expenses: seq<Expense>, mode: ViewMode, heading: string, filters: ExpenseTable.FilterState)
    ensures ExpenseTable.FilteredExpenses(Members(expenses, GroupLabelOf(mode), heading), filters)
         == Members(ExpenseTable.FilteredExpenses(expenses, filters), GroupLabelOf(mode), heading)
  {
    FilterCommutes(expenses, KeyIs(GroupLabelOf(mode), heading), ExpenseTable.PassesFn(filters));
  }

  // ---------------------------------------------------------------------
  // Deleting

  /** The confirmation dialog's state. */
  datatype DeleteConfig = DeleteConfig(isOpen: bool, id: Option<int>, title: string)

  function IdIs(id: int): Expense -> bool {
    (e: Expense) => e.id == id
  }

  /** `confirmDelete(id)`: opens the dialog for that id, titled with the
      first matching record's title (even an empty one), or "Expense" when
      no record has the id. */
  function ConfirmDelete(expenses: seq<Expense>, id: int): (r: DeleteConfig)
    ensures r.isOpen && r.id == Some(id)
    ensures (forall i :: 0 <= i < |expenses| ==> expenses[i].id != id) ==> r.title == "Expense"
    ensures forall i :: (0 <= i < |expenses| && expenses[i].id == id
                         && forall j :: 0 <= j < i ==> expenses[j].id != id) ==> r.title == expenses[i].title
  {
    var found := FindFirst(expenses, IdIs(id));
    DeleteConfig(true, Some(id), if found.Some? then found.value.title else "Expense")
  }

  function IdIsNot(id: int): Expense -> bool {
    (e: Expense) => e.id != id
  }


  /** `expenses.filter(e => e.id !== id)` after the server deleted `id`:
      every record with that id goes, every other one stays, in order. */
  function RemoveExpense(expenses: seq<Expense>, id: int): (r: seq<Expense>)
    ensures forall i :: 0 <= i < |r| ==> r[i].id != id && r[i] in expenses
    ensures forall e :: e in expenses && e.id != id ==> e in r
    ensures IsSelection(r, expenses, KeptIndices(expenses, IdIsNot(id)))
  {
    FilterSelects(expenses, IdIsNot(id));
    Filter(expenses, IdIsNot(id))
  }

  /** Deleting an id no record has changes nothing. */
  lemma RemoveAbsentIdKeepsList(expenses: seq<Expense>, id: int)
    requires forall e :: e in expenses ==> e.id != id
    ensures RemoveExpense(expenses, id) == expenses
  {
    FilterKeepsAll(expenses, IdIsNot(id));
  }

  /** The invested total drops by exactly the amounts of the removed records. */
  lemma {:induction false} RemoveExpenseTotal(expenses: seq<Expense>, id: int)
    ensures Total(RemoveExpense(expenses, id)) == Total(expenses) - Total(Filter(expenses, IdIs(id)))
  {
    if expenses != [] {
      var init := expenses[..|expenses| - 1];
      var e := expenses[|expenses| - 1];
      RemoveExpenseTotal(init, id);
      var kept := if IdIsNot(id)(e) then [e] else [];
      var gone := if IdIs(id)(e) then [e] else [];
      assert Filter(expenses, IdIsNot(id)) == Filter(init, IdIsNot(id)) + kept;
      assert Filter(expenses, IdIs(id)) == Filter(init, IdIs(id)) + gone;
      TotalAppend(Filter(init, IdIsNot(id)), kept);
      TotalAppend(Filter(init, IdIs(id)), gone);
      assert Total([e]) == e.amount by { assert [e][..0] == []; }
    }
  }
}

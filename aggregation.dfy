/** The accumulation pattern shared by the dashboards: a `forEach` loop that
    files each record under a key in a plain object, followed by
    `Object.entries`, which lists the keys in the order they were first
    added. `GroupBy` keeps the records of each key (`groups[key].push(e)`);
    `SumBy` keeps the sum of their amounts (`data[key] = (data[key] || 0) + e.amount`). */
module Aggregation {
  import opened Seqs
  import opened Records
  import opened StableSort

  /** The distinct keys of `s`, in order of first occurrence. */
  function FirstKeys<K(==)>(s: seq<Expense>, f: Expense -> K): seq<K> {
    if s == [] then []
    else
      var ks := FirstKeys(s[..|s| - 1], f);
      if f(s[|s| - 1]) in ks then ks else ks + [f(s[|s| - 1])]
  }

  function KeyIs<K(==)>(f: Expense -> K, k: K): Expense -> bool {
    e => f(e) == k
  }

  /** The records filed under `k`, in input order. */
  function Members<K(==)>(s: seq<Expense>, f: Expense -> K, k: K): seq<Expense> {
    Filter(s, KeyIs(f, k))
  }

  ghost predicate Distinct<K>(ks: seq<K>) {
    forall i, j :: 0 <= i < j < |ks| ==> ks[i] != ks[j]
  }

  /** Every occurrence of a later key is preceded by an occurrence of each earlier key. */
  ghost predicate InFirstEncounterOrder<K>(ks: seq<K>, s: seq<Expense>, f: Expense -> K) {
    forall i, j, p :: 0 <= i < j < |ks| && 0 <= p < |s| && f(s[p]) == ks[j] ==>
      exists q :: 0 <= q < p && f(s[q]) == ks[i]
  }

  /** The keys are distinct and are exactly the keys of the records. */
  lemma {:induction false} FirstKeysSpec<K>(s: seq<Expense>, f: Expense -> K)
    ensures Distinct(FirstKeys(s, f))
    ensures forall p :: 0 <= p < |s| ==> f(s[p]) in FirstKeys(s, f)
    ensures forall k :: k in FirstKeys(s, f) ==> exists p :: 0 <= p < |s| && f(s[p]) == k
  {
    if s != [] {
      var n := |s|;
      var init := s[..n - 1];
      FirstKeysSpec(init, f);
      var ks := FirstKeys(s, f);
      forall p | 0 <= p < n ensures f(s[p]) in ks {
        if p < n - 1 { assert s[p] == init[p]; }
      }
      forall k | k in ks ensures exists p :: 0 <= p < n && f(s[p]) == k {
        if k in FirstKeys(init, f) {
          var p :| 0 <= p < n - 1 && f(init[p]) == k;
          assert f(s[p]) == k;
        } else {
          assert f(s[n - 1]) == k;
        }
      }
    }
  }

  /** A position where a listed key occurs. */
  lemma KeyOccurrence<K>(s: seq<Expense>, f: Expense -> K, k: K) returns (p: int)
    requires k in FirstKeys(s, f)
    ensures 0 <= p < |s| && f(s[p]) == k
  {
    FirstKeysSpec(s, f);
    p :| 0 <= p < |s| && f(s[p]) == k;
  }

  /** The key of each record is listed. */
  lemma KeyListed<K>(s: seq<Expense>, f: Expense -> K, p: int)
    requires 0 <= p < |s|
    ensures f(s[p]) in FirstKeys(s, f)
  {
    FirstKeysSpec(s, f);
  }

  /** Before any record with the `j`-th key there is a record with the
      `i`-th key, for `i < j`. */
  lemma {:induction false} FirstKeysOrderAt<K>(s: seq<Expense>, f: Expense -> K, i: int, j: int, p: int) returns (q: int)
    requires 0 <= i < j < |FirstKeys(s, f)|
    requires 0 <= p < |s| && f(s[p]) == FirstKeys(s, f)[j]
    ensures 0 <= q < p && f(s[q]) == FirstKeys(s, f)[i]
  {
    var n := |s|;
    var init := s[..n - 1];
    var ks := FirstKeys(s, f);
    var ks0 := FirstKeys(init, f);
    assert i < |ks0| && ks[i] == ks0[i];
    if p < n - 1 {
      assert init[p] == s[p];
      KeyListed(init, f, p);
      assert j < |ks0| && ks[j] == ks0[j];
      q := FirstKeysOrderAt(init, f, i, j, p);
      assert init[q] == s[q];
    } else {
      q := KeyOccurrence(init, f, ks[i]);
      assert init[q] == s[q];
    }
  }

  /** The keys come in the order of their first occurrence. */
  lemma FirstKeysOrder<K>(s: seq<Expense>, f: Expense -> K)
    ensures InFirstEncounterOrder(FirstKeys(s, f), s, f)
  {
    var ks := FirstKeys(s, f);
    forall i, j, p | 0 <= i < j < |ks| && 0 <= p < |s| && f(s[p]) == ks[j]
      ensures exists q :: 0 <= q < p && f(s[q]) == ks[i]
    {
      var q := FirstKeysOrderAt(s, f, i, j, p);
    }
  }

  lemma {:induction false} MembersOfAbsentKey<K>(s: seq<Expense>, f: Expense -> K, k: K)
    requires forall p :: 0 <= p < |s| ==> f(s[p]) != k
    ensures Members(s, f, k) == []
  {
    if s != [] {
      MembersOfAbsentKey(s[..|s| - 1], f, k);
    }
  }

  /** Appending a record appends it to its own key's members only. */
  lemma MembersAppend<K>(s: seq<Expense>, e: Expense, f: Expense -> K, k: K)
    ensures Members(s + [e], f, k) == Members(s, f, k) + (if f(e) == k then [e] else [])
  {
    assert (s + [e])[..|s|] == s;
  }

  /** One step of a loop over `s`: the prefix grows by `s[i]`. */
  lemma MembersStep<K>(s: seq<Expense>, i: int, f: Expense -> K, k: K)
    requires 0 <= i < |s|
    ensures Members(s[..i + 1], f, k) == Members(s[..i], f, k) + (if f(s[i]) == k then [s[i]] else [])
    ensures Total(Members(s[..i + 1], f, k)) == Total(Members(s[..i], f, k)) + (if f(s[i]) == k then s[i].amount else 0)
  {
    assert s[..i + 1] == s[..i] + [s[i]];
    MembersAppend(s[..i], s[i], f, k);
    TotalAppend(Members(s[..i], f, k), if f(s[i]) == k then [s[i]] else []);
  }

  /** A key met for the first time at position `i` has no members before it. */
  lemma NewKeyStep<K>(s: seq<Expense>, i: int, f: Expense -> K)
    requires 0 <= i < |s| && f(s[i]) !in FirstKeys(s[..i], f)
    ensures Members(s[..i], f, f(s[i])) == []
    ensures FirstKeys(s[..i + 1], f) == FirstKeys(s[..i], f) + [f(s[i])]
  {
    FirstKeysSpec(s[..i], f);
    MembersOfAbsentKey(s[..i], f, f(s[i]));
    assert s[..i + 1][..i] == s[..i];
  }

  lemma OldKeyStep<K>(s: seq<Expense>, i: int, f: Expense -> K)
    requires 0 <= i < |s| && f(s[i]) in FirstKeys(s[..i], f)
    ensures FirstKeys(s[..i + 1], f) == FirstKeys(s[..i], f)
  {
    assert s[..i + 1][..i] == s[..i];
  }

  /** `Object.entries(groups)` after the grouping loop: each key with its records. */
  method GroupBy<K(==)>(s: seq<Expense>, f: Expense -> K) returns (entries: seq<(K, seq<Expense>)>)
    ensures |entries| == |FirstKeys(s, f)|
    ensures forall i :: 0 <= i < |entries| ==>
      entries[i] == (FirstKeys(s, f)[i], Members(s, f, FirstKeys(s, f)[i]))
  {
    var keys: seq<K> := [];
    var groups: map<K, seq<Expense>> := map[];
    for i := 0 to |s|
      invariant keys == FirstKeys(s[..i], f)
      invariant forall k :: k in groups <==> k in keys
      invariant forall k :: k in groups ==> groups[k] == Members(s[..i], f, k)
    {
      var e := s[i];
      var k := f(e);
      if k !in groups {
        NewKeyStep(s, i, f);
        keys := keys + [k];
        groups := groups[k := []];
      } else {
        OldKeyStep(s, i, f);
      }
      groups := groups[k := groups[k] + [e]];
      forall k' | k' in groups ensures groups[k'] == Members(s[..i + 1], f, k') {
        MembersStep(s, i, f, k');
      }
    }
    assert s[..|s|] == s;
    entries := seq(|keys|, j requires 0 <= j < |keys| => (keys[j], groups[keys[j]]));
  }

  /** `Object.entries(data)` after the summing loop: each key with the total
      amount of its records. */
  method SumBy<K(==)>(s: seq<Expense>, f: Expense -> K) returns (entries: seq<(K, int)>)
    ensures |entries| == |FirstKeys(s, f)|
    ensures forall i :: 0 <= i < |entries| ==>
      entries[i] == (FirstKeys(s, f)[i], Total(Members(s, f, FirstKeys(s, f)[i])))
    ensures entries == TotalsFor(FirstKeys(s, f), s, f)
  {
    var keys: seq<K> := [];
    var data: map<K, int> := map[];
    for i := 0 to |s|
      invariant keys == FirstKeys(s[..i], f)
      invariant forall k :: k in data <==> k in keys
      invariant forall k :: k in data ==> data[k] == Total(Members(s[..i], f, k))
    {
      var e := s[i];
      var k := f(e);
      if k !in data {
        NewKeyStep(s, i, f);
        keys := keys + [k];
      } else {
        OldKeyStep(s, i, f);
      }
      var before := if k in data then data[k] else 0;
      data := data[k := before + e.amount];
      forall k' | k' in data ensures data[k'] == Total(Members(s[..i + 1], f, k')) {
        MembersStep(s, i, f, k');
      }
    }
    assert s[..|s|] == s;
    entries := seq(|keys|, j requires 0 <= j < |keys| => (keys[j], data[keys[j]]));
  }

  /** The sum, over the keys `ks`, of each key's total. */
  function SumOverKeys<K(==)>(ks: seq<K>, s: seq<Expense>, f: Expense -> K): int {
    if ks == [] then 0
    else SumOverKeys(ks[..|ks| - 1], s, f) + Total(Members(s, f, ks[|ks| - 1]))
  }

  lemma {:induction false} SumOverKeysAppend<K>(ks: seq<K>, s: seq<Expense>, e: Expense, f: Expense -> K)
    requires Distinct(ks)
    ensures SumOverKeys(ks, s + [e], f) == SumOverKeys(ks, s, f) + (if f(e) in ks then e.amount else 0)
  {
    if ks != [] {
      var init := ks[..|ks| - 1];
      var k := ks[|ks| - 1];
      SumOverKeysAppend(init, s, e, f);
      MembersAppend(s, e, f, k);
      TotalAppend(Members(s, f, k), if f(e) == k then [e] else []);
      assert f(e) in ks <==> f(e) in init || f(e) == k;
    }
  }

  /** The members of a key no earlier record has are just the new record. */
  lemma MembersOfNewKey<K>(s: seq<Expense>, e: Expense, f: Expense -> K)
    requires f(e) !in FirstKeys(s, f)
    ensures Members(s + [e], f, f(e)) == [e]
  {
    forall p | 0 <= p < |s| ensures f(s[p]) != f(e) {
      KeyListed(s, f, p);
    }
    MembersOfAbsentKey(s, f, f(e));
    MembersAppend(s, e, f, f(e));
  }

  /** Group totals add up to the total of all records. */
  lemma {:induction false} TotalsAddUp<K>(s: seq<Expense>, f: Expense -> K)
    ensures SumOverKeys(FirstKeys(s, f), s, f) == Total(s)
  {
    if s != [] {
      var init := s[..|s| - 1];
      var e := s[|s| - 1];
      TotalsAddUp(init, f);
      var ks0 := FirstKeys(init, f);
      assert SumOverKeys(ks0, s, f) == SumOverKeys(ks0, init, f) + (if f(e) in ks0 then e.amount else 0) by {
        assert Distinct(ks0) by { FirstKeysSpec(init, f); }
        SumOverKeysAppend(ks0, init, e, f);
        assert init + [e] == s;
      }
      TotalStep(s);
      if f(e) !in ks0 {
        var ks := ks0 + [f(e)];
        assert FirstKeys(s, f) == ks;
        assert ks[..|ks| - 1] == ks0;
        assert Members(s, f, f(e)) == [e] by {
          MembersOfNewKey(init, e, f);
          assert init + [e] == s;
        }
        TotalOfOne(e);
      }
    }
  }

  /** The members of the keys `ks`, group after group. */
  function ConcatMembers<K(==)>(ks: seq<K>, s: seq<Expense>, f: Expense -> K): seq<Expense> {
    if ks == [] then []
    else ConcatMembers(ks[..|ks| - 1], s, f) + Members(s, f, ks[|ks| - 1])
  }

  lemma {:induction false} ConcatMembersAppend<K>(ks: seq<K>, s: seq<Expense>, e: Expense, f: Expense -> K)
    requires Distinct(ks)
    ensures multiset(ConcatMembers(ks, s + [e], f))
         == multiset(ConcatMembers(ks, s, f)) + (if f(e) in ks then multiset{e} else multiset{})
  {
    if ks != [] {
      var init := ks[..|ks| - 1];
      var k := ks[|ks| - 1];
      ConcatMembersAppend(init, s, e, f);
      MembersAppend(s, e, f, k);
      assert f(e) in ks <==> f(e) in init || f(e) == k;
    }
  }

  /** Every record lands in exactly one group: the groups, concatenated,
      are a permutation of the input. */
  lemma {:induction false} GroupsPartition<K>(s: seq<Expense>, f: Expense -> K)
    ensures multiset(ConcatMembers(FirstKeys(s, f), s, f)) == multiset(s)
  {
    if s != [] {
      var init := s[..|s| - 1];
      var e := s[|s| - 1];
      assert s == init + [e];
      GroupsPartition(init, f);
      var ks0 := FirstKeys(init, f);
      assert Distinct(ks0) by { FirstKeysSpec(init, f); }
      ConcatMembersAppend(ks0, init, e, f);
      if f(e) !in ks0 {
        var ks := ks0 + [f(e)];
        assert ks[..|ks| - 1] == ks0;
        MembersOfNewKey(init, e, f);
      }
    }
  }

  /** A `[key, amount]` entry's amount. */
  function EntryAmount<K>(): ((K, int)) -> int {
    (p: (K, int)) => p.1
  }

  /** A `[key, amount]` entry's key. */
  function EntryKey<K>(): ((K, int)) -> K {
    (p: (K, int)) => p.0
  }

  /** Each key of `ks` with the total amount of its records: what `SumBy`
      returns for the keys `FirstKeys(s, f)`. */
  function TotalsFor<K(==)>(ks: seq<K>, s: seq<Expense>, f: Expense -> K): (r: seq<(K, int)>)
    ensures |r| == |ks|
    ensures forall i :: 0 <= i < |r| ==> r[i] == (ks[i], Total(Members(s, f, ks[i])))
  {
    seq(|ks|, i requires 0 <= i < |ks| => (ks[i], Total(Members(s, f, ks[i]))))
  }

  lemma {:induction false} TotalsForSum<K>(ks: seq<K>, s: seq<Expense>, f: Expense -> K)
    ensures SumOf(TotalsFor(ks, s, f), EntryAmount()) == SumOverKeys(ks, s, f)
    decreases |ks|
  {
    if ks != [] {
      var n := |ks|;
      assert TotalsFor(ks, s, f)[..n - 1] == TotalsFor(ks[..n - 1], s, f);
      TotalsForSum(ks[..n - 1], s, f);
    }
  }

  ghost predicate KeysDistinct<K>(r: seq<(K, int)>) {
    forall i, j :: 0 <= i < j < |r| ==> r[i].0 != r[j].0
  }

  /** Each entry's key belongs to some record and its amount is the total
      of exactly the records with that key. */
  ghost predicate EachIsTotalOf<K>(r: seq<(K, int)>, s: seq<Expense>, f: Expense -> K) {
    forall i :: 0 <= i < |r| ==>
      r[i].1 == Total(Members(s, f, r[i].0)) && exists p :: 0 <= p < |s| && f(s[p]) == r[i].0
  }

  ghost predicate CoversKeys<K>(r: seq<(K, int)>, s: seq<Expense>, f: Expense -> K) {
    forall p :: 0 <= p < |s| ==> exists i :: 0 <= i < |r| && r[i].0 == f(s[p])
  }

  /** `r` lists each key of the records once with its total, and the
      amounts add up to the total of all records. */
  ghost predicate IsTotalsOf<K>(r: seq<(K, int)>, s: seq<Expense>, f: Expense -> K) {
    && KeysDistinct(r)
    && EachIsTotalOf(r, s, f)
    && CoversKeys(r, s, f)
    && SumOf(r, EntryAmount()) == Total(s)
  }

  lemma KeyTotalsCover<K>(s: seq<Expense>, f: Expense -> K)
    ensures KeysDistinct(TotalsFor(FirstKeys(s, f), s, f))
    ensures CoversKeys(TotalsFor(FirstKeys(s, f), s, f), s, f)
  {
    var ks := FirstKeys(s, f);
    var t := TotalsFor(ks, s, f);
    FirstKeysSpec(s, f);
    forall p | 0 <= p < |s| ensures exists i :: 0 <= i < |t| && t[i].0 == f(s[p]) {
      var i :| 0 <= i < |ks| && ks[i] == f(s[p]);
      assert t[i].0 == ks[i];
    }
  }

  lemma KeyTotalsEach<K>(s: seq<Expense>, f: Expense -> K)
    ensures EachIsTotalOf(TotalsFor(FirstKeys(s, f), s, f), s, f)
  {
    var ks := FirstKeys(s, f);
    var t := TotalsFor(ks, s, f);
    FirstKeysSpec(s, f);
    forall i | 0 <= i < |t| ensures exists p :: 0 <= p < |s| && f(s[p]) == t[i].0 {
      assert t[i].0 == ks[i] && ks[i] in ks;
    }
  }

  /** The per-key totals `SumBy` returns have all of the above. */
  lemma KeyTotalsFacts<K>(s: seq<Expense>, f: Expense -> K)
    ensures IsTotalsOf(TotalsFor(FirstKeys(s, f), s, f), s, f)
  {
    KeyTotalsCover(s, f);
    KeyTotalsEach(s, f);
    TotalsForSum(FirstKeys(s, f), s, f);
    TotalsAddUp(s, f);
  }

  lemma SortKeepsDistinctKeys<K>(r: seq<(K, int)>, key: ((K, int)) -> int, dir: Direction)
    requires KeysDistinct(r)
    ensures KeysDistinct(SortSpec(r, key, dir))
    ensures SumOf(SortSpec(r, key, dir), EntryAmount()) == SumOf(r, EntryAmount())
  {
    assert DistinctBy(r, EntryKey()) by {
      forall i, j | 0 <= i < j < |r| ensures EntryKey()(r[i]) != EntryKey()(r[j]) {
        assert r[i].0 != r[j].0;
      }
    }
    SortSpecKeeps(r, key, dir, EntryAmount(), EntryKey());
    var q := SortSpec(r, key, dir);
    forall i, j | 0 <= i < j < |q| ensures q[i].0 != q[j].0 {
      assert EntryKey()(q[i]) != EntryKey()(q[j]);
    }
  }

  lemma SortKeepsEach<K>(r: seq<(K, int)>, s: seq<Expense>, f: Expense -> K, key: ((K, int)) -> int, dir: Direction)
    requires EachIsTotalOf(r, s, f)
    ensures EachIsTotalOf(SortSpec(r, key, dir), s, f)
  {
    var q := SortSpec(r, key, dir);
    assert multiset(q) == multiset(r) by { SortSpecProperties(r, key, dir); }
    forall i | 0 <= i < |q|
      ensures q[i].1 == Total(Members(s, f, q[i].0)) && exists p :: 0 <= p < |s| && f(s[p]) == q[i].0
    {
      assert q[i] in multiset(r);
      var m :| 0 <= m < |r| && r[m] == q[i];
    }
  }

  lemma SortKeepsCover<K>(r: seq<(K, int)>, s: seq<Expense>, f: Expense -> K, key: ((K, int)) -> int, dir: Direction)
    requires CoversKeys(r, s, f)
    ensures CoversKeys(SortSpec(r, key, dir), s, f)
  {
    var q := SortSpec(r, key, dir);
    assert multiset(q) == multiset(r) by { SortSpecProperties(r, key, dir); }
    forall p | 0 <= p < |s| ensures exists i :: 0 <= i < |q| && q[i].0 == f(s[p]) {
      var m :| 0 <= m < |r| && r[m].0 == f(s[p]);
      assert r[m] in multiset(q);
      var i :| 0 <= i < |q| && q[i] == r[m];
    }
  }

  /** Sorting per-key totals, on any key of an entry, keeps them the totals. */
  lemma SortKeepsTotals<K>(r: seq<(K, int)>, s: seq<Expense>, f: Expense -> K, key: ((K, int)) -> int, dir: Direction)
    requires IsTotalsOf(r, s, f)
    ensures IsTotalsOf(SortSpec(r, key, dir), s, f)
  {
    SortKeepsDistinctKeys(r, key, dir);
    SortKeepsEach(r, s, f, key, dir);
    SortKeepsCover(r, s, f, key, dir);
  }

  /** Totals sorted by amount, largest first, have non-increasing amounts. */
  lemma DescendingAmounts<K>(r: seq<(K, int)>)
    requires Ordered(r, EntryAmount(), Desc)
    ensures forall i, j :: 0 <= i < j < |r| ==> r[i].1 >= r[j].1
  {
    forall i, j | 0 <= i < j < |r| ensures r[i].1 >= r[j].1 {
      assert !Before(EntryAmount()(r[j]), EntryAmount()(r[i]), Desc);
    }
  }

  /** Totals with distinct integer keys, sorted ascending on the key, have
      strictly ascending keys. */
  lemma AscendingDistinctKeys(r: seq<(int, int)>)
    requires Ordered(r, EntryKey(), Asc) && KeysDistinct(r)
    ensures forall i, j :: 0 <= i < j < |r| ==> r[i].0 < r[j].0
  {
    forall i, j | 0 <= i < j < |r| ensures r[i].0 < r[j].0 {
      assert !Before(EntryKey()(r[j]), EntryKey()(r[i]), Asc);
    }
  }
}

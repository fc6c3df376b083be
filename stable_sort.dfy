/** `Array.prototype.sort` with a comparator that returns -1, 1 or 0 by
    comparing one numeric key, as the components call it. JavaScript's sort
    has been stable since ES2019, so elements whose keys tie keep their
    input order. The specification is an insertion sort on sequences; the
    method sorts a copy in place, as `[...items].sort(cmp)` does. */
module StableSort {
  import opened Seqs

  datatype Direction = Asc | Desc

  /** The comparator returns a negative number: `x` goes strictly before `y`. */
  predicate Before(x: int, y: int, dir: Direction) {
    if dir == Asc then x < y else y < x
  }

  /** Inserts `x` after every element that it is not strictly before. */
  function Insert<T>(sorted: seq<T>, x: T, key: T -> int, dir: Direction): seq<T> {
    if sorted == [] then [x]
    else if Before(key(x), key(sorted[|sorted| - 1]), dir) then
      Insert(sorted[..|sorted| - 1], x, key, dir) + [sorted[|sorted| - 1]]
    else sorted + [x]
  }

  function SortSpec<T>(s: seq<T>, key: T -> int, dir: Direction): seq<T> {
    if s == [] then [] else Insert(SortSpec(s[..|s| - 1], key, dir), s[|s| - 1], key, dir)
  }

  /** No element is strictly before an element to its left. */
  ghost predicate Ordered<T>(r: seq<T>, key: T -> int, dir: Direction) {
    forall i, j :: 0 <= i < j < |r| ==> !Before(key(r[j]), key(r[i]), dir)
  }

  function HasKey<T>(key: T -> int, k: int): T -> bool {
    x => key(x) == k
  }

  /** The elements sharing key `k` appear in the same relative order in `r` as in `s`. */
  ghost predicate TiesInOrder<T>(r: seq<T>, s: seq<T>, key: T -> int) {
    forall k :: Filter(r, HasKey(key, k)) == Filter(s, HasKey(key, k))
  }

  lemma {:induction false} InsertMultiset<T>(sorted: seq<T>, x: T, key: T -> int, dir: Direction)
    ensures multiset(Insert(sorted, x, key, dir)) == multiset(sorted) + multiset{x}
  {
    if sorted != [] && Before(key(x), key(sorted[|sorted| - 1]), dir) {
      InsertMultiset(sorted[..|sorted| - 1], x, key, dir);
      assert sorted == sorted[..|sorted| - 1] + [sorted[|sorted| - 1]];
    }
  }

  /** When `x` moves left past the last element, that element stays after
      everything else. */
  lemma InsertOrderedShift<T>(sorted: seq<T>, x: T, key: T -> int, dir: Direction)
    requires sorted != [] && Before(key(x), key(sorted[|sorted| - 1]), dir)
    requires Ordered(sorted, key, dir)
    requires Ordered(Insert(sorted[..|sorted| - 1], x, key, dir), key, dir)
    ensures Ordered(Insert(sorted, x, key, dir), key, dir)
  {
    var n := |sorted|;
    var last := sorted[n - 1];
    var init := sorted[..n - 1];
    InsertMultiset(init, x, key, dir);
    var ins := Insert(init, x, key, dir);
    forall i | 0 <= i < |ins| ensures !Before(key(last), key(ins[i]), dir) {
      assert ins[i] in multiset(ins);
      if ins[i] != x {
        assert ins[i] in multiset(init);
        var m :| 0 <= m < |init| && init[m] == ins[i];
        assert sorted[m] == init[m];
      }
    }
  }

  /** When `x` is not before the last element, appending it keeps the order. */
  lemma InsertOrderedAppend<T>(sorted: seq<T>, x: T, key: T -> int, dir: Direction)
    requires sorted != [] && !Before(key(x), key(sorted[|sorted| - 1]), dir)
    requires Ordered(sorted, key, dir)
    ensures Ordered(sorted + [x], key, dir)
  {
    var n := |sorted|;
    var r := sorted + [x];
    forall i, j | 0 <= i < j < |r| ensures !Before(key(r[j]), key(r[i]), dir) {
      if j == n && i < n - 1 {
        assert !Before(key(sorted[n - 1]), key(sorted[i]), dir);
      }
    }
  }

  lemma {:induction false} InsertOrdered<T>(sorted: seq<T>, x: T, key: T -> int, dir: Direction)
    requires Ordered(sorted, key, dir)
    ensures Ordered(Insert(sorted, x, key, dir), key, dir)
  {
    if sorted != [] {
      var n := |sorted|;
      if Before(key(x), key(sorted[n - 1]), dir) {
        InsertOrdered(sorted[..n - 1], x, key, dir);
        InsertOrderedShift(sorted, x, key, dir);
      } else {
        InsertOrderedAppend(sorted, x, key, dir);
      }
    }
  }

  lemma FilterSingle<T>(x: T, p: T -> bool)
    ensures Filter([x], p) == if p(x) then [x] else []
  {
    assert [x][..0] == [];
  }

  /** Inserting `x` adds it behind every element with the same key. */
  lemma {:induction false} InsertTiesInOrder<T>(sorted: seq<T>, x: T, key: T -> int, dir: Direction, k: int)
    ensures Filter(Insert(sorted, x, key, dir), HasKey(key, k))
         == Filter(sorted, HasKey(key, k)) + Filter([x], HasKey(key, k))
  {
    var p := HasKey(key, k);
    if sorted == [] {
      assert [] + [x] == [x];
    } else {
      var n := |sorted|;
      var init := sorted[..n - 1];
      var last := sorted[n - 1];
      assert sorted == init + [last];
      if Before(key(x), key(last), dir) {
        calc {
          Filter(Insert(sorted, x, key, dir), p);
          Filter(Insert(init, x, key, dir) + [last], p);
          { FilterAppend(Insert(init, x, key, dir), [last], p); }
          Filter(Insert(init, x, key, dir), p) + Filter([last], p);
          { InsertTiesInOrder(init, x, key, dir, k); }
          Filter(init, p) + Filter([x], p) + Filter([last], p);
          { FilterSingle(x, p); FilterSingle(last, p); }
          Filter(init, p) + Filter([last], p) + Filter([x], p);
          { FilterAppend(init, [last], p); }
          Filter(sorted, p) + Filter([x], p);
        }
      } else {
        FilterAppend(sorted, [x], p);
      }
    }
  }

  lemma {:induction false} SortSpecProperties<T>(s: seq<T>, key: T -> int, dir: Direction)
    ensures multiset(SortSpec(s, key, dir)) == multiset(s)
    ensures Ordered(SortSpec(s, key, dir), key, dir)
    ensures TiesInOrder(SortSpec(s, key, dir), s, key)
  {
    if s != [] {
      var init := s[..|s| - 1];
      var x := s[|s| - 1];
      assert s == init + [x];
      SortSpecProperties(init, key, dir);
      InsertMultiset(SortSpec(init, key, dir), x, key, dir);
      InsertOrdered(SortSpec(init, key, dir), x, key, dir);
      forall k ensures Filter(SortSpec(s, key, dir), HasKey(key, k)) == Filter(s, HasKey(key, k)) {
        InsertTiesInOrder(SortSpec(init, key, dir), x, key, dir, k);
        FilterAppend(init, [x], HasKey(key, k));
      }
    }
  }

  lemma {:induction false} InsertKeepsSum<T>(sorted: seq<T>, x: T, key: T -> int, dir: Direction, w: T -> int)
    ensures SumOf(Insert(sorted, x, key, dir), w) == SumOf(sorted, w) + w(x)
  {
    if sorted == [] {
      assert [] + [x] == [x];
      SumOfAppend([], x, w);
    } else {
      var init := sorted[..|sorted| - 1];
      var last := sorted[|sorted| - 1];
      assert sorted == init + [last];
      if Before(key(x), key(last), dir) {
        InsertKeepsSum(init, x, key, dir, w);
        SumOfAppend(Insert(init, x, key, dir), last, w);
        SumOfAppend(init, last, w);
      } else {
        SumOfAppend(sorted, x, w);
      }
    }
  }

  lemma {:induction false} InsertKeepsDistinct<T, K>(sorted: seq<T>, x: T, key: T -> int, dir: Direction, g: T -> K)
    requires DistinctBy(sorted, g)
    requires forall i :: 0 <= i < |sorted| ==> g(sorted[i]) != g(x)
    ensures DistinctBy(Insert(sorted, x, key, dir), g)
  {
    if sorted != [] && Before(key(x), key(sorted[|sorted| - 1]), dir) {
      var n := |sorted|;
      var init := sorted[..n - 1];
      var last := sorted[n - 1];
      InsertKeepsDistinct(init, x, key, dir, g);
      InsertMultiset(init, x, key, dir);
      var ins := Insert(init, x, key, dir);
      forall i | 0 <= i < |ins| ensures g(ins[i]) != g(last) {
        assert ins[i] in multiset(ins);
        if ins[i] != x {
          assert ins[i] in multiset(init);
          var m :| 0 <= m < |init| && init[m] == ins[i];
          assert sorted[m] == init[m];
        }
      }
      var r := ins + [last];
      forall i, j | 0 <= i < j < |r| ensures g(r[i]) != g(r[j]) {
        if j < |ins| {
          assert r[i] == ins[i] && r[j] == ins[j];
        }
      }
    }
  }

  /** Sorting neither changes the sum of a weight over the elements nor
      makes two elements share a value that no two shared before. */
  lemma {:induction false} SortSpecKeeps<T, K>(s: seq<T>, key: T -> int, dir: Direction, w: T -> int, g: T -> K)
    ensures SumOf(SortSpec(s, key, dir), w) == SumOf(s, w)
    ensures DistinctBy(s, g) ==> DistinctBy(SortSpec(s, key, dir), g)
  {
    if s != [] {
      var init := s[..|s| - 1];
      var x := s[|s| - 1];
      SortSpecKeeps(init, key, dir, w, g);
      InsertKeepsSum(SortSpec(init, key, dir), x, key, dir, w);
      if DistinctBy(s, g) {
        assert DistinctBy(init, g);
        SortSpecProperties(init, key, dir);
        var sorted := SortSpec(init, key, dir);
        forall i | 0 <= i < |sorted| ensures g(sorted[i]) != g(x) {
          assert sorted[i] in multiset(init);
          var m :| 0 <= m < |init| && init[m] == sorted[i];
          assert s[m] == init[m];
        }
        InsertKeepsDistinct(sorted, x, key, dir, g);
      }
    }
  }

  /** Every element is strictly before each element to its right. */
  ghost predicate StrictlyOrdered<T>(r: seq<T>, key: T -> int, dir: Direction) {
    forall i, j :: 0 <= i < j < |r| ==> Before(key(r[i]), key(r[j]), dir)
  }

  /** At most one arrangement of a multiset is strictly ordered. */
  lemma {:induction false} StrictlyOrderedUnique<T>(a: seq<T>, b: seq<T>, key: T -> int, dir: Direction)
    requires multiset(a) == multiset(b)
    requires StrictlyOrdered(a, key, dir) && StrictlyOrdered(b, key, dir)
    ensures a == b
  {
    if a == [] {
      assert |b| == |multiset(b)| == 0;
    } else {
      assert |b| == |multiset(a)| == |a|;
      StrictlyOrderedSameHead(a, b, key, dir);
      StrictlyOrderedTail(a, key, dir);
      StrictlyOrderedTail(b, key, dir);
      StrictlyOrderedUnique(a[1..], b[1..], key, dir);
      assert a == [a[0]] + a[1..] && b == [b[0]] + b[1..];
    }
  }

  lemma StrictlyOrderedTail<T>(a: seq<T>, key: T -> int, dir: Direction)
    requires a != [] && StrictlyOrdered(a, key, dir)
    ensures StrictlyOrdered(a[1..], key, dir)
    ensures multiset(a[1..]) == multiset(a) - multiset{a[0]}
  {
    assert a == [a[0]] + a[1..];
  }

  /** Two strictly ordered arrangements of one multiset start alike. */
  lemma StrictlyOrderedSameHead<T>(a: seq<T>, b: seq<T>, key: T -> int, dir: Direction)
    requires a != [] && b != [] && multiset(a) == multiset(b)
    requires StrictlyOrdered(a, key, dir) && StrictlyOrdered(b, key, dir)
    ensures a[0] == b[0]
  {
    assert a[0] in multiset(b) && b[0] in multiset(a);
    var m :| 0 <= m < |a| && a[m] == b[0];
    assert m > 0 ==> Before(key(a[0]), key(a[m]), dir);
    assert !Before(key(b[0]), key(a[0]), dir);
    var k :| 0 <= k < |b| && b[k] == a[0];
    assert k == 0;
  }

  /** A sort on a key no two elements share is strictly ordered. */
  lemma DistinctKeysSortStrictly<T>(s: seq<T>, key: T -> int, dir: Direction)
    requires DistinctBy(s, key)
    ensures StrictlyOrdered(SortSpec(s, key, dir), key, dir)
  {
    SortSpecProperties(s, key, dir);
    SortSpecKeeps(s, key, dir, key, key);
  }

  /** When no two keys tie, the descending sort lists the ascending sort
      backwards: clicking a column header again reverses the rows. */
  lemma DescendingReversesAscending<T>(s: seq<T>, key: T -> int)
    requires DistinctBy(s, key)
    ensures SortSpec(s, key, Desc) == Reversed(SortSpec(s, key, Asc))
  {
    var up := SortSpec(s, key, Asc);
    var down := SortSpec(s, key, Desc);
    DistinctKeysSortStrictly(s, key, Asc);
    DistinctKeysSortStrictly(s, key, Desc);
    SortSpecProperties(s, key, Asc);
    SortSpecProperties(s, key, Desc);
    ReversedFacts(up);
    var back := Reversed(up);
    forall i, j | 0 <= i < j < |back| ensures Before(key(back[i]), key(back[j]), Desc) {
      assert Before(key(up[|up| - 1 - j]), key(up[|up| - 1 - i]), Asc);
    }
    StrictlyOrderedUnique(down, back, key, Desc);
  }

  /** One pass of the insertion: `x` passes an element strictly after it. */
  lemma InsertShiftStep<T>(sorted: seq<T>, j: int, x: T, key: T -> int, dir: Direction)
    requires 0 < j <= |sorted| && Before(key(x), key(sorted[j - 1]), dir)
    requires Insert(sorted, x, key, dir) == Insert(sorted[..j], x, key, dir) + sorted[j..]
    ensures Insert(sorted, x, key, dir) == Insert(sorted[..j - 1], x, key, dir) + sorted[j - 1..]
  {
    assert sorted[..j][..j - 1] == sorted[..j - 1];
    assert sorted[j - 1..] == [sorted[j - 1]] + sorted[j..];
  }

  /** The insertion stops in front of the first element `x` is not before. */
  lemma InsertStopStep<T>(sorted: seq<T>, j: int, x: T, key: T -> int, dir: Direction)
    requires 0 <= j <= |sorted| && (j == 0 || !Before(key(x), key(sorted[j - 1]), dir))
    ensures Insert(sorted[..j], x, key, dir) == sorted[..j] + [x]
  {
  }

  /** A sequence that agrees with `sorted` before `j`, holds `x` at `j`
      and the rest of `sorted` after it is that splice. */
  lemma SplicedAt<T>(b: seq<T>, sorted: seq<T>, j: int, x: T)
    requires 0 <= j <= |sorted| && |b| == |sorted| + 1
    requires forall k :: 0 <= k < j ==> b[k] == sorted[k]
    requires b[j] == x
    requires forall k :: j < k < |b| ==> b[k] == sorted[k - 1]
    ensures b == sorted[..j] + [x] + sorted[j..]
  {
  }

  /** Moves `a[i]` left into the sorted prefix `a[..i]`. */
  method InsertInPlace<T>(a: array<T>, i: int, key: T -> int, dir: Direction)
    requires 0 <= i < a.Length
    modifies a
    ensures a[..i + 1] == Insert(old(a[..i]), old(a[i]), key, dir)
    ensures forall k :: i < k < a.Length ==> a[k] == old(a[k])
  {
    ghost var sorted := a[..i];
    var x := a[i];
    var j := i;
    assert sorted[..j] == sorted && sorted[j..] == [];
    while j > 0 && Before(key(x), key(a[j - 1]), dir)
      invariant 0 <= j <= i
      invariant forall k :: 0 <= k < j ==> a[k] == sorted[k]
      invariant forall k :: j < k <= i ==> a[k] == sorted[k - 1]
      invariant forall k :: i < k < a.Length ==> a[k] == old(a[k])
      invariant Insert(sorted, x, key, dir) == Insert(sorted[..j], x, key, dir) + sorted[j..]
    {
      InsertShiftStep(sorted, j, x, key, dir);
      a[j] := a[j - 1];
      j := j - 1;
    }
    InsertStopStep(sorted, j, x, key, dir);
    a[j] := x;
    SplicedAt(a[..i + 1], sorted, j, x);
  }

  /** Sorts the array in place; the result is the specification's. */
  method SortInPlace<T>(a: array<T>, key: T -> int, dir: Direction)
    modifies a
    ensures a[..] == SortSpec(old(a[..]), key, dir)
  {
    ghost var input := a[..];
    var i := 0;
    while i < a.Length
      invariant 0 <= i <= a.Length
      invariant a[..i] == SortSpec(input[..i], key, dir)
      invariant forall k :: i <= k < a.Length ==> a[k] == input[k]
    {
      assert input[..i + 1] == input[..i] + [input[i]];
      InsertInPlace(a, i, key, dir);
      i := i + 1;
    }
    assert a[..] == a[..a.Length] && input[..a.Length] == input;
  }

  /** `[...s].sort(cmp)`: a copy of `s`, stably sorted on `key`. */
  method Sort<T>(s: seq<T>, key: T -> int, dir: Direction) returns (r: seq<T>)
    ensures r == SortSpec(s, key, dir)
    ensures multiset(r) == multiset(s)
    ensures Ordered(r, key, dir)
    ensures TiesInOrder(r, s, key)
  {
    var a := new T[|s|](i requires 0 <= i < |s| => s[i]);
    assert a[..] == s;
    SortInPlace(a, key, dir);
    r := a[..];
    SortSpecProperties(s, key, dir);
  }
}

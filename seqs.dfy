/** Sequence operations shared by the components: `Array.prototype.filter`
    (which keeps order), and the add-or-remove toggle of a selection list. */
module Seqs {
  import opened Wrappers

  /** `s.filter(p)`, written as the left-to-right loop JavaScript runs. */
  function Filter<T>(s: seq<T>, p: T -> bool): (r: seq<T>)
    ensures |r| <= |s|
    ensures forall i :: 0 <= i < |r| ==> p(r[i])
  {
    if s == [] then []
    else Filter(s[..|s| - 1], p) + (if p(s[|s| - 1]) then [s[|s| - 1]] else [])
  }

  /** A filter keeps only elements of the input, and every element that passes. */
  lemma {:induction false} FilterMembers<T>(s: seq<T>, p: T -> bool)
    ensures forall x :: x in Filter(s, p) <==> x in s && p(x)
    ensures forall i :: 0 <= i < |Filter(s, p)| ==> Filter(s, p)[i] in s
  {
    if s != [] {
      FilterMembers(s[..|s| - 1], p);
      assert s == s[..|s| - 1] + [s[|s| - 1]];
    }
  }

  /** The positions of `s` whose element satisfies `p`, ascending. */
  function KeptIndices<T>(s: seq<T>, p: T -> bool): seq<int> {
    if s == [] then []
    else KeptIndices(s[..|s| - 1], p) + (if p(s[|s| - 1]) then [|s| - 1] else [])
  }

  /** `r` lists the elements of `s` at the strictly increasing positions `idx`. */
  ghost predicate IsSelection<T>(r: seq<T>, s: seq<T>, idx: seq<int>) {
    && |idx| == |r|
    && (forall i :: 0 <= i < |idx| ==> 0 <= idx[i] < |s| && r[i] == s[idx[i]])
    && (forall i, j :: 0 <= i < j < |idx| ==> idx[i] < idx[j])
  }

  /** A filter is an order-preserving selection of exactly the positions
      whose element passes the predicate. */
  lemma {:induction false} FilterSelects<T>(s: seq<T>, p: T -> bool)
    ensures IsSelection(Filter(s, p), s, KeptIndices(s, p))
    ensures forall j :: 0 <= j < |s| ==> (j in KeptIndices(s, p) <==> p(s[j]))
  {
    if s != [] {
      var init := s[..|s| - 1];
      FilterSelects(init, p);
      forall j | 0 <= j < |init| ensures init[j] == s[j] { }
    }
  }

  /** A predicate that every element passes keeps the whole sequence. */
  lemma {:induction false} FilterKeepsAll<T>(s: seq<T>, p: T -> bool)
    requires forall x :: x in s ==> p(x)
    ensures Filter(s, p) == s
  {
    if s != [] {
      FilterKeepsAll(s[..|s| - 1], p);
      assert s[..|s| - 1] + [s[|s| - 1]] == s;
    }
  }

  lemma {:induction false} FilterAppend<T>(a: seq<T>, b: seq<T>, p: T -> bool)
    ensures Filter(a + b, p) == Filter(a, p) + Filter(b, p)
    decreases |b|
  {
    if b != [] {
      assert (a + b)[..|a + b| - 1] == a + b[..|b| - 1];
      FilterAppend(a, b[..|b| - 1], p);
    } else {
      assert a + b == a;
    }
  }

  /** Two filters give the same result in either order. */
  lemma {:induction false} FilterCommutes<T>(s: seq<T>, p: T -> bool, q: T -> bool)
    ensures Filter(Filter(s, p), q) == Filter(Filter(s, q), p)
  {
    if s != [] {
      var init := s[..|s| - 1];
      var x := s[|s| - 1];
      FilterCommutes(init, p, q);
      FilterAppend(Filter(init, p), if p(x) then [x] else [], q);
      FilterAppend(Filter(init, q), if q(x) then [x] else [], p);
    }
  }

  /** The sum of `w` over `s`, added left to right. */
  function SumOf<T>(s: seq<T>, w: T -> int): int {
    if s == [] then 0 else SumOf(s[..|s| - 1], w) + w(s[|s| - 1])
  }

  lemma SumOfAppend<T>(s: seq<T>, x: T, w: T -> int)
    ensures SumOf(s + [x], w) == SumOf(s, w) + w(x)
  {
    assert (s + [x])[..|s|] == s;
  }

  /** The elements of `s` from last to first. */
  function Reversed<T>(s: seq<T>): seq<T> {
    if s == [] then [] else [s[|s| - 1]] + Reversed(s[..|s| - 1])
  }

  lemma {:induction false} ReversedFacts<T>(s: seq<T>)
    ensures |Reversed(s)| == |s|
    ensures forall i :: 0 <= i < |s| ==> Reversed(s)[i] == s[|s| - 1 - i]
    ensures multiset(Reversed(s)) == multiset(s)
  {
    if s != [] {
      var init := s[..|s| - 1];
      ReversedFacts(init);
      assert s == init + [s[|s| - 1]];
      forall i | 1 <= i < |s| ensures Reversed(s)[i] == s[|s| - 1 - i] {
        assert Reversed(s)[i] == Reversed(init)[i - 1];
      }
    }
  }

  /** No two elements of `s` share a `g` value. */
  ghost predicate DistinctBy<T, K>(s: seq<T>, g: T -> K) {
    forall i, j :: 0 <= i < j < |s| ==> g(s[i]) != g(s[j])
  }

  function Differs<T(==)>(x: T): T -> bool {
    y => y != x
  }

  /** Clicking an option of a multi-select list: a selected option is
      removed (every copy of it), an unselected one appended at the end. */
  function Toggle<T(==)>(selected: seq<T>, x: T): (r: seq<T>)
    ensures x in selected ==> x !in r && r == Filter(selected, Differs(x))
    ensures x !in selected ==> r == selected + [x]
    ensures forall i :: 0 <= i < |r| ==> r[i] in selected || r[i] == x
    ensures forall i :: 0 <= i < |selected| && selected[i] != x ==> selected[i] in r
  {
    if x in selected then
      var r := Filter(selected, Differs(x));
      FilterMembers(selected, Differs(x));
      r
    else selected + [x]
  }

  /** Selecting an option and then unselecting it restores the list exactly. */
  lemma ToggleTwiceRestores<T>(selected: seq<T>, x: T)
    requires x !in selected
    ensures Toggle(Toggle(selected, x), x) == selected
  {
    FilterAppend(selected, [x], Differs(x));
    FilterKeepsAll(selected, Differs(x));
  }

  /** Unselecting and reselecting a selected option moves it to the end. */
  lemma ToggleTwiceMovesToEnd<T>(selected: seq<T>, x: T)
    requires x in selected
    ensures Toggle(Toggle(selected, x), x) == Filter(selected, Differs(x)) + [x]
  {
  }

  /** `s.find(p)`: the first element that satisfies `p`, if any. */
  function FindFirst<T(==)>(s: seq<T>, p: T -> bool): (r: Option<T>)
    ensures r.None? <==> forall i :: 0 <= i < |s| ==> !p(s[i])
    ensures r.Some? ==> exists i :: (0 <= i < |s| && s[i] == r.value && p(r.value)
                                     && forall j :: 0 <= j < i ==> !p(s[j]))
  {
    if s == [] then None
    else if p(s[0]) then Some(s[0])
    else
      var r := FindFirst(s[1..], p);
      assert forall i :: 1 <= i < |s| ==> s[i] == s[1..][i - 1];
      if r.Some? then
        var k :| 0 <= k < |s[1..]| && s[1..][k] == r.value && p(r.value)
          && forall j :: 0 <= j < k ==> !p(s[1..][j]);
        assert s[k + 1] == r.value;
        r
      else r
  }
}

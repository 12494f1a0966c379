/** Sequence helpers shared by the list views and reducers: `Array.prototype.filter`,
    the subsequence relation it produces, and counting. */
module Seqs {
  import opened Wrappers

  /** `a` can be obtained from `b` by deleting elements, keeping the order. */
  ghost predicate IsSubsequence<T>(a: seq<T>, b: seq<T>)
    decreases |b|
  {
    |a| == 0 ||
    (|b| > 0 && ((a[0] == b[0] && IsSubsequence(a[1..], b[1..])) || IsSubsequence(a, b[1..])))
  }

  /** `s.filter(p)`: the elements satisfying `p`, in their original order. */
  function Filter<T>(p: T -> bool, s: seq<T>): (r: seq<T>)
    ensures |r| <= |s|
    ensures forall i :: 0 <= i < |r| ==> r[i] in s && p(r[i])
    ensures forall i :: 0 <= i < |s| && p(s[i]) ==> s[i] in r
    ensures IsSubsequence(r, s)
    ensures (exists i :: 0 <= i < |s| && !p(s[i])) ==> |r| < |s|
  {
    if |s| == 0 then []
    else if p(s[0]) then [s[0]] + Filter(p, s[1..])
    else Filter(p, s[1..])
  }

  /** Number of elements satisfying `p` (`s.filter(p).length`). */
  function Count<T>(p: T -> bool, s: seq<T>): nat
  {
    |Filter(p, s)|
  }

  /** The positions of `s` whose element satisfies `p`. */
  function IndicesWhere<T>(p: T -> bool, s: seq<T>): set<int> {
    set i | 0 <= i < |s| && p(s[i])
  }

  /** The positions of a non-empty sequence are those of its front, plus the
      last position when the last element qualifies. */
  lemma IndicesWhereSnoc<T>(p: T -> bool, s: seq<T>)
    requires |s| > 0
    ensures IndicesWhere(p, s) == IndicesWhere(p, s[..|s| - 1]) + (if p(s[|s| - 1]) then {|s| - 1} else {})
  {
    var init := s[..|s| - 1];
    var added: set<int> := if p(s[|s| - 1]) then {|s| - 1} else {};
    forall i | i in IndicesWhere(p, s)
      ensures i in IndicesWhere(p, init) + added
    {
      if i < |init| {
        assert s[i] == init[i];
      }
    }
    forall i | i in IndicesWhere(p, init) + added
      ensures i in IndicesWhere(p, s)
    {
      if i < |init| {
        assert s[i] == init[i];
      }
    }
  }

  /** Every such position lies within the sequence. */
  lemma IndicesWhereBound<T>(p: T -> bool, s: seq<T>)
    ensures forall i :: i in IndicesWhere(p, s) ==> 0 <= i < |s|
  {
  }

  /** The count is the number of positions whose element satisfies `p`. */
  lemma {:induction false} CountIsIndexSetSize<T>(p: T -> bool, s: seq<T>)
    ensures Count(p, s) == |IndicesWhere(p, s)|
    decreases |s|
  {
    if |s| > 0 {
      var init, x := s[..|s| - 1], s[|s| - 1];
      CountIsIndexSetSize(p, init);
      assert s == init + [x];
      FilterAppend(p, init, x);
      IndicesWhereSnoc(p, s);
      IndicesWhereBound(p, init);
      var added: set<int> := if p(x) then {|s| - 1} else {};
      assert IndicesWhere(p, init) !! added;
    }
  }

  lemma {:induction false} FilterKeepsAll<T>(p: T -> bool, s: seq<T>)
    requires forall i :: 0 <= i < |s| ==> p(s[i])
    ensures Filter(p, s) == s
  {
    if |s| > 0 {
      FilterKeepsAll(p, s[1..]);
    }
  }

  lemma {:induction false} FilterDropsAll<T>(p: T -> bool, s: seq<T>)
    requires forall i :: 0 <= i < |s| ==> !p(s[i])
    ensures Filter(p, s) == []
  {
    if |s| > 0 {
      FilterDropsAll(p, s[1..]);
    }
  }

  /** Two predicates that never hold together select at most `|s|` elements in
      total, and exactly `|s|` when every element satisfies one of them. */
  lemma {:induction false} FilterDisjointCounts<T>(p: T -> bool, q: T -> bool, s: seq<T>)
    requires forall i :: 0 <= i < |s| ==> !(p(s[i]) && q(s[i]))
    ensures |Filter(p, s)| + |Filter(q, s)| <= |s|
    ensures (forall i :: 0 <= i < |s| ==> p(s[i]) || q(s[i])) ==>
              |Filter(p, s)| + |Filter(q, s)| == |s|
  {
    if |s| > 0 {
      FilterDisjointCounts(p, q, s[1..]);
    }
  }

  /** Filtering by a predicate and by its negation splits the sequence. */
  lemma FilterComplement<T>(p: T -> bool, s: seq<T>)
    ensures |Filter(p, s)| + |Filter(x => !p(x), s)| == |s|
  {
    FilterDisjointCounts(p, x => !p(x), s);
  }

  /** Filtering twice with the same predicate changes nothing the second time. */
  lemma FilterIdempotent<T>(p: T -> bool, s: seq<T>)
    ensures Filter(p, Filter(p, s)) == Filter(p, s)
  {
    var r := Filter(p, s);
    assert forall i :: 0 <= i < |r| ==> r[i] in r;
    FilterKeepsAll(p, r);
  }

  /** Two predicates that agree on every element select the same elements. */
  lemma {:induction false} FilterCongruent<T>(p: T -> bool, q: T -> bool, s: seq<T>)
    requires forall i :: 0 <= i < |s| ==> p(s[i]) == q(s[i])
    ensures Filter(p, s) == Filter(q, s)
    decreases |s|
  {
    if |s| > 0 {
      assert p(s[0]) == q(s[0]);
      FilterCongruent(p, q, s[1..]);
    }
  }

  /** Filtering a sequence with one element appended. */
  lemma {:induction false} FilterAppend<T>(p: T -> bool, s: seq<T>, x: T)
    ensures Filter(p, s + [x]) == Filter(p, s) + (if p(x) then [x] else [])
    decreases |s|
  {
    if |s| > 0 {
      assert (s + [x])[1..] == s[1..] + [x];
      FilterAppend(p, s[1..], x);
    } else {
      assert s + [x] == [x];
    }
  }

  /** Exactly one element satisfying `p` gives a count of one. */
  lemma {:induction false} CountExactlyOne<T>(p: T -> bool, s: seq<T>, k: nat)
    requires k < |s| && p(s[k])
    requires forall i :: 0 <= i < |s| && i != k ==> !p(s[i])
    ensures Count(p, s) == 1
    decreases |s|
  {
    if k == 0 {
      FilterDropsAll(p, s[1..]);
    } else {
      assert !p(s[0]);
      CountExactlyOne(p, s[1..], k - 1);
    }
  }

  /** `s.findIndex(p)`, with `None` for `-1`: the position of the first element
      satisfying `p`. */
  function FindFirst<T>(p: T -> bool, s: seq<T>): (r: Option<nat>)
    ensures r.Some? ==> r.value < |s| && p(s[r.value])
    ensures r.Some? ==> forall j :: 0 <= j < r.value ==> !p(s[j])
    ensures r.None? ==> forall j :: 0 <= j < |s| ==> !p(s[j])
  {
    if |s| == 0 then None
    else if p(s[0]) then Some(0)
    else match FindFirst(p, s[1..])
      case None => None
      case Some(k) => Some(k + 1)
  }

  /** `a` is a prefix of `b`. */
  predicate IsPrefix<T(==)>(a: seq<T>, b: seq<T>) {
    |a| <= |b| && b[..|a|] == a
  }
}

/** The three array primitives the handlers are built from: `findIndex`,
    `filter` and `splice(i, 1)`, on immutable sequences. */
module Seqs {
  import opened Types

  /** Position of the first element satisfying `P` (JavaScript's `findIndex`,
      with `None` in place of -1). */
  function FirstIndex<T>(s: seq<T>, P: T -> bool): (r: Option<nat>)
    ensures r.Some? ==> r.value < |s| && P(s[r.value])
    ensures r.Some? ==> forall j :: 0 <= j < r.value ==> !P(s[j])
    ensures r.None? <==> forall j :: 0 <= j < |s| ==> !P(s[j])
  {
    if |s| == 0 then None
    else if P(s[0]) then Some(0)
    else
      match FirstIndex(s[1..], P)
      case None => None
      case Some(i) => Some(i + 1)
  }

  /** The first index is the one position that satisfies `P` with nothing
      before it satisfying `P`. */
  lemma FirstIndexAt<T>(s: seq<T>, P: T -> bool, j: nat)
    requires j < |s| && P(s[j])
    requires forall k :: 0 <= k < j ==> !P(s[k])
    ensures FirstIndex(s, P) == Some(j)
  {
  }

  /** The elements satisfying `P`, in their original order (JavaScript's
      `filter`). Each kept element occurs as often as in `s`; the others not at all. */
  function Filter<T(!new)>(s: seq<T>, P: T -> bool): (r: seq<T>)
    ensures |r| <= |s|
    ensures forall k :: 0 <= k < |r| ==> P(r[k])
    ensures multiset(r) <= multiset(s)
  {
    if |s| == 0 then []
    else
      assert s == [s[0]] + s[1..];
      (if P(s[0]) then [s[0]] else []) + Filter(s[1..], P)
  }

  /** Filtering keeps every satisfying element as often as it occurs in `s`
      and drops every other element. */
  lemma {:induction false} FilterMultiset<T(!new)>(s: seq<T>, P: T -> bool)
    ensures forall x :: multiset(Filter(s, P))[x] == if P(x) then multiset(s)[x] else 0
  {
    if |s| > 0 {
      FilterMultiset(s[1..], P);
      assert s == [s[0]] + s[1..];
      var head := if P(s[0]) then [s[0]] else [];
      assert Filter(s, P) == head + Filter(s[1..], P);
      assert multiset(s) == multiset{s[0]} + multiset(s[1..]);
      assert multiset(Filter(s, P)) == multiset(head) + multiset(Filter(s[1..], P));
    }
  }

  /** Filtering distributes over concatenation, so it keeps relative order. */
  lemma {:induction false} FilterAppend<T(!new)>(a: seq<T>, b: seq<T>, P: T -> bool)
    ensures Filter(a + b, P) == Filter(a, P) + Filter(b, P)
  {
    if |a| == 0 {
      assert a + b == b;
    } else {
      assert (a + b)[1..] == a[1..] + b;
      FilterAppend(a[1..], b, P);
    }
  }

  /** Filtering with a predicate that holds of every element changes nothing. */
  lemma {:induction false} FilterAll<T(!new)>(s: seq<T>, P: T -> bool)
    requires forall k :: 0 <= k < |s| ==> P(s[k])
    ensures Filter(s, P) == s
  {
    if |s| > 0 {
      FilterAll(s[1..], P);
    }
  }

  /** Two predicates that agree on the elements of `s` filter it alike. */
  lemma {:induction false} FilterCongruent<T(!new)>(s: seq<T>, P: T -> bool, Q: T -> bool)
    requires forall k :: 0 <= k < |s| ==> P(s[k]) == Q(s[k])
    ensures Filter(s, P) == Filter(s, Q)
  {
    if |s| > 0 {
      FilterCongruent(s[1..], P, Q);
    }
  }

  /** Every element of the filtered sequence comes from `s`. */
  lemma FilterSubset<T(!new)>(s: seq<T>, P: T -> bool, x: T)
    requires x in Filter(s, P)
    ensures x in s && P(x)
  {
    assert multiset(Filter(s, P))[x] > 0;
    assert multiset(s)[x] > 0;
  }

  /** The positions below `n` whose element satisfies `P`. */
  ghost function Positions<T>(s: seq<T>, P: T -> bool, n: nat): set<nat>
    requires n <= |s|
  {
    set i: nat | i < n && P(s[i])
  }

  /** The length of the filtered sequence is the number of positions of `s`
      whose element satisfies `P`. */
  lemma FilterCount<T(!new)>(s: seq<T>, P: T -> bool)
    ensures |Filter(s, P)| == |Positions(s, P, |s|)|
  {
    FilterPrefixCount(s, P, |s|);
    assert s[..|s|] == s;
  }

  lemma {:induction false} FilterPrefixCount<T(!new)>(s: seq<T>, P: T -> bool, n: nat)
    requires n <= |s|
    ensures |Filter(s[..n], P)| == |Positions(s, P, n)|
  {
    if n > 0 {
      FilterPrefixCount(s, P, n - 1);
      CountStep(s, P, n);
    } else {
      NoPositions(s, P);
    }
  }

  lemma CountStep<T(!new)>(s: seq<T>, P: T -> bool, n: nat)
    requires 0 < n <= |s|
    requires |Filter(s[..n - 1], P)| == |Positions(s, P, n - 1)|
    ensures |Filter(s[..n], P)| == |Positions(s, P, n)|
  {
    FilterStep(s, P, n);
    PositionsStep(s, P, n);
  }

  lemma NoPositions<T(!new)>(s: seq<T>, P: T -> bool)
    ensures |Filter(s[..0], P)| == |Positions(s, P, 0)|
  {
    assert Positions(s, P, 0) == {};
  }

  lemma FilterStep<T(!new)>(s: seq<T>, P: T -> bool, n: nat)
    requires 0 < n <= |s|
    ensures |Filter(s[..n], P)| == |Filter(s[..n - 1], P)| + (if P(s[n - 1]) then 1 else 0)
  {
    var m := n - 1;
    assert s[..n] == s[..m] + [s[m]];
    FilterAppend(s[..m], [s[m]], P);
    assert Filter([s[m]], P) == if P(s[m]) then [s[m]] else [];
  }

  lemma PositionsStep<T>(s: seq<T>, P: T -> bool, n: nat)
    requires 0 < n <= |s|
    ensures |Positions(s, P, n)| == |Positions(s, P, n - 1)| + (if P(s[n - 1]) then 1 else 0)
  {
    var m := n - 1;
    var before := Positions(s, P, m);
    assert m !in before;
    if P(s[m]) {
      assert Positions(s, P, n) == before + {m};
    } else {
      assert Positions(s, P, n) == before;
    }
  }

  /** `s` without its element at `i` (JavaScript's `splice(i, 1)`). */
  function RemoveAt<T>(s: seq<T>, i: nat): (r: seq<T>)
    requires i < |s|
    ensures |r| == |s| - 1
    ensures forall j :: 0 <= j < i ==> r[j] == s[j]
    ensures forall j :: i <= j < |r| ==> r[j] == s[j + 1]
    ensures multiset(r) + multiset{s[i]} == multiset(s)
  {
    assert s == s[..i] + [s[i]] + s[i + 1..];
    s[..i] + s[i + 1..]
  }
}

/** The stable sort and the removal of consecutive duplicates used on vectors. */
module Sorting {

  /** Inserts `x` behind everything it is not less than. */
  function Insert<X>(s: seq<X>, x: X, less: (X, X) -> bool): seq<X> {
    if s == [] || !less(x, s[|s| - 1]) then s + [x]
    else Insert(s[..|s| - 1], x, less) + [s[|s| - 1]]
  }

  /** Stable sort: later elements go behind equal earlier ones. */
  function Sort<X>(s: seq<X>, less: (X, X) -> bool): seq<X> {
    if s == [] then [] else Insert(Sort(s[..|s| - 1], less), s[|s| - 1], less)
  }

  function Dedup<X(==)>(s: seq<X>): seq<X> {
    if |s| <= 1 then s
    else if s[0] == s[1] then Dedup(s[1..])
    else [s[0]] + Dedup(s[1..])
  }

  ghost predicate StrictOrder<X(!new)>(less: (X, X) -> bool) {
    && (forall a, b :: less(a, b) ==> !less(b, a))
    && (forall a, b, c :: !less(b, a) && !less(c, b) ==> !less(c, a))
  }

  ghost predicate Related<X>(s: seq<X>, r: (X, X) -> bool) {
    forall i, j :: 0 <= i < j < |s| ==> r(s[i], s[j])
  }

  lemma {:induction false} InsertPermutes<X>(s: seq<X>, x: X, less: (X, X) -> bool)
    ensures multiset(Insert(s, x, less)) == multiset(s) + multiset{x}
  {
    if s != [] && less(x, s[|s| - 1]) {
      InsertPermutes(s[..|s| - 1], x, less);
      assert s == s[..|s| - 1] + [s[|s| - 1]];
    }
  }

  lemma {:induction false} SortPermutes<X>(s: seq<X>, less: (X, X) -> bool)
    ensures multiset(Sort(s, less)) == multiset(s)
    ensures |Sort(s, less)| == |s|
  {
    if s != [] {
      SortPermutes(s[..|s| - 1], less);
      InsertPermutes(Sort(s[..|s| - 1], less), s[|s| - 1], less);
      assert s == s[..|s| - 1] + [s[|s| - 1]];
    }
    assert |multiset(Sort(s, less))| == |Sort(s, less)| && |multiset(s)| == |s|;
  }

  lemma SortKeepsElements<X>(s: seq<X>, less: (X, X) -> bool)
    ensures forall x :: x in Sort(s, less) <==> x in s
  {
    SortPermutes(s, less);
    forall x ensures x in Sort(s, less) <==> x in s {
      assert x in Sort(s, less) <==> x in multiset(Sort(s, less));
      assert x in s <==> x in multiset(s);
    }
  }

  lemma {:induction false} DedupKeepsElements<X>(s: seq<X>)
    ensures forall x :: x in Dedup(s) <==> x in s
  {
    if |s| > 1 {
      DedupKeepsElements(s[1..]);
      assert s == [s[0]] + s[1..];
    }
  }

  /** How elements relate after a stable sort: ordered by `less`, and in the
      original order `before` where `less` does not separate them. */
  ghost predicate Behind<X>(less: (X, X) -> bool, before: (X, X) -> bool, a: X, b: X) {
    !less(b, a) && (!less(a, b) ==> before(a, b))
  }

  ghost predicate StablySorted<X>(s: seq<X>, less: (X, X) -> bool, before: (X, X) -> bool) {
    forall i, j :: 0 <= i < j < |s| ==> Behind(less, before, s[i], s[j])
  }

  lemma {:induction false} InsertIsStable<X(!new)>(s: seq<X>, x: X, less: (X, X) -> bool, before: (X, X) -> bool)
    requires StrictOrder(less)
    requires StablySorted(s, less, before)
    requires forall y :: y in s ==> before(y, x)
    ensures StablySorted(Insert(s, x, less), less, before)
  {
    if s == [] {
    } else if !less(x, s[|s| - 1]) {
      var last := s[|s| - 1];
      forall i | 0 <= i < |s| ensures Behind(less, before, s[i], x) {
        assert s[i] in s;
        assert i < |s| - 1 ==> Behind(less, before, s[i], last);
      }
    } else {
      var last := s[|s| - 1];
      var front := s[..|s| - 1];
      forall y | y in front ensures y in s {}
      InsertIsStable(front, x, less, before);
      var r := Insert(front, x, less);
      InsertPermutes(front, x, less);
      forall i | 0 <= i < |r| ensures Behind(less, before, r[i], last) {
        assert r[i] in multiset(r);
        if r[i] != x {
          assert r[i] in multiset(front);
          var k :| 0 <= k < |front| && front[k] == r[i];
          assert Behind(less, before, s[k], s[|s| - 1]);
        }
      }
    }
  }

  /** Sorting is stable: the result is ordered by `less` and keeps the original
      order among elements that `less` does not separate. */
  lemma {:induction false} SortIsStable<X(!new)>(s: seq<X>, less: (X, X) -> bool, before: (X, X) -> bool)
    requires StrictOrder(less)
    requires Related(s, before)
    ensures StablySorted(Sort(s, less), less, before)
  {
    if s != [] {
      var front := s[..|s| - 1];
      var x := s[|s| - 1];
      SortIsStable(front, less, before);
      SortKeepsElements(front, less);
      forall y | y in Sort(front, less) ensures before(y, x) {
        var k :| 0 <= k < |front| && front[k] == y;
        assert before(s[k], s[|s| - 1]);
      }
      InsertIsStable(Sort(front, less), x, less, before);
    }
  }

  ghost predicate Total<X(!new)>(less: (X, X) -> bool) {
    forall a, b :: a == b || less(a, b) || less(b, a)
  }

  ghost predicate Asymmetric<X(!new)>(less: (X, X) -> bool) {
    forall a, b :: less(a, b) ==> !less(b, a)
  }

  ghost predicate Transitive<X(!new)>(less: (X, X) -> bool) {
    forall a, b, c :: less(a, b) && less(b, c) ==> less(a, c)
  }

  /** Under a total order, what is not less either way is equal. */
  lemma TotalIsStrict<X(!new)>(less: (X, X) -> bool)
    requires Asymmetric(less) && Transitive(less) && Total(less)
    ensures StrictOrder(less)
  {
    forall a, b, c | !less(b, a) && !less(c, b) ensures !less(c, a) {
      assert a == b || less(a, b);
      assert b == c || less(b, c);
    }
  }

  ghost predicate Sorted<X>(s: seq<X>, less: (X, X) -> bool) {
    forall i, j :: 0 <= i < j < |s| ==> !less(s[j], s[i])
  }

  lemma {:induction false} DedupIsStrict<X(!new)>(s: seq<X>, less: (X, X) -> bool)
    requires StrictOrder(less) && Total(less) && Sorted(s, less)
    ensures forall i, j :: 0 <= i < j < |Dedup(s)| ==> less(Dedup(s)[i], Dedup(s)[j])
    ensures s != [] ==> Dedup(s) != [] && Dedup(s)[0] == s[0]
  {
    if |s| > 1 {
      DedupIsStrict(s[1..], less);
      var tail := Dedup(s[1..]);
      if s[0] != s[1] {
        assert less(s[0], s[1]);
        forall j | 0 <= j < |tail| ensures less(s[0], tail[j]) {
          assert j == 0 || less(tail[0], tail[j]);
        }
      }
    }
  }

  /** Sorting by a total order and dropping consecutive duplicates lists every
      element exactly once, in order. */
  lemma SortedDedup<X(!new)>(s: seq<X>, less: (X, X) -> bool)
    requires StrictOrder(less) && Total(less)
    ensures forall i, j :: 0 <= i < j < |Dedup(Sort(s, less))| ==> less(Dedup(Sort(s, less))[i], Dedup(Sort(s, less))[j])
    ensures forall x :: x in Dedup(Sort(s, less)) <==> x in s
  {
    var r := Sort(s, less);
    SortIsStable(s, less, (a, b) => true);
    forall i, j | 0 <= i < j < |r| ensures !less(r[j], r[i]) { assert Behind(less, (a, b) => true, r[i], r[j]); }
    DedupIsStrict(r, less);
    DedupKeepsElements(r);
    SortKeepsElements(s, less);
  }
}

/** `Series.mode()[0]`: pandas lists every value of maximal frequency in
    ascending order, so element 0 is the least of the most frequent values.
    An empty column has no mode, and indexing it raises. */
module Modes {
  import opened Wrappers
  import opened Orders

  /** `r` occurs in `s`, and no value of `s` occurs more often. */
  ghost predicate IsMostCommon<T>(s: seq<T>, r: T) {
    r in s && forall x :: x in s ==> multiset(s)[x] <= multiset(s)[r]
  }

  /** `r` is a most common value of `s`, and every other value that is as
      common is greater than `r` under `less`. */
  ghost predicate IsLeastMode<T>(s: seq<T>, r: T, less: (T, T) -> bool) {
    IsMostCommon(s, r) &&
    forall x :: x in s && x != r && multiset(s)[x] == multiset(s)[r] ==> less(r, x)
  }

  /** The candidate of `c` that is most frequent in `s`, ties going to the
      least under `less`. */
  function Best<T(==,!new)>(s: seq<T>, c: seq<T>, less: (T, T) -> bool): (r: T)
    requires c != []
    ensures r in c
    ensures forall x :: x in c ==> multiset(s)[x] <= multiset(s)[r]
    ensures Transitive(less) && Connected(less) ==>
      forall x :: x in c && x != r && multiset(s)[x] == multiset(s)[r] ==> less(r, x)
  {
    if |c| == 1 then c[0]
    else
      var m := Best(s, c[1..], less);
      if multiset(s)[c[0]] > multiset(s)[m] || (multiset(s)[c[0]] == multiset(s)[m] && less(c[0], m))
      then c[0] else m
  }

  /** `Series.mode()[0]` on the column `s`; `None` where pandas raises
      because the column is empty. */
  function Mode<T(==,!new)>(s: seq<T>, less: (T, T) -> bool): (r: Option<T>)
    ensures r.Some? <==> s != []
    ensures r.Some? ==> IsMostCommon(s, r.value)
    ensures r.Some? && StrictTotalOrder(less) ==> IsLeastMode(s, r.value, less)
  {
    if s == [] then None else Some(Best(s, s, less))
  }

  /** A value that occurs strictly more often than every other value is
      the only most common one. */
  lemma MostCommonDominant<T>(s: seq<T>, r: T, a: T)
    requires IsMostCommon(s, r) && a in s
    requires forall x :: x in s && x != a ==> multiset(s)[x] < multiset(s)[a]
    ensures r == a
  {
  }

  /** The tie-break makes the mode unique. */
  lemma LeastModeUnique<T(!new)>(s: seq<T>, r1: T, r2: T, less: (T, T) -> bool)
    requires StrictTotalOrder(less)
    requires IsLeastMode(s, r1, less) && IsLeastMode(s, r2, less)
    ensures r1 == r2
  {
  }

  /** The mode depends only on how often each value occurs, not on the
      order of the rows. */
  lemma ModeIgnoresOrder<T(!new)>(s: seq<T>, t: seq<T>, less: (T, T) -> bool)
    requires StrictTotalOrder(less)
    requires multiset(s) == multiset(t)
    ensures Mode(s, less) == Mode(t, less)
  {
    if s != [] {
      assert t != [] by { assert |t| == |multiset(t)| == |multiset(s)| == |s|; }
      var a, b := Mode(s, less).value, Mode(t, less).value;
      forall x
        ensures x in s <==> x in t
      {
        assert x in s <==> x in multiset(s);
        assert x in t <==> x in multiset(t);
      }
      assert IsLeastMode(t, a, less);
      LeastModeUnique(t, a, b, less);
    } else {
      assert |t| == |multiset(t)| == 0;
    }
  }
}

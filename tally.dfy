/** `Series.value_counts()`: one bucket per distinct value of a column,
    holding how many rows carry that value. */
module Tally {

  datatype Bucket<T> = Bucket(value: T, count: nat)

  /** No value has two buckets. */
  ghost predicate DistinctValues<T>(b: seq<Bucket<T>>) {
    forall i, j :: 0 <= i < j < |b| ==> b[i].value != b[j].value
  }

  /** Every bucket counts at least one row (value_counts lists only values
      that occur). */
  ghost predicate PositiveCounts<T>(b: seq<Bucket<T>>) {
    forall i :: 0 <= i < |b| ==> b[i].count > 0
  }

  /** The values that have a bucket. */
  function Values<T>(b: seq<Bucket<T>>): set<T> {
    set i | 0 <= i < |b| :: b[i].value
  }

  /** The count recorded for `x`, or 0 when `x` has no bucket. */
  function CountOf<T(==)>(b: seq<Bucket<T>>, x: T): nat {
    if b == [] then 0
    else if b[0].value == x then b[0].count
    else CountOf(b[1..], x)
  }

  /** The sum of all counts. */
  function Total<T>(b: seq<Bucket<T>>): nat {
    if b == [] then 0 else b[0].count + Total(b[1..])
  }

  /** Counts one more row carrying `x`. */
  function Bump<T(==)>(b: seq<Bucket<T>>, x: T): seq<Bucket<T>> {
    if b == [] then [Bucket(x, 1)]
    else if b[0].value == x then [Bucket(x, b[0].count + 1)] + b[1..]
    else [b[0]] + Bump(b[1..], x)
  }

  /** Bumping `x` adds one to the count of `x` and to the total, and to
      nothing else; it keeps one bucket per value. */
  lemma {:induction false} BumpCounts<T(!new)>(b: seq<Bucket<T>>, x: T)
    ensures forall y :: CountOf(Bump(b, x), y) == CountOf(b, y) + (if y == x then 1 else 0)
    ensures Total(Bump(b, x)) == Total(b) + 1
  {
    if b != [] && b[0].value != x {
      BumpCounts(b[1..], x);
    }
  }

  lemma {:induction false} BumpBuckets<T(!new)>(b: seq<Bucket<T>>, x: T)
    ensures Values(Bump(b, x)) == Values(b) + {x}
    ensures DistinctValues(b) ==> DistinctValues(Bump(b, x))
    ensures PositiveCounts(b) ==> PositiveCounts(Bump(b, x))
  {
    if b == [] {
      assert Values([Bucket(x, 1)]) == {x} by { ValuesCons(Bucket(x, 1), []); }
    } else if b[0].value == x {
      ValuesCons(b[0], b[1..]);
      ValuesCons(Bucket(x, b[0].count + 1), b[1..]);
    } else {
      var rest := Bump(b[1..], x);
      BumpBuckets(b[1..], x);
      ValuesCons(b[0], b[1..]);
      ValuesCons(b[0], rest);
      if DistinctValues(b) {
        assert b[0].value !in Values(b[1..]);
        var r := [b[0]] + rest;
        forall i, j | 0 <= i < j < |r|
          ensures r[i].value != r[j].value
        {
          if i == 0 {
            assert r[j].value in Values(rest);
          }
        }
      }
    }
  }

  lemma ValuesCons<T>(h: Bucket<T>, t: seq<Bucket<T>>)
    ensures Values([h] + t) == {h.value} + Values(t)
  {
    var l := [h] + t;
    forall v | v in Values(t)
      ensures v in Values(l)
    {
      var i :| 0 <= i < |t| && t[i].value == v;
      assert l[i + 1].value == v;
    }
    assert l[0].value == h.value;
  }

  /** `value_counts()` of the column `s`, buckets in order of first
      appearance. */
  function ValueCounts<T(==,!new)>(s: seq<T>): (r: seq<Bucket<T>>)
    ensures DistinctValues(r) && PositiveCounts(r)
    ensures forall x :: CountOf(r, x) == multiset(s)[x]
    ensures Values(r) == set x | x in s
    ensures Total(r) == |s|
  {
    if s == [] then []
    else
      var init := s[..|s| - 1];
      assert s == init + [s[|s| - 1]];
      BumpCounts(ValueCounts(init), s[|s| - 1]);
      BumpBuckets(ValueCounts(init), s[|s| - 1]);
      Bump(ValueCounts(init), s[|s| - 1])
  }
}

/** The stable sort that JavaScript's Array.prototype.sort and Python's sorted guarantee. */
module Sorting {
  import opened Common

  ghost predicate TotalPreorder<T(!new)>(le: (T, T) -> bool) {
    && (forall x, y :: le(x, y) || le(y, x))
    && (forall x, y, z :: le(x, y) && le(y, z) ==> le(x, z))
  }

  ghost predicate Sorted<T>(s: seq<T>, le: (T, T) -> bool) {
    forall i, j :: 0 <= i < j < |s| ==> le(s[i], s[j])
  }

  function Insert<T>(x: T, s: seq<T>, le: (T, T) -> bool): seq<T> {
    if s == [] then [x]
    else if le(x, s[0]) then [x] + s
    else [s[0]] + Insert(x, s[1..], le)
  }

  function StableSort<T>(s: seq<T>, le: (T, T) -> bool): seq<T> {
    if s == [] then [] else Insert(s[0], StableSort(s[1..], le), le)
  }

  lemma {:induction false} InsertMultiset<T>(x: T, s: seq<T>, le: (T, T) -> bool)
    ensures multiset(Insert(x, s, le)) == multiset(s) + multiset{x}
  {
    if s != [] && !le(x, s[0]) {
      InsertMultiset(x, s[1..], le);
      assert s == [s[0]] + s[1..];
    }
  }

  /** Sorting loses and invents nothing. */
  lemma {:induction false} SortPermutes<T>(s: seq<T>, le: (T, T) -> bool)
    ensures multiset(StableSort(s, le)) == multiset(s)
    ensures |StableSort(s, le)| == |s|
    ensures forall x :: x in StableSort(s, le) <==> x in s
  {
    if s != [] {
      SortPermutes(s[1..], le);
      InsertMultiset(s[0], StableSort(s[1..], le), le);
      assert s == [s[0]] + s[1..];
    }
    SameMultiset(StableSort(s, le), s);
  }

  lemma SameMultiset<T>(a: seq<T>, b: seq<T>)
    requires multiset(a) == multiset(b)
    ensures |a| == |b|
    ensures forall x :: x in a <==> x in b
  {
    assert |multiset(a)| == |a| && |multiset(b)| == |b|;
    forall x ensures x in a <==> x in b {
      assert x in a <==> x in multiset(a);
      assert x in b <==> x in multiset(b);
    }
  }

  lemma {:induction false} InsertSorted<T(!new)>(x: T, s: seq<T>, le: (T, T) -> bool)
    requires TotalPreorder(le) && Sorted(s, le)
    ensures Sorted(Insert(x, s, le), le)
  {
    if s != [] && !le(x, s[0]) {
      InsertSorted(x, s[1..], le);
      var rest := Insert(x, s[1..], le);
      InsertMultiset(x, s[1..], le);
      forall i | 0 <= i < |rest| ensures le(s[0], rest[i]) {
        assert rest[i] in multiset(rest);
        assert rest[i] == x || rest[i] in s[1..];
      }
    }
  }

  lemma {:induction false} SortSorts<T(!new)>(s: seq<T>, le: (T, T) -> bool)
    requires TotalPreorder(le)
    ensures Sorted(StableSort(s, le), le)
  {
    if s != [] {
      SortSorts(s[1..], le);
      InsertSorted(s[0], StableSort(s[1..], le), le);
    }
  }

  /** Comparing equal with k. */
  function Tied<T>(le: (T, T) -> bool, k: T): T -> bool {
    (y: T) => le(y, k) && le(k, y)
  }

  lemma {:induction false} InsertStable<T(!new)>(x: T, s: seq<T>, le: (T, T) -> bool, k: T)
    requires TotalPreorder(le)
    ensures Filter(Insert(x, s, le), Tied(le, k)) == Filter([x] + s, Tied(le, k))
  {
    var tied := Tied(le, k);
    if s != [] && !le(x, s[0]) {
      InsertStable(x, s[1..], le, k);
      FilterAppend([s[0]], Insert(x, s[1..], le), tied);
      FilterAppend([x], s, tied);
      FilterAppend([x], s[1..], tied);
      FilterAppend([s[0]], s[1..], tied);
      assert s == [s[0]] + s[1..];
      // x and s[0] are not tied with one another, so at most one of them is tied with k
      assert !(tied(x) && tied(s[0]));
    }
  }

  /** Elements that compare equal keep their original order. */
  lemma {:induction false} SortIsStable<T(!new)>(s: seq<T>, le: (T, T) -> bool, k: T)
    requires TotalPreorder(le)
    ensures Filter(StableSort(s, le), Tied(le, k)) == Filter(s, Tied(le, k))
  {
    var tied := Tied(le, k);
    if s != [] {
      SortIsStable(s[1..], le, k);
      var rest := StableSort(s[1..], le);
      InsertStable(s[0], rest, le, k);
      FilterAppend([s[0]], rest, tied);
      FilterAppend([s[0]], s[1..], tied);
      assert s == [s[0]] + s[1..];
    }
  }

  lemma {:induction false} InsertFlatMap<T, U>(x: T, s: seq<T>, le: (T, T) -> bool, f: T -> seq<U>)
    ensures multiset(FlatMap(Insert(x, s, le), f)) == multiset(f(x)) + multiset(FlatMap(s, f))
  {
    if s != [] && !le(x, s[0]) {
      InsertFlatMap(x, s[1..], le, f);
    }
  }

  /** Sorting first only rearranges what is then collected. */
  lemma {:induction false} SortFlatMap<T, U>(s: seq<T>, le: (T, T) -> bool, f: T -> seq<U>)
    ensures multiset(FlatMap(StableSort(s, le), f)) == multiset(FlatMap(s, f))
  {
    if s != [] {
      SortFlatMap(s[1..], le, f);
      InsertFlatMap(s[0], StableSort(s[1..], le), le, f);
    }
  }
}

/** `sorted`: the stable sort of the standard library, as far as its callers rely on it. */
module Sorting {

  /** `x` after everything in `s` that may stand before it. */
  function Insert<T>(s: seq<T>, x: T, le: (T, T) -> bool): seq<T> {
    if s == [] || le(s[|s| - 1], x) then s + [x] else Insert(s[..|s| - 1], x, le) + [s[|s| - 1]]
  }

  function StableSort<T>(s: seq<T>, le: (T, T) -> bool): seq<T> {
    if s == [] then [] else Insert(StableSort(s[..|s| - 1], le), s[|s| - 1], le)
  }

  ghost predicate TotalPreorder<T(!new)>(le: (T, T) -> bool) {
    && (forall x, y :: le(x, y) || le(y, x))
    && (forall x, y, z :: le(x, y) && le(y, z) ==> le(x, z))
  }

  ghost predicate SortedBy<T>(s: seq<T>, le: (T, T) -> bool) {
    forall i, j | 0 <= i < j < |s| :: le(s[i], s[j])
  }

  lemma {:induction false} InsertAdds<T(!new)>(s: seq<T>, x: T, le: (T, T) -> bool)
    ensures multiset(Insert(s, x, le)) == multiset(s) + multiset{x}
  {
    if s != [] && !le(s[|s| - 1], x) {
      InsertAdds(s[..|s| - 1], x, le);
      assert s == s[..|s| - 1] + [s[|s| - 1]];
    }
  }

  lemma {:induction false} InsertSorted<T(!new)>(s: seq<T>, x: T, le: (T, T) -> bool)
    requires TotalPreorder(le) && SortedBy(s, le)
    ensures SortedBy(Insert(s, x, le), le)
  {
    if s == [] || le(s[|s| - 1], x) {
      forall i | 0 <= i < |s|
        ensures le(s[i], x)
      {
        assert i < |s| - 1 ==> le(s[i], s[|s| - 1]);
      }
    } else {
      var front, last := s[..|s| - 1], s[|s| - 1];
      InsertSorted(front, x, le);
      InsertAdds(front, x, le);
      var r := Insert(front, x, le);
      forall i | 0 <= i < |r|
        ensures le(r[i], last)
      {
        assert r[i] in multiset(r);
        assert r[i] == x || r[i] in front;
      }
    }
  }

  lemma NothingSorted<T(!new)>(le: (T, T) -> bool)
    ensures SortedBy([], le)
  {}

  /** The same elements as often, in order. */
  lemma {:induction false} StableSortSorts<T(!new)>(s: seq<T>, le: (T, T) -> bool)
    requires TotalPreorder(le)
    ensures multiset(StableSort(s, le)) == multiset(s)
    ensures SortedBy(StableSort(s, le), le)
  {
    hide Insert, SortedBy, TotalPreorder;
    if s != [] {
      var front, last := s[..|s| - 1], s[|s| - 1];
      StableSortSorts(front, le);
      assert s == front + [last];
      InsertAdds(StableSort(front, le), last, le);
      InsertSorted(StableSort(front, le), last, le);
    } else {
      NothingSorted(le);
    }
  }

  /** Where those that tie stand as a finer order has them, sorting keeps them so. */
  lemma {:induction false} InsertKeepsTies<T(!new)>(s: seq<T>, x: T, le: (T, T) -> bool, fine: (T, T) -> bool)
    requires TotalPreorder(le) && SortedBy(s, fine) && forall y, z | fine(y, z) :: le(y, z)
    requires (forall y <- s :: le(y, x) ==> fine(y, x)) && forall y, z | le(y, z) && !le(z, y) :: fine(y, z)
    ensures SortedBy(Insert(s, x, le), fine)
  {
    if s != [] && !le(s[|s| - 1], x) {
      var front, last := s[..|s| - 1], s[|s| - 1];
      InsertKeepsTies(front, x, le, fine);
      InsertAdds(front, x, le);
      var r := Insert(front, x, le);
      forall i | 0 <= i < |r|
        ensures fine(r[i], last)
      {
        assert r[i] in multiset(r);
        assert r[i] == x || r[i] in front;
      }
    } else if s != [] {
      var last := s[|s| - 1];
      forall i | 0 <= i < |s|
        ensures fine(s[i], x)
      {
        assert fine(s[i], last) || i == |s| - 1;
        assert s[i] in s;
      }
    }
  }

  lemma {:induction false} SortKeepsTies<T(!new)>(s: seq<T>, le: (T, T) -> bool, fine: (T, T) -> bool)
    requires TotalPreorder(le) && forall y, z :: (fine(y, z) ==> le(y, z)) && (le(y, z) && !le(z, y) ==> fine(y, z))
    requires forall i, j | 0 <= i < j < |s| && le(s[i], s[j]) :: fine(s[i], s[j])
    ensures SortedBy(StableSort(s, le), fine)
  {
    if s != [] {
      var front, last := s[..|s| - 1], s[|s| - 1];
      SortKeepsTies(front, le, fine);
      SortedSameElements(front, le);
      forall y <- StableSort(front, le) | le(y, last)
        ensures fine(y, last)
      {
        var i :| 0 <= i < |front| && front[i] == y;
        assert s[i] == y;
      }
      InsertKeepsTies(StableSort(front, le), last, le, fine);
    }
  }

  lemma SortedSameElements<T(!new)>(s: seq<T>, le: (T, T) -> bool)
    requires TotalPreorder(le)
    ensures |StableSort(s, le)| == |s|
    ensures forall x :: x in StableSort(s, le) <==> x in s
  {
    StableSortSorts(s, le);
    assert |multiset(StableSort(s, le))| == |multiset(s)|;
    forall x
      ensures x in StableSort(s, le) <==> x in s
    {
      assert x in multiset(StableSort(s, le)) <==> x in multiset(s);
    }
  }

  lemma Twice<T>(s: seq<T>, a: nat, b: nat)
    requires a < b < |s| && s[a] == s[b]
    ensures multiset(s)[s[a]] >= 2
  {
    assert s == s[..b] + [s[b]] + s[b + 1..];
    assert s[..b][a] == s[a] && s[a] in multiset(s[..b]);
  }

  lemma {:induction false} OnceEach<T(!new)>(s: seq<T>)
    requires forall i, j | 0 <= i < j < |s| :: s[i] != s[j]
    ensures forall x :: multiset(s)[x] <= 1
  {
    if s != [] {
      OnceEach(s[..|s| - 1]);
      assert s == s[..|s| - 1] + [s[|s| - 1]];
    }
  }

  /** What occurs once each before sorting occurs once each after it. */
  lemma SortedDistinct<T(!new)>(s: seq<T>, le: (T, T) -> bool)
    requires TotalPreorder(le) && forall i, j | 0 <= i < j < |s| :: s[i] != s[j]
    ensures forall i, j | 0 <= i < j < |StableSort(s, le)| :: StableSort(s, le)[i] != StableSort(s, le)[j]
  {
    var r := StableSort(s, le);
    StableSortSorts(s, le);
    OnceEach(s);
    forall i, j | 0 <= i < j < |r|
      ensures r[i] != r[j]
    {
      if r[i] == r[j] {
        Twice(r, i, j);
      }
    }
  }

  lemma SameLength<T>(a: seq<T>, b: seq<T>)
    requires multiset(a) == multiset(b)
    ensures |a| == |b|
  {
    assert |multiset(a)| == |a| && |multiset(b)| == |b|;
  }

  lemma TailBag<T>(a: seq<T>)
    requires a != []
    ensures multiset(a[1..]) == multiset(a) - multiset{a[0]}
  {
    assert a == [a[0]] + a[1..];
  }

  /** Two orders of the same elements: the first of one, taken out of the other, leaves the same rest. */
  lemma TakeOut<T>(a: seq<T>, b: seq<T>) returns (i: nat)
    requires a != [] && multiset(a) == multiset(b)
    ensures i < |b| && b == b[..i] + ([a[0]] + b[i + 1..])
    ensures multiset(a[1..]) == multiset(b[..i] + b[i + 1..])
  {
    assert a[0] in multiset(a);
    i :| 0 <= i < |b| && b[i] == a[0];
    var left, right := b[..i], b[i + 1..];
    assert b == left + ([a[0]] + right);
    assert multiset(b) == multiset(left) + (multiset{a[0]} + multiset(right));
    TailBag(a);
    assert multiset(left + right) == multiset(left) + multiset(right);
  }

  /** Where no two different elements tie, sorting forgets the order it was given them in. */
  lemma {:induction false} SortedOneWay<T(!new)>(a: seq<T>, b: seq<T>, le: (T, T) -> bool)
    requires SortedBy(a, le) && SortedBy(b, le) && multiset(a) == multiset(b)
    requires forall x, y :: le(x, y) && le(y, x) ==> x == y
    ensures a == b
  {
    SameLength(a, b);
    if a != [] {
      LeastFirst(a, b, le);
      LeastFirst(b, a, le);
      TailBag(a);
      TailBag(b);
      SortedOneWay(a[1..], b[1..], le);
      assert a == [a[0]] + a[1..] && b == [b[0]] + b[1..];
    }
  }

  lemma LeastFirst<T(!new)>(a: seq<T>, b: seq<T>, le: (T, T) -> bool)
    requires SortedBy(b, le) && multiset(a) == multiset(b) && a != [] && b != []
    ensures le(b[0], a[0]) || a[0] == b[0]
  {
    assert a[0] in multiset(a);
    assert a[0] in b;
  }
}

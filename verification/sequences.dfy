/** Lists treated as sets: first-occurrence deduplication, selection and sorting. */
module Sequences {
  function Elements<T>(s: seq<T>): set<T> {
    set x | x in s
  }

  predicate NoDuplicates<T(==)>(s: seq<T>) {
    forall i, j :: 0 <= i < j < |s| ==> s[i] != s[j]
  }

  /** `s` with every element kept at its first occurrence only. */
  function Distinct<T(==, !new)>(s: seq<T>): (d: seq<T>)
    ensures forall x :: x in d <==> x in s
    ensures NoDuplicates(d)
  {
    if s == [] then
      []
    else
      var front := Distinct(s[..|s| - 1]);
      var last := s[|s| - 1];
      assert s == s[..|s| - 1] + [last];
      if last in front then front else front + [last]
  }

  /** The elements of `s` satisfying `keep`, in order. */
  function Select<T(!new)>(s: seq<T>, keep: T -> bool): (r: seq<T>)
    ensures forall x :: x in r <==> x in s && keep(x)
  {
    if s == [] then
      []
    else
      var front := Select(s[..|s| - 1], keep);
      var last := s[|s| - 1];
      assert s == s[..|s| - 1] + [last];
      if keep(last) then front + [last] else front
  }

  lemma {:induction false} DistinctAppend<T(!new)>(a: seq<T>, b: seq<T>)
    ensures Distinct(Distinct(a) + b) == Distinct(a + b)
  {
    if b == [] {
      assert a + b == a && Distinct(a) + b == Distinct(a);
      DistinctIdempotent(a);
    } else {
      var front, last := b[..|b| - 1], b[|b| - 1];
      DistinctAppend(a, front);
      assert (Distinct(a) + b)[..|Distinct(a) + b| - 1] == Distinct(a) + front;
      assert (a + b)[..|a + b| - 1] == a + front;
    }
  }

  lemma {:induction false} DistinctFixed<T(!new)>(s: seq<T>)
    requires NoDuplicates(s)
    ensures Distinct(s) == s
  {
    if s != [] {
      var front := s[..|s| - 1];
      DistinctFixed(front);
      assert s == front + [s[|s| - 1]];
      assert s[|s| - 1] !in front;
    }
  }

  lemma DistinctIdempotent<T(!new)>(s: seq<T>)
    ensures Distinct(Distinct(s)) == Distinct(s)
  {
    DistinctFixed(Distinct(s));
  }

  lemma {:induction false} DistinctSelect<T(!new)>(s: seq<T>, keep: T -> bool)
    ensures Distinct(Select(Distinct(s), keep)) == Distinct(Select(s, keep))
    ensures Select(Distinct(s), keep) == Distinct(Select(s, keep))
  {
    if s != [] {
      var front, last := s[..|s| - 1], s[|s| - 1];
      DistinctSelect(front, keep);
      if last !in Distinct(front) {
        var d := Distinct(front) + [last];
        assert d[..|d| - 1] == Distinct(front);
      }
      if keep(last) {
        var k := Select(front, keep) + [last];
        assert k[..|k| - 1] == Select(front, keep);
      }
    }
    DistinctFixed(Distinct(Select(s, keep)));
  }

  lemma {:induction false} SelectTwice<T(!new)>(s: seq<T>, first: T -> bool, second: T -> bool, both: T -> bool)
    requires forall x :: both(x) <==> first(x) && second(x)
    ensures Select(Select(s, first), second) == Select(s, both)
  {
    if s != [] {
      var front, last := s[..|s| - 1], s[|s| - 1];
      SelectTwice(front, first, second, both);
      if first(last) {
        var k := Select(front, first) + [last];
        assert k[..|k| - 1] == Select(front, first);
      }
    }
  }

  lemma {:induction false} SelectAgrees<T(!new)>(s: seq<T>, p: T -> bool, q: T -> bool)
    requires forall x :: x in s ==> p(x) == q(x)
    ensures Select(s, p) == Select(s, q)
  {
    if s != [] {
      assert s == s[..|s| - 1] + [s[|s| - 1]];
      SelectAgrees(s[..|s| - 1], p, q);
    }
  }

  // Sorting under any total order.

  ghost predicate TotalOrder<T(!new)>(leq: (T, T) -> bool) {
    && (forall x, y :: leq(x, y) || leq(y, x))
    && (forall x, y :: leq(x, y) && leq(y, x) ==> x == y)
    && (forall x, y, z :: leq(x, y) && leq(y, z) ==> leq(x, z))
  }

  ghost predicate Sorted<T>(s: seq<T>, leq: (T, T) -> bool) {
    forall i, j :: 0 <= i < j < |s| ==> leq(s[i], s[j])
  }

  function Insert<T>(x: T, s: seq<T>, leq: (T, T) -> bool): seq<T> {
    if s == [] || leq(x, s[0]) then [x] + s else [s[0]] + Insert(x, s[1..], leq)
  }

  function Sort<T>(s: seq<T>, leq: (T, T) -> bool): seq<T> {
    if s == [] then [] else Insert(s[0], Sort(s[1..], leq), leq)
  }

  lemma {:induction false} InsertAdds<T>(x: T, s: seq<T>, leq: (T, T) -> bool)
    ensures multiset(Insert(x, s, leq)) == multiset(s) + multiset{x}
  {
    if s != [] && !leq(x, s[0]) {
      InsertAdds(x, s[1..], leq);
      assert s == [s[0]] + s[1..];
      assert Insert(x, s, leq) == [s[0]] + Insert(x, s[1..], leq);
    }
  }

  lemma {:induction false} InsertSorted<T(!new)>(x: T, s: seq<T>, leq: (T, T) -> bool)
    requires TotalOrder(leq) && Sorted(s, leq)
    ensures Sorted(Insert(x, s, leq), leq)
  {
    if s != [] && !leq(x, s[0]) {
      InsertSorted(x, s[1..], leq);
      var rest := Insert(x, s[1..], leq);
      InsertAdds(x, s[1..], leq);
      forall i | 0 <= i < |rest|
        ensures leq(s[0], rest[i])
      {
        assert rest[i] in multiset(rest);
        assert rest[i] == x || rest[i] in s[1..];
      }
    }
  }

  lemma {:induction false} SortSorts<T(!new)>(s: seq<T>, leq: (T, T) -> bool)
    requires TotalOrder(leq)
    ensures Sorted(Sort(s, leq), leq)
    ensures multiset(Sort(s, leq)) == multiset(s)
    ensures |Sort(s, leq)| == |s|
  {
    if s != [] {
      SortSorts(s[1..], leq);
      InsertSorted(s[0], Sort(s[1..], leq), leq);
      InsertAdds(s[0], Sort(s[1..], leq), leq);
      assert s == [s[0]] + s[1..];
    }
    assert |multiset(Sort(s, leq))| == |multiset(s)|;
  }

  lemma SortKeepsElements<T(!new)>(s: seq<T>, leq: (T, T) -> bool)
    requires TotalOrder(leq)
    ensures Elements(Sort(s, leq)) == Elements(s)
  {
    SortSorts(s, leq);
    forall x
      ensures x in Sort(s, leq) <==> x in s
    {
      assert x in multiset(Sort(s, leq)) <==> x in multiset(s);
    }
  }

  /** A list is free of repetitions exactly when it has as many elements as places. */
  lemma {:induction false} CountDistinct<T>(s: seq<T>)
    ensures |Elements(s)| <= |s|
    ensures |Elements(s)| == |s| <==> NoDuplicates(s)
  {
    if s == [] {
      assert Elements(s) == {};
    } else {
      var front, last := s[..|s| - 1], s[|s| - 1];
      CountDistinct(front);
      assert s == front + [last];
      assert Elements(s) == Elements(front) + {last};
      if last in front {
        assert Elements(s) == Elements(front);
        var i :| 0 <= i < |front| && front[i] == last;
        assert s[i] == s[|s| - 1];
      } else {
        assert |Elements(s)| == |Elements(front)| + 1;
        assert NoDuplicates(s) <==> NoDuplicates(front);
      }
    }
  }

  lemma SortKeepsNoDuplicates<T(!new)>(s: seq<T>, leq: (T, T) -> bool)
    requires TotalOrder(leq) && NoDuplicates(s)
    ensures NoDuplicates(Sort(s, leq))
  {
    SortSorts(s, leq);
    SortKeepsElements(s, leq);
    CountDistinct(s);
    CountDistinct(Sort(s, leq));
  }

  /** A sorted list without repetitions is determined by its set of elements. */
  lemma {:induction false} SortedIsCanonical<T(!new)>(a: seq<T>, b: seq<T>, leq: (T, T) -> bool)
    requires TotalOrder(leq)
    requires Sorted(a, leq) && Sorted(b, leq) && NoDuplicates(a) && NoDuplicates(b)
    requires Elements(a) == Elements(b)
    ensures a == b
  {
    assert |b| > 0 ==> b[0] in Elements(b);
    assert |a| > 0 ==> a[0] in Elements(a);
    if a == [] {
      assert Elements(a) == {};
      assert b == [];
    } else {
      assert a[0] in b;
      assert b[0] in a;
      assert a[0] == b[0];
      TailElements(a);
      TailElements(b);
      SortedIsCanonical(a[1..], b[1..], leq);
      assert a == [a[0]] + a[1..] && b == [b[0]] + b[1..];
    }
  }

  lemma TailElements<T>(s: seq<T>)
    requires s != [] && NoDuplicates(s)
    ensures Elements(s[1..]) == Elements(s) - {s[0]}
    ensures NoDuplicates(s[1..])
  {
    var tail := s[1..];
    assert s == [s[0]] + tail;
    forall i, j | 0 <= i < j < |tail|
      ensures tail[i] != tail[j]
    {
      assert tail[i] == s[i + 1] && tail[j] == s[j + 1];
    }
    forall i | 0 <= i < |tail|
      ensures tail[i] != s[0]
    {
      assert tail[i] == s[i + 1];
    }
  }

  /** Sorting the distinct elements gives the same list exactly for equal sets. */
  lemma CanonicalForm<T(!new)>(a: seq<T>, b: seq<T>, leq: (T, T) -> bool)
    requires TotalOrder(leq)
    ensures Sort(Distinct(a), leq) == Sort(Distinct(b), leq) <==> Elements(a) == Elements(b)
  {
    var p, q := Distinct(a), Distinct(b);
    SortSorts(p, leq);
    SortSorts(q, leq);
    SortKeepsElements(p, leq);
    SortKeepsElements(q, leq);
    SortKeepsNoDuplicates(p, leq);
    SortKeepsNoDuplicates(q, leq);
    assert Elements(p) == Elements(a) && Elements(q) == Elements(b);
    if Elements(a) == Elements(b) {
      SortedIsCanonical(Sort(p, leq), Sort(q, leq), leq);
    }
  }
}

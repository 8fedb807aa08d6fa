/** Python's `sorted`, as far as the hub relies on it: a permutation in order, and
    the same list for every order the same elements arrive in. */
module Sorting {

  ghost predicate TotalOrder<T(!new)>(leq: (T, T) -> bool) {
    && (forall x, y :: leq(x, y) || leq(y, x))
    && (forall x, y :: leq(x, y) && leq(y, x) ==> x == y)
    && (forall x, y, z :: leq(x, y) && leq(y, z) ==> leq(x, z))
  }

  ghost predicate Ordered<T>(leq: (T, T) -> bool, s: seq<T>) {
    forall i, j | 0 <= i < j < |s| :: leq(s[i], s[j])
  }

  ghost predicate Distinct<T>(s: seq<T>) {
    forall i, j | 0 <= i < j < |s| :: s[i] != s[j]
  }

  function Insert<T>(leq: (T, T) -> bool, x: T, s: seq<T>): seq<T> {
    if s == [] then [x]
    else if leq(x, s[0]) then [x] + s
    else [s[0]] + Insert(leq, x, s[1..])
  }

  function Sort<T>(leq: (T, T) -> bool, s: seq<T>): seq<T> {
    if s == [] then [] else Insert(leq, s[0], Sort(leq, s[1..]))
  }

  lemma {:induction false} InsertKeeps<T>(leq: (T, T) -> bool, x: T, s: seq<T>)
    ensures multiset(Insert(leq, x, s)) == multiset(s) + multiset{x}
  {
    if s != [] {
      assert s == [s[0]] + s[1..];
      InsertKeeps(leq, x, s[1..]);
    }
  }

  lemma {:induction false} InsertOrdered<T(!new)>(leq: (T, T) -> bool, x: T, s: seq<T>)
    requires TotalOrder(leq) && Ordered(leq, s)
    ensures Ordered(leq, Insert(leq, x, s))
  {
    if s != [] && !leq(x, s[0]) {
      InsertOrdered(leq, x, s[1..]);
      InsertAbove(leq, x, s);
    }
  }

  /** What is inserted behind the head is not below it. */
  lemma InsertAbove<T(!new)>(leq: (T, T) -> bool, x: T, s: seq<T>)
    requires TotalOrder(leq) && Ordered(leq, s) && s != [] && !leq(x, s[0])
    ensures forall y | y in Insert(leq, x, s[1..]) :: leq(s[0], y)
  {
    InsertKeeps(leq, x, s[1..]);
    forall y | y in Insert(leq, x, s[1..])
      ensures leq(s[0], y)
    {
      assert y in multiset(Insert(leq, x, s[1..]));
      assert y == x || y in s[1..];
    }
  }

  /** The sorted list is an ordered permutation of the input. */
  lemma {:induction false} SortOrdered<T(!new)>(leq: (T, T) -> bool, s: seq<T>)
    requires TotalOrder(leq)
    ensures Ordered(leq, Sort(leq, s))
    ensures multiset(Sort(leq, s)) == multiset(s)
    ensures |Sort(leq, s)| == |s|
  {
    if s != [] {
      assert s == [s[0]] + s[1..];
      SortOrdered(leq, s[1..]);
      InsertOrdered(leq, s[0], Sort(leq, s[1..]));
      InsertKeeps(leq, s[0], Sort(leq, s[1..]));
    }
    assert |multiset(Sort(leq, s))| == |multiset(s)|;
  }

  lemma SameHead<T(!new)>(leq: (T, T) -> bool, a: seq<T>, b: seq<T>)
    requires TotalOrder(leq) && Ordered(leq, a) && Ordered(leq, b)
    requires multiset(a) == multiset(b) && a != []
    ensures b != [] && a[0] == b[0]
  {
    assert a[0] in multiset(b) && b[0] in multiset(a);
    var i :| 0 <= i < |a| && a[i] == b[0];
    var j :| 0 <= j < |b| && b[j] == a[0];
  }

  lemma SameTail<T>(a: seq<T>, b: seq<T>)
    requires multiset(a) == multiset(b) && a != [] && b != [] && a[0] == b[0]
    ensures multiset(a[1..]) == multiset(b[1..])
  {
    assert a == [a[0]] + a[1..] && b == [b[0]] + b[1..];
    assert multiset(a[1..]) == multiset(a) - multiset{a[0]};
    assert multiset(b[1..]) == multiset(b) - multiset{a[0]};
  }

  /** Two ordered lists of the same elements are the same list. */
  lemma {:induction false} OrderedUnique<T(!new)>(leq: (T, T) -> bool, a: seq<T>, b: seq<T>)
    requires TotalOrder(leq) && Ordered(leq, a) && Ordered(leq, b)
    requires multiset(a) == multiset(b)
    ensures a == b
  {
    assert |multiset(a)| == |multiset(b)|;
    if a != [] {
      SameHead(leq, a, b);
      SameTail(a, b);
      OrderedUnique(leq, a[1..], b[1..]);
    }
  }

  lemma SortUnique<T(!new)>(leq: (T, T) -> bool, a: seq<T>, b: seq<T>)
    requires TotalOrder(leq)
    ensures Sort(leq, a) == Sort(leq, b) <==> multiset(a) == multiset(b)
  {
    SortOrdered(leq, a);
    SortOrdered(leq, b);
    if multiset(a) == multiset(b) {
      OrderedUnique(leq, Sort(leq, a), Sort(leq, b));
    }
  }

  /** Sorting keeps the elements, and keeps them distinct. */
  lemma SortMembers<T(!new)>(leq: (T, T) -> bool, s: seq<T>)
    requires TotalOrder(leq)
    ensures forall x :: x in Sort(leq, s) <==> x in s
    ensures Distinct(s) ==> Distinct(Sort(leq, s))
  {
    SortOrdered(leq, s);
    forall x
      ensures x in Sort(leq, s) <==> x in s
    {
      assert x in s <==> x in multiset(s);
      assert x in Sort(leq, s) <==> x in multiset(Sort(leq, s));
    }
    if Distinct(s) {
      forall x | x in multiset(s)
        ensures multiset(s)[x] == 1
      {
        DistinctCount(s, x);
      }
      CountDistinct(Sort(leq, s));
    }
  }

  lemma {:induction false} DistinctCount<T>(s: seq<T>, x: T)
    requires Distinct(s)
    ensures multiset(s)[x] == if x in s then 1 else 0
  {
    if s != [] {
      assert s == [s[0]] + s[1..];
      DistinctCount(s[1..], x);
    }
  }

  lemma {:induction false} CountDistinct<T>(s: seq<T>)
    requires forall x | x in multiset(s) :: multiset(s)[x] == 1
    ensures Distinct(s)
  {
    if s != [] {
      assert s == [s[0]] + s[1..];
      assert multiset(s) == multiset{s[0]} + multiset(s[1..]);
      forall x | x in multiset(s[1..])
        ensures multiset(s[1..])[x] == 1
      {
        assert x in multiset(s);
      }
      assert s[0] !in multiset(s[1..]) by {
        assert multiset(s)[s[0]] == 1 + multiset(s[1..])[s[0]];
      }
      CountDistinct(s[1..]);
      forall i, j | 0 <= i < j < |s|
        ensures s[i] != s[j]
      {
        assert s[j] == s[1..][j - 1];
        if i > 0 {
          assert s[i] == s[1..][i - 1];
        }
      }
    }
  }

  lemma DistinctAppend<T>(a: seq<T>, b: seq<T>)
    requires Distinct(a) && Distinct(b)
    requires forall x :: x in a ==> x !in b
    ensures Distinct(a + b)
  {
    forall i, j | 0 <= i < j < |a + b|
      ensures (a + b)[i] != (a + b)[j]
    {
      if i < |a| && |a| <= j {
        assert a[i] in a && b[j - |a|] in b;
      }
    }
  }

  /** The entries of s that are not in t. */
  function Without<T(==)>(s: seq<T>, t: seq<T>): seq<T> {
    if s == [] then [] else (if s[0] in t then [] else [s[0]]) + Without(s[1..], t)
  }

  lemma {:induction false} WithoutMembers<T>(s: seq<T>, t: seq<T>)
    ensures forall x :: x in Without(s, t) <==> x in s && x !in t
    ensures Distinct(s) ==> Distinct(Without(s, t))
  {
    if s != [] {
      WithoutMembers(s[1..], t);
    }
  }

  /** A distinct list has as many entries as its set of elements. */
  lemma {:induction false} DistinctSize<T>(s: seq<T>)
    requires Distinct(s)
    ensures |(set x | x in s)| == |s|
  {
    if s != [] {
      DistinctSize(s[1..]);
      assert (set x | x in s) == {s[0]} + (set x | x in s[1..]);
    }
  }

  /** Distinct numbers below n are at most n many. */
  lemma DistinctBelow(s: seq<int>, n: nat)
    requires Distinct(s) && forall x | x in s :: 0 <= x < n
    ensures |s| <= n
  {
    DistinctSize(s);
    BelowMembers(n);
    SubsetSize((set x | x in s), Below(n));
  }

  ghost function Below(n: nat): set<int> {
    if n == 0 then {} else Below(n - 1) + {n - 1}
  }

  lemma {:induction false} BelowMembers(n: nat)
    ensures |Below(n)| == n
    ensures forall x :: x in Below(n) <==> 0 <= x < n
  {
    if n > 0 {
      BelowMembers(n - 1);
    }
  }

  lemma {:induction false} SubsetSize<T>(a: set<T>, b: set<T>)
    requires a <= b
    ensures |a| <= |b|
  {
    if a != {} {
      var x :| x in a;
      SubsetSize(a - {x}, b - {x});
    }
  }

  lemma SubsetSame<T>(a: set<T>, b: set<T>)
    requires a <= b
    ensures |a| == |b| <==> a == b
  {
    assert b == a + (b - a);
  }

  lemma Element<T>(s: set<T>) returns (x: T)
    requires s != {}
    ensures x in s
  {
    x :| x in s;
  }

  /** Iterating over a set or over the keys of a dictionary, in no stated order. */
  method PickOne<T>(s: set<T>) returns (x: T)
    requires s != {}
    ensures x in s
  {
    x :| x in s;
  }
}

/**
 * The stream operations the core uses on lists: a stable sort by a string key
 * (Stream.sorted / sorted(comparing(key)), ordered by String.compareTo), filter and map.
 */
module Sequences {
  import opened Strings

  predicate SortedBy<T>(s: seq<T>, key: T -> string) {
    forall i, j :: 0 <= i < j < |s| ==> Le(key(s[i]), key(s[j]))
  }

  /** Every element occurs at most once (a Set, or a List of distinct instances). */
  ghost predicate NoDuplicates<T>(s: seq<T>) {
    forall x | x in s :: multiset(s)[x] == 1
  }

  /** Elements with equal keys are equal. */
  ghost predicate KeyInjective<T>(s: seq<T>, key: T -> string) {
    forall x, y :: x in s && y in s && key(x) == key(y) ==> x == y
  }

  /** Inserts x before the first element whose key is not below x's key. */
  function Insert<T>(x: T, s: seq<T>, key: T -> string): seq<T>
    decreases |s|
  {
    if |s| == 0 then [x]
    else if Le(key(x), key(s[0])) then [x] + s
    else [s[0]] + Insert(x, s[1..], key)
  }

  /** Insertion sort; an element is placed before later elements of equal key, so the
      sort is stable like the merge sort behind Stream.sorted. */
  function SortBy<T>(s: seq<T>, key: T -> string): seq<T>
    decreases |s|
  {
    if |s| == 0 then [] else Insert(s[0], SortBy(s[1..], key), key)
  }

  /** The sort of a short list, worked out. */
  lemma SortByShort<T>(p: T, q: T, r: T, key: T -> string)
    ensures SortBy([p], key) == [p]
    ensures SortBy([q, r], key) == Insert(q, [r], key)
    ensures SortBy([p, q, r], key) == Insert(p, Insert(q, [r], key), key)
  {
    assert [p][1..] == [] && [r][1..] == [];
    assert [q, r][1..] == [r];
    assert [p, q, r][1..] == [q, r];
  }

  /** Insertion into a one- or two-element list, worked out. */
  lemma InsertShort<T>(x: T, y: T, z: T, key: T -> string)
    ensures Insert(x, [y], key) == if Le(key(x), key(y)) then [x, y] else [y, x]
    ensures Insert(x, [y, z], key) == if Le(key(x), key(y)) then [x, y, z] else [y] + Insert(x, [z], key)
  {
    assert [y][1..] == [];
    assert [y, z][1..] == [z];
  }

  lemma SortedHead<T>(s: seq<T>, key: T -> string, y: T)
    requires SortedBy(s, key) && y in s
    ensures Le(key(s[0]), key(y))
  {
    if y == s[0] {
      LeReflexive(key(y));
    }
  }

  lemma SortedTail<T>(s: seq<T>, key: T -> string)
    requires SortedBy(s, key) && |s| > 0
    ensures SortedBy(s[1..], key)
  {
    forall i, j | 0 <= i < j < |s| - 1
      ensures Le(key(s[1..][i]), key(s[1..][j]))
    {
      assert s[1..][i] == s[i + 1] && s[1..][j] == s[j + 1];
    }
  }

  lemma {:induction false} InsertPermutes<T>(x: T, s: seq<T>, key: T -> string)
    ensures multiset(Insert(x, s, key)) == multiset(s) + multiset{x}
    decreases |s|
  {
    if |s| > 0 && !Le(key(x), key(s[0])) {
      InsertPermutes(x, s[1..], key);
      assert s == [s[0]] + s[1..];
    }
  }

  /** A sorted list stays sorted when an element no greater than all of it is put in front. */
  lemma SortedCons<T>(h: T, s: seq<T>, key: T -> string)
    requires SortedBy(s, key)
    requires forall y | y in s :: Le(key(h), key(y))
    ensures SortedBy([h] + s, key)
  {
    var r := [h] + s;
    forall i, j | 0 <= i < j < |r|
      ensures Le(key(r[i]), key(r[j]))
    {
      if i > 0 {
        assert r[i] == s[i - 1] && r[j] == s[j - 1];
      } else {
        assert r[j] == s[j - 1];
      }
    }
  }

  /** Every element of the sorted list is at least its head. */
  lemma SortedLowerBound<T>(s: seq<T>, key: T -> string)
    requires SortedBy(s, key) && |s| > 0
    ensures forall y | y in s :: Le(key(s[0]), key(y))
  {
    forall y | y in s
      ensures Le(key(s[0]), key(y))
    {
      SortedHead(s, key, y);
    }
  }

  /** A lower bound of x and of every element of s bounds every element of the insertion. */
  lemma InsertLowerBound<T>(x: T, s: seq<T>, key: T -> string, b: string)
    requires Le(b, key(x))
    requires forall y | y in s :: Le(b, key(y))
    ensures forall y | y in Insert(x, s, key) :: Le(b, key(y))
  {
    InsertPermutes(x, s, key);
    forall y | y in Insert(x, s, key)
      ensures Le(b, key(y))
    {
      assert y in multiset(Insert(x, s, key));
    }
  }

  lemma {:induction false} InsertSorted<T>(x: T, s: seq<T>, key: T -> string)
    requires SortedBy(s, key)
    ensures SortedBy(Insert(x, s, key), key)
    decreases |s|
  {
    if |s| == 0 {
    } else if Le(key(x), key(s[0])) {
      SortedLowerBound(s, key);
      forall y | y in s
        ensures Le(key(x), key(y))
      {
        LeTransitive(key(x), key(s[0]), key(y));
      }
      SortedCons(x, s, key);
    } else {
      SortedTail(s, key);
      InsertSorted(x, s[1..], key);
      LeTotal(key(x), key(s[0]));
      SortedLowerBound(s, key);
      assert forall y | y in s[1..] :: y in s;
      InsertLowerBound(x, s[1..], key, key(s[0]));
      SortedCons(s[0], Insert(x, s[1..], key), key);
    }
  }

  /** The sorted list is a permutation of its input. */
  lemma {:induction false} SortByPermutes<T>(s: seq<T>, key: T -> string)
    ensures multiset(SortBy(s, key)) == multiset(s)
    decreases |s|
  {
    if |s| > 0 {
      SortByPermutes(s[1..], key);
      InsertPermutes(s[0], SortBy(s[1..], key), key);
      assert s == [s[0]] + s[1..];
    }
  }

  /** The sorted list is in ascending key order. */
  lemma {:induction false} SortBySorted<T>(s: seq<T>, key: T -> string)
    ensures SortedBy(SortBy(s, key), key)
    decreases |s|
  {
    if |s| > 0 {
      SortBySorted(s[1..], key);
      InsertSorted(s[0], SortBy(s[1..], key), key);
    }
  }

  lemma SortByMembers<T>(s: seq<T>, key: T -> string)
    ensures |SortBy(s, key)| == |s|
    ensures forall x | x in SortBy(s, key) :: x in s
    ensures forall x | x in s :: x in SortBy(s, key)
  {
    SortByPermutes(s, key);
    assert |multiset(SortBy(s, key))| == |multiset(s)|;
    forall x | x in SortBy(s, key)
      ensures x in s
    {
      assert x in multiset(SortBy(s, key));
    }
    forall x | x in s
      ensures x in SortBy(s, key)
    {
      assert x in multiset(s);
    }
  }

  /** Sorting a list that is already in order leaves it as it is. */
  lemma {:induction false} SortByOfSorted<T>(s: seq<T>, key: T -> string)
    requires SortedBy(s, key)
    ensures SortBy(s, key) == s
    decreases |s|
  {
    if |s| > 0 {
      SortedTail(s, key);
      SortByOfSorted(s[1..], key);
      assert s == [s[0]] + s[1..];
      if |s| > 1 {
        assert Le(key(s[0]), key(s[1..][0]));
      }
    }
  }

  /** Two sorted permutations of each other coincide when no two elements share a key. */
  lemma {:induction false} SortedUnique<T>(a: seq<T>, b: seq<T>, key: T -> string)
    requires SortedBy(a, key) && SortedBy(b, key)
    requires multiset(a) == multiset(b)
    requires KeyInjective(a, key)
    ensures a == b
    decreases |a|
  {
    assert |a| == |multiset(a)| == |multiset(b)| == |b|;
    if |a| > 0 {
      assert b[0] in multiset(a) && a[0] in multiset(b);
      SortedHead(a, key, b[0]);
      SortedHead(b, key, a[0]);
      LeAntisymmetric(key(a[0]), key(b[0]));
      assert b[0] in a;
      assert a[0] == b[0];
      assert a == [a[0]] + a[1..];
      assert b == [b[0]] + b[1..];
      assert multiset(a[1..]) == multiset(a) - multiset{a[0]};
      assert multiset(b[1..]) == multiset(b) - multiset{b[0]};
      SortedTail(a, key);
      SortedTail(b, key);
      SortedUnique(a[1..], b[1..], key);
    }
  }

  /** Hence the sort's result depends only on the multiset of its input. */
  lemma SortByUnique<T>(s1: seq<T>, s2: seq<T>, key: T -> string)
    requires multiset(s1) == multiset(s2)
    requires KeyInjective(s1, key)
    ensures SortBy(s1, key) == SortBy(s2, key)
  {
    SortByPermutes(s1, key);
    SortByPermutes(s2, key);
    SortBySorted(s1, key);
    SortBySorted(s2, key);
    SortByMembers(s1, key);
    var sorted := SortBy(s1, key);
    forall x, y | x in sorted && y in sorted && key(x) == key(y)
      ensures x == y
    {
      assert x in s1 && y in s1;
    }
    SortedUnique(SortBy(s1, key), SortBy(s2, key), key);
  }

  /** The sort only looks at the keys of the elements it is given. */
  lemma {:induction false} SortByCongruent<T>(s: seq<T>, key1: T -> string, key2: T -> string)
    requires forall x :: x in s ==> key1(x) == key2(x)
    ensures SortBy(s, key1) == SortBy(s, key2)
    decreases |s|
  {
    if |s| > 0 {
      SortByCongruent(s[1..], key1, key2);
      SortByMembers(s[1..], key1);
      forall y | y in SortBy(s[1..], key1)
        ensures key1(y) == key2(y)
      {
        assert y in s[1..];
      }
      InsertCongruent(s[0], SortBy(s[1..], key1), key1, key2);
    }
  }

  lemma {:induction false} InsertCongruent<T>(x: T, s: seq<T>, key1: T -> string, key2: T -> string)
    requires key1(x) == key2(x)
    requires forall y :: y in s ==> key1(y) == key2(y)
    ensures Insert(x, s, key1) == Insert(x, s, key2)
    decreases |s|
  {
    if |s| > 0 {
      InsertCongruent(x, s[1..], key1, key2);
    }
  }

  /** Stream.filter: the elements satisfying p, in their original order. */
  function Filter<T>(s: seq<T>, p: T -> bool): seq<T>
    decreases |s|
  {
    if |s| == 0 then [] else (if p(s[0]) then [s[0]] else []) + Filter(s[1..], p)
  }

  /** The filter keeps exactly the elements satisfying p, and no more of them than s has. */
  lemma {:induction false} FilterMembers<T>(s: seq<T>, p: T -> bool)
    ensures forall x | x in Filter(s, p) :: x in s && p(x)
    ensures forall x | x in s && p(x) :: x in Filter(s, p)
    ensures |Filter(s, p)| <= |s|
    decreases |s|
  {
    if |s| > 0 {
      FilterMembers(s[1..], p);
      assert forall x | x in s[1..] :: x in s;
      assert s == [s[0]] + s[1..];
    }
  }

  /** Filtering distributes over concatenation, so it keeps the relative order. */
  lemma {:induction false} FilterAppend<T>(a: seq<T>, b: seq<T>, p: T -> bool)
    ensures Filter(a + b, p) == Filter(a, p) + Filter(b, p)
    decreases |a|
  {
    if |a| == 0 {
      assert a + b == b;
    } else {
      assert (a + b)[1..] == a[1..] + b;
      assert (a + b)[0] == a[0];
      FilterAppend(a[1..], b, p);
    }
  }

  /** An element kept by the filter occurs as often as in the input. */
  lemma {:induction false} FilterCount<T>(s: seq<T>, p: T -> bool, x: T)
    ensures multiset(Filter(s, p))[x] == if p(x) then multiset(s)[x] else 0
    decreases |s|
  {
    if |s| > 0 {
      FilterCount(s[1..], p, x);
      assert s == [s[0]] + s[1..];
    }
  }

  /** The first element of a sequence, found in a permutation of it: the rests are
      permutations of each other. */
  lemma PermutationHead<T>(s1: seq<T>, s2: seq<T>) returns (i: nat)
    requires |s1| > 0 && multiset(s1) == multiset(s2)
    ensures i < |s2| && s2[i] == s1[0]
    ensures multiset(s1[1..]) == multiset(s2[..i] + s2[i + 1..])
  {
    var x := s1[0];
    assert x in multiset(s2);
    i :| 0 <= i < |s2| && s2[i] == x;
    assert s2 == s2[..i] + [x] + s2[i + 1..];
    assert s1 == [x] + s1[1..];
    assert multiset(s1[1..]) == multiset(s1) - multiset{x};
    assert multiset(s2[..i] + s2[i + 1..]) == multiset(s2) - multiset{x};
  }

  lemma {:induction false} FilterPermutation<T>(s1: seq<T>, s2: seq<T>, p: T -> bool)
    requires multiset(s1) == multiset(s2)
    ensures multiset(Filter(s1, p)) == multiset(Filter(s2, p))
    decreases |s1|
  {
    if |s1| == 0 {
      assert |s2| == |multiset(s2)| == 0;
    } else {
      var x := s1[0];
      var i := PermutationHead(s1, s2);
      var rest2 := s2[..i] + s2[i + 1..];
      assert s2 == s2[..i] + [x] + s2[i + 1..];
      assert s1 == [x] + s1[1..];
      FilterPermutation(s1[1..], rest2, p);
      FilterAppend(s2[..i], [x], p);
      FilterAppend(s2[..i] + [x], s2[i + 1..], p);
      FilterAppend(s2[..i], s2[i + 1..], p);
      FilterAppend([x], s1[1..], p);
    }
  }

  lemma {:induction false} FilterCongruent<T>(s: seq<T>, p: T -> bool, q: T -> bool)
    requires forall x :: x in s ==> p(x) == q(x)
    ensures Filter(s, p) == Filter(s, q)
    decreases |s|
  {
    if |s| > 0 {
      FilterCongruent(s[1..], p, q);
    }
  }

  /** Mapping after filtering by a property of the image is filtering the image. */
  lemma {:induction false} MapFilter<T, U>(s: seq<T>, f: T -> U, p: U -> bool, q: T -> bool)
    requires forall x :: q(x) == p(f(x))
    ensures Map(Filter(s, q), f) == Filter(Map(s, f), p)
    decreases |s|
  {
    if |s| > 0 {
      MapFilter(s[1..], f, p, q);
      var head := if q(s[0]) then [s[0]] else [];
      MapAppend(head, Filter(s[1..], q), f);
      assert Map(s, f)[1..] == Map(s[1..], f);
      if q(s[0]) {
        assert Map(head, f) == [f(s[0])] + Map([], f);
      }
    }
  }

  /** The concatenation of f over the elements, in order (a loop appending f(x) for each x). */
  function FlatMap<T, U>(s: seq<T>, f: T -> seq<U>): seq<U>
    decreases |s|
  {
    if |s| == 0 then [] else FlatMap(s[..|s| - 1], f) + f(s[|s| - 1])
  }

  /** One more iteration of such a loop appends f of the next element. */
  lemma FlatMapStep<T, U>(s: seq<T>, f: T -> seq<U>, i: nat)
    requires i < |s|
    ensures FlatMap(s[..i + 1], f) == FlatMap(s[..i], f) + f(s[i])
  {
    assert s[..i + 1][..i] == s[..i];
  }

  /** The concatenation over a + b is the concatenation over a followed by that over b. */
  lemma {:induction false} FlatMapAppend<T, U>(a: seq<T>, b: seq<T>, f: T -> seq<U>)
    ensures FlatMap(a + b, f) == FlatMap(a, f) + FlatMap(b, f)
    decreases |b|
  {
    if |b| == 0 {
      assert a + b == a;
    } else {
      var n := |b| - 1;
      assert (a + b)[..|a| + n] == a + b[..n];
      assert (a + b)[|a| + n] == b[n];
      FlatMapAppend(a, b[..n], f);
    }
  }

  /** Mapping the concatenation over x :: s: the image of f(x), then that of the rest. */
  lemma MapFlatMapCons<T, U, V>(x: T, s: seq<T>, f: T -> seq<U>, h: U -> V)
    ensures Map(FlatMap([x] + s, f), h) == Map(f(x), h) + Map(FlatMap(s, f), h)
  {
    FlatMapAppend([x], s, f);
    assert FlatMap([x], f) == f(x) by {
      assert [x][..0] == [];
    }
    MapAppend(f(x), FlatMap(s, f), h);
  }

  /** An element of the concatenation comes from the image of some element. */
  lemma {:induction false} FlatMapMembers<T, U>(s: seq<T>, f: T -> seq<U>, y: U)
    ensures y in FlatMap(s, f) <==> exists x :: x in s && y in f(x)
    decreases |s|
  {
    if |s| > 0 {
      var n := |s| - 1;
      FlatMapMembers(s[..n], f, y);
      assert s == s[..n] + [s[n]];
      if y in f(s[n]) {
        assert s[n] in s;
      }
      if y !in FlatMap(s, f) {
        forall x | x in s
          ensures y !in f(x)
        {
          if x != s[n] {
            assert x in s[..n];
          }
        }
      }
    }
  }

  /** Concatenations whose pieces have the same images have the same image. */
  lemma {:induction false} FlatMapMapCongruent<T, U, V>(s: seq<T>, f1: T -> seq<U>, f2: T -> seq<U>, h: U -> V)
    requires forall x | x in s :: Map(f1(x), h) == Map(f2(x), h)
    ensures Map(FlatMap(s, f1), h) == Map(FlatMap(s, f2), h)
    decreases |s|
  {
    if |s| > 0 {
      var n := |s| - 1;
      assert forall x | x in s[..n] :: x in s;
      FlatMapMapCongruent(s[..n], f1, f2, h);
      MapAppend(FlatMap(s[..n], f1), f1(s[n]), h);
      MapAppend(FlatMap(s[..n], f2), f2(s[n]), h);
    }
  }

  /** FlatMap only looks at f on the elements it is given. */
  lemma {:induction false} FlatMapCongruent<T, U>(s: seq<T>, f1: T -> seq<U>, f2: T -> seq<U>)
    requires forall x | x in s :: f1(x) == f2(x)
    ensures FlatMap(s, f1) == FlatMap(s, f2)
    decreases |s|
  {
    if |s| > 0 {
      var n := |s| - 1;
      assert forall x | x in s[..n] :: x in s;
      FlatMapCongruent(s[..n], f1, f2);
    }
  }

  /** Ascending by key and, among elements of equal key, ascending by key2. */
  predicate LexSortedBy<T>(s: seq<T>, key: T -> string, key2: T -> string) {
    forall i, j :: 0 <= i < j < |s| ==>
      Le(key(s[i]), key(s[j])) && (key(s[i]) == key(s[j]) ==> Le(key2(s[i]), key2(s[j])))
  }

  /** Strictly ascending keys: no two elements share a key. */
  predicate StrictlySortedBy<T>(s: seq<T>, key: T -> string) {
    forall i, j :: 0 <= i < j < |s| ==> Less(key(s[i]), key(s[j]))
  }

  /** The concatenation is sorted by g when s is sorted by key and every element f makes
      of x carries x's key under g. */
  lemma {:induction false} FlatMapSorted<T, U>(s: seq<T>, f: T -> seq<U>, key: T -> string, g: U -> string)
    requires SortedBy(s, key)
    requires forall x, y | x in s && y in f(x) :: g(y) == key(x)
    ensures SortedBy(FlatMap(s, f), g)
    decreases |s|
  {
    if |s| > 0 {
      var n := |s| - 1;
      var a := FlatMap(s[..n], f);
      var b := f(s[n]);
      assert forall x | x in s[..n] :: x in s;
      assert SortedBy(s[..n], key);
      FlatMapSorted(s[..n], f, key, g);
      var r := a + b;
      forall i, j | 0 <= i < j < |r|
        ensures Le(g(r[i]), g(r[j]))
      {
        if j < |a| {
          assert r[i] == a[i] && r[j] == a[j];
        } else if |a| <= i {
          assert r[i] == b[i - |a|] && r[j] == b[j - |a|];
          LeReflexive(key(s[n]));
        } else {
          assert r[i] == a[i] && r[j] == b[j - |a|];
          FlatMapMembers(s[..n], f, a[i]);
          var x :| x in s[..n] && a[i] in f(x);
          var m :| 0 <= m < n && s[..n][m] == x;
          assert s[m] == x;
        }
      }
    }
  }

  /** Every element made from a strictly earlier element of s has a strictly smaller group. */
  lemma FlatMapGroupBelow<T, U>(s: seq<T>, f: T -> seq<U>, key: T -> string, group: U -> string, n: nat, y: U)
    requires n < |s| && StrictlySortedBy(s, key)
    requires forall x, z | x in s && z in f(x) :: group(z) == key(x)
    requires y in FlatMap(s[..n], f)
    ensures Less(group(y), key(s[n]))
  {
    FlatMapMembers(s[..n], f, y);
    var x :| x in s[..n] && y in f(x);
    var m :| 0 <= m < n && s[..n][m] == x;
    assert s[m] == x;
  }

  /** The concatenation is ascending by group, and by key2 within a group, when s has
      strictly ascending keys, every element f makes of x has x's key as its group, and
      each f(x) is sorted by key2. */
  lemma {:induction false} FlatMapLexSorted<T, U>(s: seq<T>, f: T -> seq<U>, key: T -> string,
                                                  group: U -> string, key2: U -> string)
    requires StrictlySortedBy(s, key)
    requires forall x, y | x in s && y in f(x) :: group(y) == key(x)
    requires forall x | x in s :: SortedBy(f(x), key2)
    ensures LexSortedBy(FlatMap(s, f), group, key2)
    decreases |s|
  {
    if |s| > 0 {
      var n := |s| - 1;
      var a := FlatMap(s[..n], f);
      var b := f(s[n]);
      assert forall x | x in s[..n] :: x in s;
      assert StrictlySortedBy(s[..n], key);
      FlatMapLexSorted(s[..n], f, key, group, key2);
      var r := a + b;
      forall i, j | 0 <= i < j < |r|
        ensures Le(group(r[i]), group(r[j]))
        ensures group(r[i]) == group(r[j]) ==> Le(key2(r[i]), key2(r[j]))
      {
        if j < |a| {
          assert r[i] == a[i] && r[j] == a[j];
        } else if |a| <= i {
          assert r[i] == b[i - |a|] && r[j] == b[j - |a|];
          LeReflexive(key(s[n]));
        } else {
          assert r[i] == a[i] && r[j] == b[j - |a|];
          FlatMapGroupBelow(s, f, key, group, n, a[i]);
          CompareToZero(group(a[i]), key(s[n]));
        }
      }
    }
  }

  /** In a list without duplicates, different positions hold different elements. */
  lemma NoDuplicatesDistinct<T>(s: seq<T>, i: nat, j: nat)
    requires NoDuplicates(s) && i < j < |s|
    ensures s[i] != s[j]
  {
    var x := s[i];
    assert s == s[..j] + s[j..];
    assert x in s[..j] && s[j] in s[j..];
    assert multiset(s)[x] == multiset(s[..j])[x] + multiset(s[j..])[x];
  }

  /** A sorted list of distinct elements with distinct keys has strictly ascending keys. */
  lemma SortedStrictly<T>(s: seq<T>, key: T -> string)
    requires SortedBy(s, key) && NoDuplicates(s) && KeyInjective(s, key)
    ensures StrictlySortedBy(s, key)
  {
    forall i, j | 0 <= i < j < |s|
      ensures Less(key(s[i]), key(s[j]))
    {
      NoDuplicatesDistinct(s, i, j);
      CompareToZero(key(s[i]), key(s[j]));
    }
  }

  /** Sorting keeps the absence of duplicates and of shared keys. */
  lemma SortByDistinct<T>(s: seq<T>, key: T -> string)
    requires NoDuplicates(s) && KeyInjective(s, key)
    ensures NoDuplicates(SortBy(s, key)) && KeyInjective(SortBy(s, key), key)
  {
    SortByPermutes(s, key);
    SortByMembers(s, key);
  }

  /** Stream.map. */
  function Map<T, U>(s: seq<T>, f: T -> U): seq<U>
    decreases |s|
  {
    if |s| == 0 then [] else [f(s[0])] + Map(s[1..], f)
  }

  /** The image has one element per element of s: the image of that element. */
  lemma {:induction false} MapAt<T, U>(s: seq<T>, f: T -> U)
    ensures |Map(s, f)| == |s|
    ensures forall i | 0 <= i < |s| :: Map(s, f)[i] == f(s[i])
    decreases |s|
  {
    if |s| > 0 {
      MapAt(s[1..], f);
      forall i | 0 < i < |s|
        ensures Map(s, f)[i] == f(s[i])
      {
        assert s[1..][i - 1] == s[i];
      }
    }
  }

  lemma {:induction false} MapAppend<T, U>(a: seq<T>, b: seq<T>, f: T -> U)
    ensures Map(a + b, f) == Map(a, f) + Map(b, f)
    decreases |a|
  {
    if |a| == 0 {
      assert a + b == b;
    } else {
      assert (a + b)[1..] == a[1..] + b;
      assert (a + b)[0] == a[0];
      MapAppend(a[1..], b, f);
    }
  }

  /** Map only looks at f on the elements it is given. */
  lemma {:induction false} MapCongruent<T, U>(s: seq<T>, f1: T -> U, f2: T -> U)
    requires forall x | x in s :: f1(x) == f2(x)
    ensures Map(s, f1) == Map(s, f2)
    decreases |s|
  {
    if |s| > 0 {
      assert forall x | x in s[1..] :: x in s;
      MapCongruent(s[1..], f1, f2);
    }
  }

  /** Mapping two permutations of each other gives two permutations of each other. */
  lemma {:induction false} MapPermutation<T, U>(s1: seq<T>, s2: seq<T>, f: T -> U)
    requires multiset(s1) == multiset(s2)
    ensures multiset(Map(s1, f)) == multiset(Map(s2, f))
    decreases |s1|
  {
    if |s1| == 0 {
      assert |s2| == |multiset(s2)| == 0;
    } else {
      var x := s1[0];
      var i := PermutationHead(s1, s2);
      var rest2 := s2[..i] + s2[i + 1..];
      assert s2 == s2[..i] + [x] + s2[i + 1..];
      assert s1 == [x] + s1[1..];
      MapPermutation(s1[1..], rest2, f);
      MapAppend(s2[..i], [x], f);
      MapAppend(s2[..i] + [x], s2[i + 1..], f);
      MapAppend(s2[..i], s2[i + 1..], f);
      MapAppend([x], s1[1..], f);
    }
  }

  /** Seven elements in groups of two, two and three. */
  lemma Concatenation<R>(r1: R, r2: R, r3: R, r4: R, r5: R, r6: R, r7: R)
    ensures [r1, r2] + ([r3, r4] + ([r5, r6, r7] + [])) == [r1, r2, r3, r4, r5, r6, r7]
  {
  }
}

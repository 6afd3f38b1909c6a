/** Sorting by a comparison, and when the result is the only sorted arrangement. */
module Sorting {

  /** less orders the members of s: no two are each before the other, and being no earlier is transitive. */
  ghost predicate OrdersMembers<T(!new)>(s: multiset<T>, less: (T, T) -> bool)
  {
    && (forall a, b :: a in s && b in s && less(a, b) ==> !less(b, a))
    && (forall a, b, c :: a in s && b in s && c in s && less(a, c) ==> less(a, b) || less(b, c))
  }

  ghost predicate NoneBefore<T>(x: T, s: seq<T>, less: (T, T) -> bool)
  {
    forall y :: y in s ==> !less(y, x)
  }

  ghost predicate Sorted<T>(s: seq<T>, less: (T, T) -> bool)
  {
    s != [] ==> NoneBefore(s[0], s[1..], less) && Sorted(s[1..], less)
  }

  function Insert<T>(x: T, s: seq<T>, less: (T, T) -> bool): (r: seq<T>)
    ensures multiset(r) == multiset(s) + multiset{x}
  {
    if s == [] then [x]
    else if less(s[0], x) then
      assert s == [s[0]] + s[1..];
      [s[0]] + Insert(x, s[1..], less)
    else [x] + s
  }

  /** A stable insertion sort; the program's own sort is the library's. */
  function Sort<T>(s: seq<T>, less: (T, T) -> bool): (r: seq<T>)
    ensures multiset(r) == multiset(s)
  {
    if s == [] then [] else
      assert s == [s[0]] + s[1..];
      Insert(s[0], Sort(s[1..], less), less)
  }

  lemma OrdersFewer<T(!new)>(s: multiset<T>, t: multiset<T>, less: (T, T) -> bool)
    requires OrdersMembers(s, less) && forall x :: x in t ==> x in s
    ensures OrdersMembers(t, less)
  {
  }

  /** What stands before a sorted sequence's head stands before all of it. */
  lemma PutFirst<T(!new)>(x: T, s: seq<T>, less: (T, T) -> bool)
    requires OrdersMembers(multiset(s) + multiset{x}, less) && Sorted(s, less) && s != [] && !less(s[0], x)
    ensures Sorted([x] + s, less)
  {
    var all := multiset(s) + multiset{x};
    assert x in all && s[0] in all;
    forall y | y in s
      ensures !less(y, x)
    {
      if y != s[0] {
        assert y in all && y in s[1..];
        assert !less(y, s[0]);
      }
    }
    assert ([x] + s)[1..] == s;
  }

  lemma {:induction false} InsertSorts<T(!new)>(x: T, s: seq<T>, less: (T, T) -> bool)
    requires OrdersMembers(multiset(s) + multiset{x}, less) && Sorted(s, less)
    ensures Sorted(Insert(x, s, less), less)
  {
    hide OrdersMembers;
    if s == [] {
    } else if less(s[0], x) {
      assert s == [s[0]] + s[1..];
      OrdersFewer(multiset(s) + multiset{x}, multiset(s[1..]) + multiset{x}, less);
      InsertSorts(x, s[1..], less);
      var rest := Insert(x, s[1..], less);
      NotBoth(multiset(s) + multiset{x}, s[0], x, less);
      forall y | y in rest
        ensures !less(y, s[0])
      {
        assert y in multiset(rest);
        assert y == x || y in s[1..];
      }
      assert ([s[0]] + rest)[1..] == rest;
    } else {
      PutFirst(x, s, less);
    }
  }

  lemma NotBoth<T(!new)>(s: multiset<T>, a: T, b: T, less: (T, T) -> bool)
    requires OrdersMembers(s, less) && a in s && b in s && less(a, b)
    ensures !less(b, a)
  {
  }

  lemma {:induction false} SortSorts<T(!new)>(s: seq<T>, less: (T, T) -> bool)
    requires OrdersMembers(multiset(s), less)
    ensures Sorted(Sort(s, less), less)
  {
    hide OrdersMembers, NoneBefore, Insert;
    if s != [] {
      assert s == [s[0]] + s[1..];
      OrdersFewer(multiset(s), multiset(s[1..]), less);
      SortSorts(s[1..], less);
      assert multiset(Sort(s[1..], less)) + multiset{s[0]} == multiset(s);
      InsertSorts(s[0], Sort(s[1..], less), less);
    }
  }

  /** In a sorted sequence nothing later stands before anything earlier. */
  lemma {:induction false} SortedPair<T>(s: seq<T>, i: nat, j: nat, less: (T, T) -> bool)
    requires Sorted(s, less) && i < j < |s|
    ensures !less(s[j], s[i])
    decreases i
  {
    if i > 0 {
      SortedPair(s[1..], i - 1, j - 1, less);
    } else {
      assert s[1..][j - 1] == s[j];
    }
  }

  /** A sequence of the members of a set repeats none. */
  lemma NoneTwice<T>(s: seq<T>, members: set<T>, i: nat, j: nat)
    requires multiset(s) == multiset(members) && i < j < |s|
    ensures s[i] != s[j] && s[i] in members
  {
    assert s == s[..j] + [s[j]] + s[j + 1..];
    assert s[i] in s[..j];
    assert multiset(s)[s[j]] <= 1;
    assert s[i] in multiset(s);
  }

  lemma SortedHead<T(!new)>(a: seq<T>, x: T, less: (T, T) -> bool)
    requires Sorted(a, less) && a != [] && x in a && OrdersMembers(multiset(a), less)
    ensures !less(x, a[0])
  {
    if x != a[0] {
      assert x in a[1..];
    } else {
      assert x in multiset(a);
    }
  }

  /** Members that tie are equal. */
  ghost predicate NoTies<T(!new)>(s: multiset<T>, less: (T, T) -> bool)
  {
    forall x, y :: x in s && y in s && !less(x, y) && !less(y, x) ==> x == y
  }

  lemma SortedTail<T(!new)>(a: seq<T>, less: (T, T) -> bool)
    requires Sorted(a, less) && a != []
    ensures Sorted(a[1..], less)
  {
  }

  lemma NoTiesFewer<T(!new)>(s: multiset<T>, t: multiset<T>, less: (T, T) -> bool)
    requires NoTies(s, less) && t <= s
    ensures NoTies(t, less)
  {
  }

  lemma SameHead<T(!new)>(a: seq<T>, b: seq<T>, less: (T, T) -> bool)
    requires multiset(a) == multiset(b) && Sorted(a, less) && Sorted(b, less) && a != []
    requires OrdersMembers(multiset(a), less) && NoTies(multiset(a), less)
    ensures b != [] && a[0] == b[0]
  {
    hide OrdersMembers;
    assert |multiset(b)| == |multiset(a)| > 0;
    assert a[0] in multiset(b) && b[0] in multiset(a);
    SortedHead(a, b[0], less);
    SortedHead(b, a[0], less);
  }

  /** Without ties a multiset has only one sorted arrangement. */
  lemma {:induction false} SortedUnique<T(!new)>(a: seq<T>, b: seq<T>, less: (T, T) -> bool)
    requires multiset(a) == multiset(b) && Sorted(a, less) && Sorted(b, less)
    requires OrdersMembers(multiset(a), less) && NoTies(multiset(a), less)
    ensures a == b
  {
    hide OrdersMembers, NoTies, Sorted;
    if a == [] {
      assert |multiset(b)| == 0;
    } else {
      SameHead(a, b, less);
      assert a == [a[0]] + a[1..] && b == [b[0]] + b[1..];
      assert multiset(a[1..]) == multiset(a) - multiset{a[0]};
      assert multiset(b[1..]) == multiset(b) - multiset{b[0]};
      OrdersFewer(multiset(a), multiset(a[1..]), less);
      NoTiesFewer(multiset(a), multiset(a[1..]), less);
      SortedTail(a, less);
      SortedTail(b, less);
      SortedUnique(a[1..], b[1..], less);
    }
  }
}

/** Sums of an integer-valued function over a finite set, independent of the order of summation. */
module Sums {

  lemma SomeMember<T>(s: set<T>) returns (x: T)
    requires s != {}
    ensures x in s
  {
    x :| x in s;
  }

  ghost function Sum<T>(s: set<T>, f: T -> int): int
  {
    if s == {} then 0 else
      var x :| x in s;
      f(x) + Sum(s - {x}, f)
  }

  /** Any element may be taken out first: this is what makes Sum independent of order. */
  lemma {:induction false} SumPick<T>(s: set<T>, x: T, f: T -> int)
    requires x in s
    ensures Sum(s, f) == f(x) + Sum(s - {x}, f)
    decreases |s|
  {
    var y :| y in s && Sum(s, f) == f(y) + Sum(s - {y}, f);
    if y != x {
      SumPick(s - {y}, x, f);
      SumPick(s - {x}, y, f);
      assert s - {y} - {x} == s - {x} - {y};
    }
  }

  lemma SumInsert<T>(s: set<T>, x: T, f: T -> int)
    requires x !in s
    ensures Sum(s + {x}, f) == f(x) + Sum(s, f)
  {
    SumPick(s + {x}, x, f);
    assert s + {x} - {x} == s;
  }

  /** Functions that agree on the set have the same sum. */
  lemma {:induction false} SumSame<T>(s: set<T>, f: T -> int, g: T -> int)
    requires forall x :: x in s ==> f(x) == g(x)
    ensures Sum(s, f) == Sum(s, g)
    decreases |s|
  {
    if s != {} {
      var x :| x in s;
      SumPick(s, x, f);
      SumPick(s, x, g);
      SumSame(s - {x}, f, g);
    }
  }

  /** Changing a function at one element of the set moves the sum by the difference there. */
  lemma SumChangeOne<T>(s: set<T>, x: T, f: T -> int, g: T -> int)
    requires x in s
    requires forall y :: y in s && y != x ==> f(y) == g(y)
    ensures Sum(s, g) == Sum(s, f) - f(x) + g(x)
  {
    SumPick(s, x, f);
    SumPick(s, x, g);
    SumSame(s - {x}, f, g);
  }

  lemma {:induction false} SumZero<T>(s: set<T>, f: T -> int)
    requires forall x :: x in s ==> f(x) == 0
    ensures Sum(s, f) == 0
    decreases |s|
  {
    if s != {} {
      var x :| x in s;
      SumPick(s, x, f);
      SumZero(s - {x}, f);
    }
  }

  lemma {:induction false} SumNonNegative<T>(s: set<T>, f: T -> int)
    requires forall x :: x in s ==> f(x) >= 0
    ensures Sum(s, f) >= 0
    decreases |s|
  {
    if s != {} {
      var x :| x in s;
      SumPick(s, x, f);
      SumNonNegative(s - {x}, f);
    }
  }

  /** No term of a sum without negative terms exceeds the sum. */
  lemma {:induction false} SumAtLeast<T>(s: set<T>, x: T, f: T -> int)
    requires x in s
    requires forall y :: y in s ==> f(y) >= 0
    ensures Sum(s, f) >= f(x)
  {
    SumPick(s, x, f);
    SumNonNegative(s - {x}, f);
  }

  /** A sum of ones and zeros counts the ones. */
  lemma {:induction false} SumOfMarks<T>(s: set<T>, marked: set<T>, f: T -> int)
    requires marked <= s && forall x :: x in s ==> f(x) == if x in marked then 1 else 0
    ensures Sum(s, f) == |marked|
    decreases |s|
  {
    if s == {} {
      assert marked == {};
    } else {
      var x := SomeMember(s);
      SumPick(s, x, f);
      SumOfMarks(s - {x}, marked - {x}, f);
    }
  }
}

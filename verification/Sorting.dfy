/** Sorting by a strict order under which the elements to sort are pairwise comparable: the result is then
    the only sorted arrangement, whatever order the elements came in. */
module Sorting {
  import opened KeyEncoding

  ghost predicate StrictOrder<T(!new)>(less: (T, T) -> bool)
  {
    && (forall x :: !less(x, x))
    && (forall x, y, z :: less(x, y) && less(y, z) ==> less(x, z))
  }

  ghost predicate Sorted<T>(less: (T, T) -> bool, s: seq<T>)
  {
    forall i, j :: 0 <= i < j < |s| ==> less(s[i], s[j])
  }

  ghost predicate Comparable<T(!new)>(less: (T, T) -> bool, s: set<T>)
  {
    forall x, y :: x in s && y in s && x != y ==> less(x, y) || less(y, x)
  }

  ghost predicate Lists<T(!new)>(s: seq<T>, elements: set<T>)
  {
    forall x :: x in s <==> x in elements
  }

  function Insert<T>(less: (T, T) -> bool, x: T, s: seq<T>): seq<T>
  {
    if s == [] || less(x, s[0]) then [x] + s else [s[0]] + Insert(less, x, s[1..])
  }

  lemma {:induction false} InsertLists<T>(less: (T, T) -> bool, x: T, s: seq<T>)
    ensures forall y :: y in Insert(less, x, s) <==> y == x || y in s
  {
    if s != [] && !less(x, s[0]) {
      InsertLists(less, x, s[1..]);
      assert s == [s[0]] + s[1..];
    }
  }

  lemma {:induction false} InsertSorted<T(!new)>(less: (T, T) -> bool, x: T, s: seq<T>)
    requires StrictOrder(less) && Sorted(less, s)
    requires forall y :: y in s ==> less(x, y) || less(y, x)
    ensures Sorted(less, Insert(less, x, s))
  {
    if s == [] {
    } else if less(x, s[0]) {
      assert forall j :: 0 < j < |s| ==> less(s[0], s[j]);
    } else {
      assert forall y :: y in s[1..] ==> y in s;
      InsertSorted(less, x, s[1..]);
      InsertLists(less, x, s[1..]);
      forall y | y in Insert(less, x, s[1..])
        ensures less(s[0], y)
      {
        assert s[0] in s;
      }
    }
  }

  /** The elements of a set in sorted order, taken from the set in any order. */
  method SortSet<T(!new, ==)>(less: (T, T) -> bool, elements: set<T>) returns (r: seq<T>)
    requires StrictOrder(less) && Comparable(less, elements)
    ensures Sorted(less, r) && Lists(r, elements)
  {
    r := [];
    var rest := elements;
    while rest != {}
      invariant rest <= elements && Sorted(less, r) && Lists(r, elements - rest)
      decreases rest
    {
      var x :| x in rest;
      rest := rest - {x};
      InsertSorted(less, x, r);
      InsertLists(less, x, r);
      r := Insert(less, x, r);
    }
    assert elements - rest == elements;
  }

  /** Every set of comparable elements has a sorted arrangement. */
  lemma {:induction false} SortedExists<T(!new)>(less: (T, T) -> bool, elements: set<T>) returns (r: seq<T>)
    requires StrictOrder(less) && Comparable(less, elements)
    ensures Sorted(less, r) && Lists(r, elements)
    decreases elements
  {
    r := [];
    if elements != {} {
      var x :| x in elements;
      var rest := SortedExists(less, elements - {x});
      InsertSorted(less, x, rest);
      InsertLists(less, x, rest);
      r := Insert(less, x, rest);
    }
  }

  lemma {:induction false} SortedUnique<T(!new)>(less: (T, T) -> bool, a: seq<T>, b: seq<T>)
    requires StrictOrder(less) && Sorted(less, a) && Sorted(less, b)
    requires forall x :: x in a <==> x in b
    ensures a == b
  {
    HeadIn(a);
    HeadIn(b);
    if a != [] {
      assert a[0] == b[0];
      forall x
        ensures x in a[1..] <==> x in b[1..]
      {
        TailOfSorted(less, a, x);
        TailOfSorted(less, b, x);
      }
      SortedUnique(less, a[1..], b[1..]);
      assert a == [a[0]] + a[1..] && b == [b[0]] + b[1..];
    }
  }

  lemma HeadIn<T>(s: seq<T>)
    ensures s == [] || s[0] in s
  {}

  lemma TailOfSorted<T(!new)>(less: (T, T) -> bool, a: seq<T>, x: T)
    requires StrictOrder(less) && Sorted(less, a) && a != []
    ensures x in a[1..] <==> x in a && x != a[0]
  {
    if x in a && x != a[0] {
      var i :| 0 <= i < |a| && a[i] == x;
      assert a[1..][i - 1] == x;
    }
    if x in a[1..] {
      var i :| 0 <= i < |a[1..]| && a[1..][i] == x;
      assert less(a[0], a[i + 1]);
    }
  }

  // ---- Strings ----

  lemma StringOrder()
    ensures StrictOrder(Less) && forall s: set<string> :: Comparable(Less, s)
  {
    hide Less;
    forall x: string
      ensures !Less(x, x)
    {
      LessIrreflexive(x);
    }
    forall x: string, y: string, z: string | Less(x, y) && Less(y, z)
      ensures Less(x, z)
    {
      LessTransitive(x, y, z);
    }
    forall x: string, y: string
      ensures x == y || Less(x, y) || Less(y, x)
    {
      LessTotal(x, y);
    }
  }

  method SortStrings(strings: set<string>) returns (r: seq<string>)
    ensures Sorted(Less, r) && Lists(r, strings)
  {
    hide Less, StrictOrder, Comparable;
    StringOrder();
    r := SortSet(Less, strings);
  }

  lemma SortedListExists(strings: set<string>)
    ensures exists r :: Sorted(Less, r) && Lists(r, strings)
  {
    hide Less, StrictOrder, Comparable;
    StringOrder();
    var r := SortedExists(Less, strings);
  }

  /** The one sorted list of a set of strings. */
  ghost function SortedList(strings: set<string>): (r: seq<string>)
    ensures Sorted(Less, r) && Lists(r, strings)
  {
    SortedListExists(strings);
    var r :| Sorted(Less, r) && Lists(r, strings);
    r
  }

  lemma SameList(r: seq<string>, strings: set<string>)
    requires Sorted(Less, r) && Lists(r, strings)
    ensures r == SortedList(strings)
  {
    hide Less, StrictOrder;
    StringOrder();
    SortedUnique(Less, r, SortedList(strings));
  }
}

/** Sorting by a comparison that may fail, as Python's `sorted` does when two elements
    cannot be compared. */
module Sorting {
  import opened Options

  /** The comparison `a < b`; None when it raises an error. */
  type Comparison<!T> = (T, T) -> Option<bool>

  predicate Le<T>(less: Comparison<T>, a: T, b: T) { less(b, a) == Some(false) }

  ghost predicate Orders<T(!new)>(less: Comparison<T>) {
    && (forall a :: less(a, a) == Some(false))
    && (forall a, b :: less(a, b).None? <==> less(b, a).None?)
    && (forall a, b :: less(a, b) == Some(true) ==> Le(less, a, b))
    && (forall a, b :: Le(less, a, b) && Le(less, b, a) ==> a == b)
    && (forall a, b, c :: Le(less, a, b) && Le(less, b, c) ==> Le(less, a, c))
  }

  ghost predicate Comparable<T(!new)>(less: Comparison<T>, x: T, s: seq<T>) {
    forall y :: y in s ==> less(x, y).Some?
  }

  /** No comparison within `s` fails. */
  ghost predicate AllComparable<T(!new)>(less: Comparison<T>, s: seq<T>) {
    forall x :: x in s ==> Comparable(less, x, s)
  }

  predicate Ordered<T>(less: Comparison<T>, s: seq<T>) {
    forall i, j :: 0 <= i < j < |s| ==> Le(less, s[i], s[j])
  }

  function Insert<T>(less: Comparison<T>, x: T, s: seq<T>): Option<seq<T>> {
    if s == [] then Some([x])
    else
      match less(x, s[0])
      case None => None
      case Some(true) => Some([x] + s)
      case Some(false) =>
        match Insert(less, x, s[1..])
        case None => None
        case Some(rest) => Some([s[0]] + rest)
  }

  function Sort<T>(less: Comparison<T>, s: seq<T>): Option<seq<T>> {
    if s == [] then Some([])
    else
      match Sort(less, s[..|s| - 1])
      case None => None
      case Some(rest) => Insert(less, s[|s| - 1], rest)
  }

  lemma OrderedRest<T(!new)>(less: Comparison<T>, s: seq<T>)
    requires s != [] && Ordered(less, s)
    ensures Ordered(less, s[1..])
    ensures forall y :: y in s[1..] ==> Le(less, s[0], y)
  {
  }

  lemma OrderedFirst<T(!new)>(less: Comparison<T>, x: T, s: seq<T>)
    requires Ordered(less, s) && forall y :: y in s ==> Le(less, x, y)
    ensures Ordered(less, [x] + s)
  {
    var all := [x] + s;
    assert forall i :: 0 < i < |all| ==> all[i] == s[i - 1] && all[i] in s;
  }

  lemma {:induction false} InsertElements<T(!new)>(less: Comparison<T>, x: T, s: seq<T>)
    ensures Insert(less, x, s).Some? ==> multiset(Insert(less, x, s).value) == multiset(s) + multiset{x}
  {
    if s != [] {
      InsertElements(less, x, s[1..]);
      assert s == [s[0]] + s[1..];
    }
  }

  lemma {:induction false} InsertOrders<T(!new)>(less: Comparison<T>, x: T, s: seq<T>)
    requires Orders(less) && Ordered(less, s)
    ensures Insert(less, x, s).Some? <==> Comparable(less, x, s)
    ensures Insert(less, x, s).Some? ==> Ordered(less, Insert(less, x, s).value)
  {
    hide Ordered;
    if s == [] {
      OrderedFirst(less, x, s);
      assert [x] + s == [x];
    } else {
      OrderedRest(less, s);
      var rest := Insert(less, x, s[1..]);
      InsertOrders(less, x, s[1..]);
      InsertElements(less, x, s[1..]);
      assert forall y :: y in s <==> y == s[0] || y in s[1..];
      if less(x, s[0]) == Some(true) {
        assert forall y :: y in s ==> Le(less, x, y);
        OrderedFirst(less, x, s);
      } else if less(x, s[0]) == Some(false) && rest.Some? {
        forall y | y in rest.value ensures Le(less, s[0], y) {
          assert y in multiset(rest.value);
        }
        OrderedFirst(less, s[0], rest.value);
      }
    }
  }

  /** The sort fails exactly when two of the elements cannot be compared, and otherwise
      puts all of them in order. */
  lemma {:induction false} SortOrders<T(!new)>(less: Comparison<T>, s: seq<T>)
    requires Orders(less)
    ensures Sort(less, s).Some? <==> AllComparable(less, s)
    ensures Sort(less, s).Some? ==>
              Ordered(less, Sort(less, s).value) && multiset(Sort(less, s).value) == multiset(s)
  {
    if s != [] {
      hide Ordered, Insert, Orders;
      var n := |s| - 1;
      var front := Sort(less, s[..n]);
      SortOrders(less, s[..n]);
      assert s == s[..n] + [s[n]];
      if front.Some? {
        InsertOrders(less, s[n], front.value);
        InsertElements(less, s[n], front.value);
        SameElements(s[..n], front.value);
        ComparableStep(less, s);
      } else {
        ComparableStep(less, s);
      }
    }
  }

  lemma SameElements<T>(a: seq<T>, b: seq<T>)
    requires multiset(a) == multiset(b)
    ensures forall x :: x in a <==> x in b
  {
    forall x ensures x in a <==> x in b {
      assert x in a <==> x in multiset(a);
    }
  }

  lemma ComparableStep<T(!new)>(less: Comparison<T>, s: seq<T>)
    requires Orders(less) && s != []
    ensures AllComparable(less, s)
       <==> AllComparable(less, s[..|s| - 1]) && Comparable(less, s[|s| - 1], s[..|s| - 1])
  {
    var front, x := s[..|s| - 1], s[|s| - 1];
    assert forall y :: y in s <==> y == x || y in front;
  }

  lemma {:induction false} OrderedUnique<T(!new)>(less: Comparison<T>, a: seq<T>, b: seq<T>)
    requires Orders(less) && Ordered(less, a) && Ordered(less, b) && multiset(a) == multiset(b)
    ensures a == b
  {
    hide Ordered, Orders;
    assert |a| == |multiset(b)|;
    if a != [] {
      SameElements(a, b);
      OrderedRest(less, a);
      OrderedRest(less, b);
      SameFirst(less, a, b);
      SameTails(a, b);
      OrderedUnique(less, a[1..], b[1..]);
      assert a == [a[0]] + a[1..] && b == [b[0]] + b[1..];
    }
  }

  lemma SameFirst<T(!new)>(less: Comparison<T>, a: seq<T>, b: seq<T>)
    requires Orders(less) && a != [] && b != []
    requires Ordered(less, a) && Ordered(less, b) && a[0] in b && b[0] in a
    ensures a[0] == b[0]
  {
    assert Le(less, a[0], b[0]) && Le(less, b[0], a[0]);
  }

  lemma SameTails<T>(a: seq<T>, b: seq<T>)
    requires a != [] && b != [] && a[0] == b[0] && multiset(a) == multiset(b)
    ensures multiset(a[1..]) == multiset(b[1..])
  {
    assert a == [a[0]] + a[1..] && b == [b[0]] + b[1..];
    assert multiset(a[1..]) == multiset(a) - multiset{a[0]};
    assert multiset(b[1..]) == multiset(b) - multiset{b[0]};
  }

  /** Two sequences sort alike exactly when they have the same elements as often,
      unless the sort fails. */
  lemma SortsAlikeIff<T(!new)>(less: Comparison<T>, a: seq<T>, b: seq<T>)
    requires Orders(less)
    ensures multiset(a) == multiset(b) ==> Sort(less, a) == Sort(less, b)
    ensures Sort(less, a) == Sort(less, b) && Sort(less, a).Some? ==> multiset(a) == multiset(b)
  {
    hide Sort, Ordered, Orders;
    SortOrders(less, a);
    SortOrders(less, b);
    if multiset(a) == multiset(b) {
      SameElements(a, b);
      if Sort(less, a).Some? && Sort(less, b).Some? {
        OrderedUnique(less, Sort(less, a).value, Sort(less, b).value);
      }
    }
  }
}

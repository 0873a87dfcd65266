/** What every part of the project uses. */
module Options {
  datatype Option<+T> = None | Some(value: T)

  /** Some element of a set that is not empty. */
  lemma Element<T>(s: set<T>) returns (x: T)
    requires s != {}
    ensures x in s
  {
    x :| x in s;
  }

  /** The elements of a set in some order, as a query returns rows. */
  method Listing<T(==)>(s: set<T>) returns (q: seq<T>)
    ensures forall x :: x in q <==> x in s
    ensures forall i, j :: 0 <= i < j < |q| ==> q[i] != q[j]
  {
    q := [];
    var rest := s;
    while rest != {}
      invariant rest <= s
      invariant forall x :: x in q <==> x in s && x !in rest
      invariant forall i, j :: 0 <= i < j < |q| ==> q[i] != q[j]
    {
      var x :| x in rest;
      rest := rest - {x};
      q := q + [x];
    }
  }

  /** An element of a sequence and what is around it. */
  lemma Around<T>(t: seq<T>, x: T) returns (a: seq<T>, b: seq<T>)
    requires x in t
    ensures t == a + [x] + b && |a + b| < |t|
  {
    var j :| 0 <= j < |t| && t[j] == x;
    a, b := t[..j], t[j + 1..];
  }

  lemma SameWithout<T>(rest: seq<T>, x: T, a: seq<T>, b: seq<T>)
    requires multiset([] + [x] + rest) == multiset(a + [x] + b)
    ensures multiset(rest) == multiset(a + b)
  {
    assert multiset(rest) == multiset([] + [x] + rest) - multiset{x};
    assert multiset(a + b) == multiset(a + [x] + b) - multiset{x};
  }
}

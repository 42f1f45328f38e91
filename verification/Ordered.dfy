/** Listing a set in the order of its elements, as iterating an ordered map or set does. */
module Ordered {

  ghost predicate TotalOrder<T(!new)>(leq: (T, T) -> bool) {
    && (forall x, y :: leq(x, y) || leq(y, x))
    && (forall x, y :: leq(x, y) && leq(y, x) ==> x == y)
    && (forall x, y, z :: leq(x, y) && leq(y, z) ==> leq(x, z))
  }

  ghost predicate Ascending<T>(list: seq<T>, leq: (T, T) -> bool) {
    forall i, j :: 0 <= i < j < |list| ==> leq(list[i], list[j]) && list[i] != list[j]
  }

  predicate Least<T(!new)>(s: set<T>, leq: (T, T) -> bool, least: T) {
    least in s && forall x :: x in s ==> leq(least, x)
  }

  lemma LeastExists<T(!new)>(s: set<T>, leq: (T, T) -> bool)
    requires s != {} && TotalOrder(leq)
    ensures exists least :: Least(s, leq, least)
  {
    var x :| x in s;
    var rest := s - {x};
    if rest == {} {
      assert s == {x} + rest;
      assert leq(x, x);
      assert Least(s, leq, x);
    } else {
      LeastExists(rest, leq);
      var least :| Least(rest, leq, least);
      var lesser := if leq(x, least) then x else least;
      forall y | y in s ensures leq(lesser, y) {
        if y in rest { assert leq(least, y); }
      }
      assert Least(s, leq, lesser);
    }
  }

  /** The elements of `s`, each once, in order. */
  function Listing<T(!new, ==)>(s: set<T>, leq: (T, T) -> bool): (list: seq<T>)
    requires TotalOrder(leq)
    ensures forall x :: x in list <==> x in s
    ensures Ascending(list, leq)
    ensures |list| == |s|
  {
    if s == {} then []
    else
      LeastExists(s, leq);
      var least :| Least(s, leq, least);
      [least] + Listing(s - {least}, leq)
  }

  lemma SameEmptiness<T>(a: seq<T>, b: seq<T>)
    requires forall x :: x in a <==> x in b
    ensures a == [] <==> b == []
  {
    if a != [] { assert a[0] in b; }
    if b != [] { assert b[0] in a; }
  }

  /** There is one way to list a set in order. */
  lemma {:induction false} ListingUnique<T(!new)>(a: seq<T>, b: seq<T>, leq: (T, T) -> bool)
    requires TotalOrder(leq) && Ascending(a, leq) && Ascending(b, leq)
    requires forall x :: x in a <==> x in b
    ensures a == b
  {
    SameEmptiness(a, b);
    if a != [] {
      assert a[0] in b;
      var i :| 0 <= i < |b| && b[i] == a[0];
      assert b[0] in a;
      var j :| 0 <= j < |a| && a[j] == b[0];
      assert a[0] == b[0];
      forall x ensures x in a[1..] <==> x in b[1..] {
        if x in a[1..] {
          var k :| 0 <= k < |a[1..]| && a[1..][k] == x;
          assert a[k + 1] == x && x != a[0];
          assert x in b;
        }
        if x in b[1..] {
          var k :| 0 <= k < |b[1..]| && b[1..][k] == x;
          assert b[k + 1] == x && x != b[0];
          assert x in a;
        }
      }
      ListingUnique(a[1..], b[1..], leq);
    }
  }

  // --- Identifiers and text -----------------------------------------------------------------------

  predicate IdLeq(a: nat, b: nat) {
    a <= b
  }

  /** Text in code point order. */
  predicate TextLeq(a: string, b: string) {
    if a == [] then true
    else if b == [] then false
    else a[0] < b[0] || (a[0] == b[0] && TextLeq(a[1..], b[1..]))
  }

  lemma {:induction false} TextLeqTotal(a: string, b: string)
    ensures TextLeq(a, b) || TextLeq(b, a)
    ensures TextLeq(a, b) && TextLeq(b, a) ==> a == b
  {
    if a != [] && b != [] && a[0] == b[0] {
      TextLeqTotal(a[1..], b[1..]);
      assert a == [a[0]] + a[1..] && b == [b[0]] + b[1..];
    }
  }

  lemma {:induction false} TextLeqTransitive(a: string, b: string, c: string)
    requires TextLeq(a, b) && TextLeq(b, c)
    ensures TextLeq(a, c)
  {
    if a != [] && a[0] == c[0] {
      TextLeqTransitive(a[1..], b[1..], c[1..]);
    }
  }

  lemma IdOrder()
    ensures TotalOrder(IdLeq)
  {
  }

  lemma TextOrder()
    ensures TotalOrder(TextLeq)
  {
    forall a, b ensures (TextLeq(a, b) || TextLeq(b, a)) && (TextLeq(a, b) && TextLeq(b, a) ==> a == b) {
      TextLeqTotal(a, b);
    }
    forall a, b, c | TextLeq(a, b) && TextLeq(b, c) ensures TextLeq(a, c) {
      TextLeqTransitive(a, b, c);
    }
  }

  /** Ids in id order. */
  function Ids(s: set<nat>): (list: seq<nat>)
    ensures forall x :: x in list <==> x in s
    ensures Ascending(list, IdLeq)
    ensures |list| == |s|
  {
    IdOrder();
    Listing(s, IdLeq)
  }

  /** Text in code point order. */
  function Texts(s: set<string>): (list: seq<string>)
    ensures forall x :: x in list <==> x in s
    ensures Ascending(list, TextLeq)
    ensures |list| == |s|
  {
    TextOrder();
    Listing(s, TextLeq)
  }
}

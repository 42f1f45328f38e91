/** Sorting a list stably and grouping it by key, and that grouping neither loses nor repeats anything. */
module Grouping {
  import opened Lists

  // --- A stable sort -----------------------------------------------------------------------------------------------

  ghost predicate TotalPreorder<T(!new)>(leq: (T, T) -> bool) {
    (forall x, y :: leq(x, y) || leq(y, x)) && forall x, y, z :: leq(x, y) && leq(y, z) ==> leq(x, z)
  }

  ghost predicate Sorted<T>(list: seq<T>, leq: (T, T) -> bool) {
    forall i, j :: 0 <= i < j < |list| ==> leq(list[i], list[j])
  }

  /** `x` put after everything that may come before it. */
  function Inserted<T>(sorted: seq<T>, x: T, leq: (T, T) -> bool): (list: seq<T>)
    ensures multiset(list) == multiset(sorted) + multiset{x}
  {
    if sorted == [] then [x]
    else
      var earlier, last := sorted[..|sorted| - 1], sorted[|sorted| - 1];
      assert sorted == earlier + [last];
      if leq(last, x) then sorted + [x] else Inserted(earlier, x, leq) + [last]
  }

  /** The list sorted, elements that tie kept in their order. */
  function StableSort<T>(list: seq<T>, leq: (T, T) -> bool): (sorted: seq<T>)
    ensures multiset(sorted) == multiset(list)
  {
    if list == [] then []
    else
      assert list == list[..|list| - 1] + [list[|list| - 1]];
      Inserted(StableSort(list[..|list| - 1], leq), list[|list| - 1], leq)
  }

  lemma {:induction false} InsertedSorted<T(!new)>(sorted: seq<T>, x: T, leq: (T, T) -> bool)
    requires TotalPreorder(leq) && Sorted(sorted, leq)
    ensures Sorted(Inserted(sorted, x, leq), leq)
  {
    if sorted != [] && !leq(sorted[|sorted| - 1], x) {
      var earlier, last := sorted[..|sorted| - 1], sorted[|sorted| - 1];
      InsertedSorted(earlier, x, leq);
      var list := Inserted(earlier, x, leq);
      forall i | 0 <= i < |list| ensures leq(list[i], last) {
        assert list[i] in multiset(list);
        assert list[i] in earlier || list[i] == x;
      }
    }
  }

  lemma {:induction false} StableSortSorts<T(!new)>(list: seq<T>, leq: (T, T) -> bool)
    requires TotalPreorder(leq)
    ensures Sorted(StableSort(list, leq), leq)
  {
    if list != [] {
      StableSortSorts(list[..|list| - 1], leq);
      InsertedSorted(StableSort(list[..|list| - 1], leq), list[|list| - 1], leq);
    }
  }

  lemma SortedMembers<T(!new)>(list: seq<T>, leq: (T, T) -> bool, x: T)
    ensures x in StableSort(list, leq) <==> x in list
  {
    assert x in StableSort(list, leq) <==> x in multiset(StableSort(list, leq));
    assert x in list <==> x in multiset(list);
  }

  lemma FilterStep<T(!new)>(list: seq<T>, x: T, keep: T -> bool)
    ensures Filter(list + [x], keep) == if keep(x) then Filter(list, keep) + [x] else Filter(list, keep)
  {
    assert (list + [x])[..|list|] == list;
  }

  lemma InsertedStep<T>(earlier: seq<T>, last: T, x: T, leq: (T, T) -> bool)
    ensures Inserted(earlier + [last], x, leq) ==
            if leq(last, x) then earlier + [last] + [x] else Inserted(earlier, x, leq) + [last]
  {
    assert (earlier + [last])[..|earlier|] == earlier;
  }

  /** Where `x` is put, everything before it may come before it. */
  ghost predicate Fits<T(!new)>(sorted: seq<T>, x: T, leq: (T, T) -> bool) {
    if sorted == [] then true
    else if leq(sorted[|sorted| - 1], x) then forall y :: y in sorted ==> leq(y, x)
    else Fits(sorted[..|sorted| - 1], x, leq)
  }

  lemma {:induction false} SortedFits<T(!new)>(sorted: seq<T>, x: T, leq: (T, T) -> bool)
    requires TotalPreorder(leq) && Sorted(sorted, leq)
    ensures Fits(sorted, x, leq)
  {
    if sorted != [] && !leq(sorted[|sorted| - 1], x) {
      SortedFits(sorted[..|sorted| - 1], x, leq);
    }
  }

  lemma InsertedAtEnd<T(!new)>(sorted: seq<T>, x: T, leq: (T, T) -> bool, keep: T -> bool)
    requires forall y :: y in sorted ==> leq(y, x)
    ensures Inserted(Filter(sorted, keep), x, leq) == Filter(sorted, keep) + [x]
  {
    var kept := Filter(sorted, keep);
    if kept != [] {
      assert kept[|kept| - 1] in sorted;
    }
  }

  /** Taking part of a list and inserting commute. */
  ghost predicate Commutes<T(!new)>(sorted: seq<T>, x: T, leq: (T, T) -> bool, keep: T -> bool) {
    Filter(Inserted(sorted, x, leq), keep) ==
    if keep(x) then Inserted(Filter(sorted, keep), x, leq) else Filter(sorted, keep)
  }

  lemma CommutesAtEnd<T(!new)>(sorted: seq<T>, x: T, leq: (T, T) -> bool, keep: T -> bool)
    requires Inserted(sorted, x, leq) == sorted + [x] && forall y :: y in sorted ==> leq(y, x)
    ensures Commutes(sorted, x, leq, keep)
  {
    hide Filter, Inserted;
    FilterStep(sorted, x, keep);
    InsertedAtEnd(sorted, x, leq, keep);
  }

  lemma {:induction false} FilterInserted<T(!new)>(sorted: seq<T>, x: T, leq: (T, T) -> bool, keep: T -> bool)
    requires Fits(sorted, x, leq)
    ensures Commutes(sorted, x, leq, keep)
  {
    hide Commutes, Filter;
    if sorted == [] || leq(sorted[|sorted| - 1], x) {
      CommutesAtEnd(sorted, x, leq, keep);
    } else {
      hide Inserted;
      var earlier := sorted[..|sorted| - 1];
      FilterInserted(earlier, x, leq, keep);
      FilterPastLast(earlier, sorted[|sorted| - 1], x, leq, keep);
      assert sorted == earlier + [sorted[|sorted| - 1]];
    }
  }

  lemma FilterPastLast<T(!new)>(earlier: seq<T>, last: T, x: T, leq: (T, T) -> bool, keep: T -> bool)
    requires !leq(last, x) && Commutes(earlier, x, leq, keep)
    ensures Commutes(earlier + [last], x, leq, keep)
  {
    hide Filter, Inserted;
    InsertedStep(earlier, last, x, leq);
    FilterStep(earlier, last, keep);
    FilterStep(Inserted(earlier, x, leq), last, keep);
    InsertedStep(Filter(earlier, keep), last, x, leq);
  }

  /** Taking part of a sorted list is sorting that part. In particular elements that tie keep their order. */
  lemma {:induction false} FilterSorted<T(!new)>(list: seq<T>, leq: (T, T) -> bool, keep: T -> bool)
    requires TotalPreorder(leq)
    ensures Filter(StableSort(list, leq), keep) == StableSort(Filter(list, keep), leq)
  {
    hide *;
    if list == [] {
      FilterSortedNone(leq, keep);
    } else {
      var shorter, last := list[..|list| - 1], list[|list| - 1];
      FilterSorted(shorter, leq, keep);
      StableSortSorts(shorter, leq);
      SortedFits(StableSort(shorter, leq), last, leq);
      FilterInserted(StableSort(shorter, leq), last, leq, keep);
      SortStep(shorter, last, leq, keep);
      assert list == shorter + [last];
    }
  }

  lemma FilterSortedNone<T(!new)>(leq: (T, T) -> bool, keep: T -> bool)
    ensures Filter(StableSort([], leq), keep) == StableSort(Filter([], keep), leq)
  {
  }

  lemma SortStep<T(!new)>(shorter: seq<T>, last: T, leq: (T, T) -> bool, keep: T -> bool)
    requires Filter(StableSort(shorter, leq), keep) == StableSort(Filter(shorter, keep), leq)
    requires Commutes(StableSort(shorter, leq), last, leq, keep)
    ensures Filter(StableSort(shorter + [last], leq), keep) == StableSort(Filter(shorter + [last], keep), leq)
  {
    hide Filter, Inserted;
    FilterStep(shorter, last, keep);
    assert (shorter + [last])[..|shorter|] == shorter;
    var kept := Filter(shorter, keep);
    assert (kept + [last])[..|kept|] == kept;
  }

  // --- Keys in the order they are first seen -----------------------------------------------------

  ghost predicate Distinct<K>(keys: seq<K>) {
    forall i, j :: 0 <= i < j < |keys| ==> keys[i] != keys[j]
  }

  function FirstSeen<T(!new), K(==)>(list: seq<T>, key: T -> K): (keys: seq<K>)
    ensures forall x :: x in list ==> key(x) in keys
    ensures forall k :: k in keys ==> exists x :: x in list && key(x) == k
    ensures Distinct(keys)
  {
    if list == [] then []
    else
      assert forall x :: x in list <==> x in list[..|list| - 1] || x == list[|list| - 1];
      var earlier, last := FirstSeen(list[..|list| - 1], key), key(list[|list| - 1]);
      if last in earlier then earlier else earlier + [last]
  }

  /** `first` is one of the list under the earlier key, and comes no later than any under the later one. */
  ghost predicate Leads<T(!new), K>(list: seq<T>, key: T -> K, leq: (T, T) -> bool, first: T, earlier: K, later: K) {
    first in list && key(first) == earlier && forall x :: x in list && key(x) == later ==> leq(first, x)
  }

  lemma FirstSeenStep<T(!new), K>(shorter: seq<T>, last: T, key: T -> K)
    ensures FirstSeen(shorter + [last], key) ==
            if key(last) in FirstSeen(shorter, key) then FirstSeen(shorter, key)
            else FirstSeen(shorter, key) + [key(last)]
  {
    assert (shorter + [last])[..|shorter|] == shorter;
  }

  /** One more element at the end changes no lead, and what led so far leads a key first seen there. */
  lemma LeadsStep<T(!new), K>(shorter: seq<T>, last: T, key: T -> K, leq: (T, T) -> bool, first: T, earlier: K,
                              later: K)
    requires first in shorter && key(first) == earlier && leq(first, last)
    requires Leads(shorter, key, leq, first, earlier, later)
             || (key(last) == later && forall x :: x in shorter ==> key(x) != later)
    ensures Leads(shorter + [last], key, leq, first, earlier, later)
  {
    assert forall x :: x in shorter + [last] <==> x in shorter || x == last;
  }

  /** In a sorted list, a key seen before another leads it. */
  lemma {:induction false} FirstSeenLeads<T(!new), K>(list: seq<T>, key: T -> K, leq: (T, T) -> bool, i: nat, j: nat)
    returns (first: T)
    requires Sorted(list, leq) && i < j < |FirstSeen(list, key)|
    ensures Leads(list, key, leq, first, FirstSeen(list, key)[i], FirstSeen(list, key)[j])
  {
    var shorter, last := list[..|list| - 1], list[|list| - 1];
    assert list == shorter + [last];
    FirstSeenStep(shorter, last, key);
    hide FirstSeen;
    var keys := FirstSeen(shorter, key);
    if j < |keys| {
      first := FirstSeenLeads(shorter, key, leq, i, j);
    } else {
      assert keys[i] in keys;
      first :| first in shorter && key(first) == keys[i];
    }
    var k :| 0 <= k < |shorter| && shorter[k] == first;
    assert leq(list[k], list[|list| - 1]);
    LeadsStep(shorter, last, key, leq, first, FirstSeen(list, key)[i], FirstSeen(list, key)[j]);
  }

  // --- Conservation ------------------------------------------------------------------------------

  /** What the list's elements come to, counted. */
  function Tally<T, P>(list: seq<T>, at: T -> P): multiset<P> {
    if list == [] then multiset{} else Tally(list[..|list| - 1], at) + multiset{at(list[|list| - 1])}
  }

  function TallyOver<K, P>(keys: seq<K>, of: K -> multiset<P>): multiset<P> {
    if keys == [] then multiset{} else TallyOver(keys[..|keys| - 1], of) + of(keys[|keys| - 1])
  }

  lemma TallyStep<T, P>(list: seq<T>, x: T, at: T -> P)
    ensures Tally(list + [x], at) == Tally(list, at) + multiset{at(x)}
  {
    assert (list + [x])[..|list|] == list;
  }

  lemma {:induction false} TallySplit<T(!new), P>(list: seq<T>, at: T -> P, first: T -> bool, second: T -> bool,
                                                  both: T -> bool)
    requires forall x :: x in list ==> !(first(x) && second(x)) && (both(x) <==> first(x) || second(x))
    ensures Tally(Filter(list, both), at) == Tally(Filter(list, first), at) + Tally(Filter(list, second), at)
  {
    hide *;
    if list == [] {
      TallyFilterNone(at, first);
      TallyFilterNone(at, second);
      TallyFilterNone(at, both);
    } else {
      var shorter, last := list[..|list| - 1], list[|list| - 1];
      assert list == shorter + [last] && last in list;
      TallySplit(shorter, at, first, second, both);
      TallyFilterStep(shorter, last, at, first);
      TallyFilterStep(shorter, last, at, second);
      TallyFilterStep(shorter, last, at, both);
    }
  }

  lemma TallyFilterNone<T(!new), P>(at: T -> P, keep: T -> bool)
    ensures Tally(Filter([], keep), at) == multiset{}
  {
  }

  lemma TallyFilterStep<T(!new), P>(list: seq<T>, x: T, at: T -> P, keep: T -> bool)
    ensures Tally(Filter(list + [x], keep), at) ==
            Tally(Filter(list, keep), at) + if keep(x) then multiset{at(x)} else multiset{}
  {
    hide Filter, Tally;
    FilterStep(list, x, keep);
    TallyStep(Filter(list, keep), x, at);
  }

  lemma {:induction false} FilterAll<T(!new)>(list: seq<T>, keep: T -> bool)
    requires forall x :: x in list ==> keep(x)
    ensures Filter(list, keep) == list
  {
    if list != [] {
      FilterAll(list[..|list| - 1], keep);
      assert list == list[..|list| - 1] + [list[|list| - 1]];
    }
  }

  lemma {:induction false} FilterNone<T(!new)>(list: seq<T>, keep: T -> bool)
    requires forall x :: x in list ==> !keep(x)
    ensures Filter(list, keep) == []
  {
    if list != [] {
      FilterNone(list[..|list| - 1], keep);
    }
  }

  /** Whether an element's key is `k`. */
  function Has<T, K(==)>(key: T -> K, k: K): T -> bool {
    (x: T) => key(x) == k
  }

  function Under<T(!new), K(==), P>(list: seq<T>, key: T -> K, at: T -> P): K -> multiset<P> {
    (k: K) => Tally(Filter(list, Has(key, k)), at)
  }

  lemma {:induction false} GroupsOfKeys<T(!new), K, P>(list: seq<T>, key: T -> K, at: T -> P, keys: seq<K>)
    requires Distinct(keys)
    ensures TallyOver(keys, Under(list, key, at)) == Tally(Filter(list, (x: T) => key(x) in keys), at)
  {
    if keys == [] {
      FilterNone(list, (x: T) => key(x) in keys);
    } else {
      var shorter, last := keys[..|keys| - 1], keys[|keys| - 1];
      GroupsOfKeys(list, key, at, shorter);
      assert forall k :: k in keys <==> k in shorter || k == last;
      TallySplit(list, at, (x: T) => key(x) in shorter, Has(key, last), (x: T) => key(x) in keys);
    }
  }

  /** Grouped by distinct keys that cover it, a list loses nothing and repeats nothing. */
  lemma Partitioned<T(!new), K, P>(list: seq<T>, key: T -> K, at: T -> P, keys: seq<K>)
    requires Distinct(keys) && forall x :: x in list ==> key(x) in keys
    ensures TallyOver(keys, Under(list, key, at)) == Tally(list, at)
  {
    GroupsOfKeys(list, key, at, keys);
    FilterAll(list, (x: T) => key(x) in keys);
  }

  /** Sorting changes no tally. */
  lemma {:induction false} TallyInserted<T, P>(sorted: seq<T>, x: T, leq: (T, T) -> bool, at: T -> P)
    ensures Tally(Inserted(sorted, x, leq), at) == Tally(sorted, at) + multiset{at(x)}
  {
    if sorted != [] {
      var earlier, last := sorted[..|sorted| - 1], sorted[|sorted| - 1];
      if leq(last, x) {
        TallyStep(sorted, x, at);
      } else {
        TallyInserted(earlier, x, leq, at);
        TallyStep(Inserted(earlier, x, leq), last, at);
      }
    }
  }

  lemma {:induction false} TallySorted<T, P>(list: seq<T>, leq: (T, T) -> bool, at: T -> P)
    ensures Tally(StableSort(list, leq), at) == Tally(list, at)
  {
    if list != [] {
      TallySorted(list[..|list| - 1], leq, at);
      TallyInserted(StableSort(list[..|list| - 1], leq), list[|list| - 1], leq, at);
    }
  }
}

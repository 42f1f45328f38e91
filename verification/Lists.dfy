/** Authored lists: filtering one, and indexing one by id as an ordered map collects it. */
module Lists {
  import opened Ordered

  /** The elements that are kept, in their order. */
  function Filter<T(!new)>(list: seq<T>, keep: T -> bool): (kept: seq<T>)
    ensures forall x :: x in kept <==> x in list && keep(x)
    ensures |kept| <= |list|
  {
    if list == [] then []
    else
      assert forall x :: x in list <==> x in list[..|list| - 1] || x == list[|list| - 1];
      Filter(list[..|list| - 1], keep) + if keep(list[|list| - 1]) then [list[|list| - 1]] else []
  }

  ghost predicate DistinctIds<T(!new)>(list: seq<T>, id: T -> nat) {
    forall i, j :: 0 <= i < j < |list| ==> id(list[i]) != id(list[j])
  }

  lemma {:induction false} FilterDistinct<T(!new)>(list: seq<T>, keep: T -> bool, id: T -> nat)
    requires DistinctIds(list, id)
    ensures DistinctIds(Filter(list, keep), id)
  {
    if list != [] {
      var shorter, last := list[..|list| - 1], list[|list| - 1];
      FilterDistinct(shorter, keep, id);
      var kept := Filter(shorter, keep);
      forall i | 0 <= i < |kept| ensures id(kept[i]) != id(last) {
        assert kept[i] in shorter;
        var j :| 0 <= j < |shorter| && shorter[j] == kept[i];
      }
    }
  }

  /** The list by id; of two elements under one id the later is kept. */
  function Index<T(!new)>(list: seq<T>, id: T -> nat): (index: map<nat, T>)
    ensures forall k :: k in index ==> index[k] in list && id(index[k]) == k
    ensures forall x :: x in list ==> id(x) in index
  {
    if list == [] then map[]
    else
      assert forall x :: x in list <==> x in list[..|list| - 1] || x == list[|list| - 1];
      Index(list[..|list| - 1], id)[id(list[|list| - 1]) := list[|list| - 1]]
  }

  lemma SameById<T(!new)>(list: seq<T>, id: T -> nat, x: T, y: T)
    requires DistinctIds(list, id) && x in list && y in list && id(x) == id(y)
    ensures x == y
  {
    var i :| 0 <= i < |list| && list[i] == x;
    var j :| 0 <= j < |list| && list[j] == y;
  }

  /** An index does not depend on the order of a list whose ids are distinct. */
  lemma IndexReordered<T(!new)>(a: seq<T>, b: seq<T>, id: T -> nat)
    requires DistinctIds(a, id) && DistinctIds(b, id)
    requires forall x :: x in a <==> x in b
    ensures Index(a, id) == Index(b, id)
  {
    var left, right := Index(a, id), Index(b, id);
    forall k | k in left ensures k in right && right[k] == left[k] {
      assert left[k] in b && id(left[k]) in right;
      SameById(b, id, left[k], right[k]);
    }
    forall k | k in right ensures k in left {
      assert right[k] in a;
    }
  }

  lemma {:induction false} FilterAscending<T(!new)>(list: seq<T>, keep: T -> bool, leq: (T, T) -> bool)
    requires Ascending(list, leq)
    ensures Ascending(Filter(list, keep), leq)
  {
    if list != [] {
      var shorter, last := list[..|list| - 1], list[|list| - 1];
      FilterAscending(shorter, keep, leq);
      var kept := Filter(shorter, keep);
      forall i | 0 <= i < |kept| ensures leq(kept[i], last) && kept[i] != last {
        assert kept[i] in shorter;
        var j :| 0 <= j < |shorter| && shorter[j] == kept[i];
      }
    }
  }

  /** Filtering ids in order lists the ids kept in order. */
  lemma FilteredIds(all: set<nat>, kept: set<nat>, keep: nat -> bool)
    requires forall id :: id in kept <==> id in all && keep(id)
    ensures Filter(Ids(all), keep) == Ids(kept)
  {
    IdOrder();
    FilterAscending(Ids(all), keep, IdLeq);
    ListingUnique(Filter(Ids(all), keep), Ids(kept), IdLeq);
  }
}

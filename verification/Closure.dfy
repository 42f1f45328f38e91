/** The least set that holds some crates and every crate that depends on one it holds. */
module Closure {

  datatype Crate = Crate(name: string, dir: string, normal: set<string>, dev: set<string>)

  /** The crates that depend on `name`, outside tests or in tests only. */
  function Dependents(crates: seq<Crate>, name: string): set<string> {
    set i | 0 <= i < |crates| && (name in crates[i].normal || name in crates[i].dev) :: crates[i].name
  }

  ghost predicate Closed(crates: seq<Crate>, s: set<string>) {
    forall name :: name in s ==> Dependents(crates, name) <= s
  }

  ghost predicate LeastClosed(crates: seq<Crate>, seeds: set<string>, s: set<string>) {
    seeds <= s && Closed(crates, s) && WithinEvery(crates, seeds, s)
  }

  /** The set is within every closed set that holds the seeds. */
  ghost predicate WithinEvery(crates: seq<Crate>, seeds: set<string>, s: set<string>) {
    forall other :: seeds <= other && Closed(crates, other) ==> s <= other
  }

  lemma WithinEveryStep(crates: seq<Crate>, seeds: set<string>, s: set<string>, name: string)
    requires WithinEvery(crates, seeds, s) && name in s
    ensures WithinEvery(crates, seeds, s + Dependents(crates, name))
  {
    forall other | seeds <= other && Closed(crates, other) ensures s + Dependents(crates, name) <= other {
      assert s <= other;
      assert Dependents(crates, name) <= other;
    }
  }

  /** Only the crates still on the frontier may have a dependent outside the set. */
  ghost predicate ClosedBut(crates: seq<Crate>, s: set<string>, frontier: seq<string>) {
    && (forall name :: name in frontier ==> name in s)
    && (forall name :: name in s && name !in frontier ==> Dependents(crates, name) <= s)
  }

  lemma ClosedButStep(crates: seq<Crate>, s: set<string>, frontier: seq<string>, name: string, rest: seq<string>,
                      after: set<string>, pending: seq<string>)
    requires ClosedBut(crates, s, frontier) && name in frontier
    requires forall x :: x in frontier ==> x in rest || x == name
    requires forall x :: x in rest ==> x in frontier
    requires after == s + Dependents(crates, name)
    requires forall x :: x in pending <==> x in rest || (x in after && x !in s)
    ensures ClosedBut(crates, after, pending)
  {
    forall x | x in after && x !in pending ensures Dependents(crates, x) <= after {
      if x != name {
        assert x in s && x !in frontier;
      }
    }
  }

  function Names(crates: seq<Crate>): set<string> {
    set i | 0 <= i < |crates| :: crates[i].name
  }

  /** The worklist: pop a crate, add each dependent not seen yet and push it. It ends on any dependency
      relation, cyclic ones included. */
  method DependentClosure(crates: seq<Crate>, seeds: set<string>) returns (affected: set<string>)
    ensures LeastClosed(crates, seeds, affected)
  {
    affected := seeds;
    var frontier := Listed(seeds);
    assert ClosedBut(crates, affected, frontier) && WithinEvery(crates, seeds, affected);
    ghost var universe := seeds + Names(crates);
    while frontier != []
      invariant seeds <= affected <= universe
      invariant ClosedBut(crates, affected, frontier)
      invariant WithinEvery(crates, seeds, affected)
      decreases |universe - affected|, |frontier|
    {
      var name, rest := frontier[|frontier| - 1], frontier[..|frontier| - 1];
      ghost var before, stack := affected, frontier;
      assert forall x :: x in stack ==> x in rest || x == name;
      var dependents := Listed(Dependents(crates, name));
      affected, frontier := Visit(dependents, affected, rest);
      assert affected == before + Dependents(crates, name);
      WithinEveryStep(crates, seeds, before, name);
      ClosedButStep(crates, before, stack, name, rest, affected, frontier);
      if affected != before {
        Smaller(universe - affected, universe - before);
      }
    }
  }

  /** Adds each dependent not seen yet, and pushes it. */
  method Visit(dependents: seq<string>, affected: set<string>, frontier: seq<string>)
    returns (seen: set<string>, pending: seq<string>)
    ensures forall x :: x in seen <==> x in affected || x in dependents
    ensures forall x :: x in pending <==> x in frontier || (x in dependents && x !in affected)
    ensures seen == affected ==> pending == frontier
  {
    seen, pending := affected, frontier;
    for i := 0 to |dependents|
      invariant forall x :: x in seen <==> x in affected || x in dependents[..i]
      invariant forall x :: x in pending <==> x in frontier || (x in dependents[..i] && x !in affected)
      invariant seen == affected ==> pending == frontier
      invariant affected <= seen
    {
      assert dependents[..i + 1] == dependents[..i] + [dependents[i]];
      if dependents[i] !in seen {
        seen, pending := seen + {dependents[i]}, pending + [dependents[i]];
      }
    }
    assert dependents[..|dependents|] == dependents;
  }

  lemma Smaller(a: set<string>, b: set<string>)
    requires a < b
    ensures |a| < |b|
  {
    assert b == a + (b - a);
    assert |b| == |a| + |b - a|;
  }

  /** The elements of a set in some order. */
  method Listed(s: set<string>) returns (list: seq<string>)
    ensures forall x :: x in list <==> x in s
    ensures |list| == |s|
  {
    list := [];
    var rest := s;
    while rest != {}
      invariant rest <= s && forall x :: x in list <==> x in s - rest
      invariant |list| + |rest| == |s|
    {
      var x :| x in rest;
      list, rest := list + [x], rest - {x};
    }
  }

  /** More seeds never give fewer crates. */
  lemma ClosureMonotone(crates: seq<Crate>, seeds: set<string>, more: set<string>, s: set<string>, t: set<string>)
    requires LeastClosed(crates, seeds, s) && LeastClosed(crates, more, t) && seeds <= more
    ensures s <= t
  {
  }
}

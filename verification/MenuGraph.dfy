/**
 Menu inheritance: each menu names at most one parent. The check a re-parenting passes, and the walk
 the compiler makes from a menu up through its parents.
 */
module MenuGraph {
  import opened Outcomes

  type MenuId = nat

  /** Each stored menu with the parent it names. A menu that is not stored has none. */
  type Parents = map<MenuId, Option<MenuId>>

  // --- Walking up --------------------------------------------------------------------------------------

  function Up(parents: Parents, at: Option<MenuId>): Option<MenuId> {
    if at.Some? && at.value in parents then parents[at.value] else None
  }

  /** Where `steps` steps up from `start` lead; nowhere once a menu with no parent is passed. */
  function Ancestor(parents: Parents, start: Option<MenuId>, steps: nat): Option<MenuId> {
    if steps == 0 then start else Up(parents, Ancestor(parents, start, steps - 1))
  }

  ghost predicate Reaches(parents: Parents, start: Option<MenuId>, goal: MenuId) {
    exists steps: nat :: Ancestor(parents, start, steps) == Some(goal)
  }

  lemma {:induction false} AncestorAdds(parents: Parents, start: Option<MenuId>, first: nat, rest: nat)
    ensures Ancestor(parents, start, first + rest) == Ancestor(parents, Ancestor(parents, start, first), rest)
  {
    if rest > 0 {
      AncestorAdds(parents, start, first, rest - 1);
    }
  }

  lemma {:induction false} NowhereFurther(parents: Parents, start: Option<MenuId>, steps: nat, further: nat)
    requires steps <= further && Ancestor(parents, start, steps).None?
    ensures Ancestor(parents, start, further).None?
  {
    if steps < further {
      NowhereFurther(parents, start, steps, further - 1);
    }
  }

  /** The menus passed so far, in order. */
  ghost predicate Trail(parents: Parents, start: Option<MenuId>, trail: seq<MenuId>) {
    forall i :: 0 <= i < |trail| ==> Ancestor(parents, start, i) == Some(trail[i])
  }

  /** Once a walk meets a menu it has passed, it goes around: it never ends, and meets nothing new. */
  lemma {:induction false} WalkGoesAround(parents: Parents, start: Option<MenuId>, trail: seq<MenuId>, steps: nat)
    requires Trail(parents, start, trail)
    requires Ancestor(parents, start, |trail|).Some? && Ancestor(parents, start, |trail|).value in trail
    ensures Ancestor(parents, start, steps).Some? && Ancestor(parents, start, steps).value in trail
    decreases steps
  {
    if steps < |trail| {
    } else {
      var back :| 0 <= back < |trail| && trail[back] == Ancestor(parents, start, |trail|).value;
      var past := steps - |trail|;
      AncestorAdds(parents, start, |trail|, past);
      AncestorAdds(parents, start, back, past);
      WalkGoesAround(parents, start, trail, back + past);
    }
  }

  // --- The check a re-parenting passes --------------------------------------------------------------------

  function Mentioned(parents: Parents, proposed: MenuId): set<MenuId> {
    {proposed} + set menu | menu in parents && parents[menu].Some? :: parents[menu].value
  }

  lemma {:induction false} AncestorMentioned(parents: Parents, proposed: MenuId, steps: nat)
    ensures var at := Ancestor(parents, Some(proposed), steps); at.Some? ==> at.value in Mentioned(parents, proposed)
  {
    if steps > 0 {
      AncestorMentioned(parents, proposed, steps - 1);
    }
  }

  /** Whether making `proposed` the parent of `menu` closes a loop: whether `menu` is met on the way up
      from it. It answers on any stored graph, one that already loops included. */
  method WouldCycle(parents: Parents, menu: MenuId, proposed: MenuId) returns (cycles: bool)
    ensures cycles <==> Reaches(parents, Some(proposed), menu)
  {
    var seen, current := {}, Some(proposed);
    ghost var trail := [];
    while current.Some?
      invariant Trail(parents, Some(proposed), trail) && current == Ancestor(parents, Some(proposed), |trail|)
      invariant forall id :: id in seen <==> id in trail
      invariant seen <= Mentioned(parents, proposed) && menu !in trail
      decreases Mentioned(parents, proposed) - seen, current.Some?
    {
      var id := current.value;
      AncestorMentioned(parents, proposed, |trail|);
      if id == menu {
        return true;
      }
      if id in seen {
        forall steps: nat ensures Ancestor(parents, Some(proposed), steps) != Some(menu) {
          WalkGoesAround(parents, Some(proposed), trail, steps);
        }
        return false;
      }
      seen, trail := seen + {id}, trail + [id];
      current := Up(parents, current);
    }
    forall steps: nat ensures Ancestor(parents, Some(proposed), steps) != Some(menu) {
      if steps >= |trail| {
        NowhereFurther(parents, Some(proposed), |trail|, steps);
      }
    }
    return false;
  }

  ghost predicate Acyclic(parents: Parents) {
    forall menu: MenuId, steps: nat :: steps > 0 ==> Ancestor(parents, Some(menu), steps) != Some(menu)
  }

  /** Up to the first time a walk meets `menu`, the parent `menu` names does not matter. */
  lemma {:induction false} SameUntilMet(parents: Parents, menu: MenuId, after: Parents, start: Option<MenuId>,
                                        steps: nat)
    requires forall other :: other != menu ==> Up(after, Some(other)) == Up(parents, Some(other))
    requires forall i :: 0 <= i < steps ==> Ancestor(after, start, i) != Some(menu)
    ensures Ancestor(after, start, steps) == Ancestor(parents, start, steps)
  {
    if steps > 0 {
      SameUntilMet(parents, menu, after, start, steps - 1);
    }
  }

  lemma {:induction false} FirstMeeting(parents: Parents, start: Option<MenuId>, menu: MenuId, steps: nat)
    returns (first: nat)
    requires Ancestor(parents, start, steps) == Some(menu)
    ensures first <= steps && Ancestor(parents, start, first) == Some(menu)
    ensures forall i :: 0 <= i < first ==> Ancestor(parents, start, i) != Some(menu)
  {
    if i :| 0 <= i < steps && Ancestor(parents, start, i) == Some(menu) {
      first := FirstMeeting(parents, start, menu, i);
    } else {
      first := steps;
    }
  }

  /** A re-parenting the check allows keeps a graph without loops one without loops. */
  lemma AllowedReparentingKeepsAcyclic(parents: Parents, menu: MenuId, parent: Option<MenuId>)
    requires Acyclic(parents) && !Reaches(parents, parent, menu)
    ensures Acyclic(parents[menu := parent])
  {
    var after := parents[menu := parent];
    forall id: MenuId, steps: nat | steps > 0 ensures Ancestor(after, Some(id), steps) != Some(id) {
      if Ancestor(after, Some(id), steps) == Some(id) {
        if i: nat :| i < steps && Ancestor(after, Some(id), i) == Some(menu) {
          // The loop passes `menu`: started there, it comes back by way of its new parent.
          AncestorAdds(after, Some(id), steps, i);
          AncestorAdds(after, Some(id), i, steps);
          assert Ancestor(after, Some(menu), steps) == Some(menu);
          AncestorAdds(after, Some(menu), 1, steps - 1);
          assert Ancestor(after, Some(menu), 1) == parent by { assert Ancestor(after, Some(menu), 0) == Some(menu); }
          var first := FirstMeeting(after, parent, menu, steps - 1);
          SameUntilMet(parents, menu, after, parent, first);
          assert false;
        } else {
          SameUntilMet(parents, menu, after, Some(id), steps);
          assert false;
        }
      }
    }
  }

  datatype Edit = Edit(menu: MenuId, parent: Option<MenuId>)

  function Edited(parents: Parents, edits: seq<Edit>): Parents {
    if edits == [] then parents
    else Edited(parents, edits[..|edits| - 1])[edits[|edits| - 1].menu := edits[|edits| - 1].parent]
  }

  /** Any run of re-parentings, each allowed on the graph as it then stood, leaves no loop. */
  lemma {:induction false} AllowedEditsKeepAcyclic(parents: Parents, edits: seq<Edit>)
    requires Acyclic(parents)
    requires forall i :: 0 <= i < |edits| ==>
               !Reaches(Edited(parents, edits[..i]), edits[i].parent, edits[i].menu)
    ensures Acyclic(Edited(parents, edits))
  {
    if edits != [] {
      var shorter, last := edits[..|edits| - 1], edits[|edits| - 1];
      assert forall i :: 0 <= i < |shorter| ==> shorter[..i] == edits[..i];
      AllowedEditsKeepAcyclic(parents, shorter);
      AllowedReparentingKeepsAcyclic(Edited(parents, shorter), last.menu, last.parent);
    }
  }

  // --- The chain the compiler walks ----------------------------------------------------------------------------

  datatype Menu = Menu(id: MenuId, parent: Option<MenuId>, archived: bool)

  type Menus = map<MenuId, Menu>

  datatype CompileError =
    | UnknownMenu(menu: MenuId)
    | InheritanceCycle(menu: MenuId)
    | ArchivedMenu(menu: MenuId)
    | UnknownItem(item: nat)

  function ParentsOf(menus: Menus): Parents {
    map id | id in menus :: menus[id].parent
  }

  function Passed(chain: seq<MenuId>): set<MenuId> {
    set i | 0 <= i < |chain| :: chain[i]
  }

  /** The rest of the walk from `current`, having passed `chain`. */
  function ChainFrom(menus: Menus, current: Option<MenuId>, chain: seq<MenuId>): Result<seq<MenuId>, CompileError>
    decreases menus.Keys - Passed(chain), current.Some?
  {
    match current
    case None => Ok(chain)
    case Some(id) =>
      if id in chain then Err(InheritanceCycle(id))
      else if id !in menus then Err(UnknownMenu(id))
      else if menus[id].archived then Err(ArchivedMenu(id))
      else
        assert Passed(chain + [id]) == Passed(chain) + {id} by {
          assert forall i :: 0 <= i < |chain| ==> (chain + [id])[i] == chain[i];
          assert (chain + [id])[|chain|] == id;
        }
        assert id !in Passed(chain);
        ChainFrom(menus, menus[id].parent, chain + [id])
  }

  function ChainOf(menus: Menus, root: MenuId): Result<seq<MenuId>, CompileError> {
    ChainFrom(menus, Some(root), [])
  }

  method MenuChain(menus: Menus, root: MenuId) returns (result: Result<seq<MenuId>, CompileError>)
    ensures result == ChainOf(menus, root)
  {
    var chain, seen, current := [], {}, Some(root);
    while current.Some?
      invariant forall id :: id in seen <==> id in chain
      invariant ChainOf(menus, root) == ChainFrom(menus, current, chain)
      invariant seen <= menus.Keys
      decreases menus.Keys - seen, current.Some?
    {
      var id := current.value;
      if id in seen {
        return Err(InheritanceCycle(id));
      }
      if id !in menus {
        return Err(UnknownMenu(id));
      }
      if menus[id].archived {
        return Err(ArchivedMenu(id));
      }
      seen, chain := seen + {id}, chain + [id];
      current := menus[id].parent;
    }
    return Ok(chain);
  }

  /** The menus from the root up, as far as `chain` goes, are all known and active. */
  ghost predicate Climbs(menus: Menus, root: MenuId, chain: seq<MenuId>) {
    && Trail(ParentsOf(menus), Some(root), chain)
    && forall i :: 0 <= i < |chain| ==> chain[i] in menus && !menus[chain[i]].archived
  }

  /** What each answer of the walk says. */
  ghost predicate Verdict(menus: Menus, root: MenuId, chain: seq<MenuId>, result: Result<seq<MenuId>, CompileError>) {
    && Climbs(menus, root, chain)
    && var next := Ancestor(ParentsOf(menus), Some(root), |chain|);
       match result
       case Ok(whole) => whole == chain && next.None?
       case Err(InheritanceCycle(id)) => next == Some(id) && id in chain
       case Err(UnknownMenu(id)) => next == Some(id) && id !in menus
       case Err(ArchivedMenu(id)) => next == Some(id) && id in menus && menus[id].archived
       case Err(UnknownItem(_)) => false
  }

  lemma {:induction false} ChainFromVerdict(menus: Menus, root: MenuId, current: Option<MenuId>, passed: seq<MenuId>)
    returns (chain: seq<MenuId>)
    requires Climbs(menus, root, passed) && current == Ancestor(ParentsOf(menus), Some(root), |passed|)
    ensures Verdict(menus, root, chain, ChainFrom(menus, current, passed))
    decreases menus.Keys - Passed(passed), current.Some?
  {
    chain := passed;
    if current.Some? && current.value !in passed && current.value in menus && !menus[current.value].archived {
      var id := current.value;
      assert Passed(passed + [id]) == Passed(passed) + {id} by {
        assert forall i :: 0 <= i < |passed| ==> (passed + [id])[i] == passed[i];
        assert (passed + [id])[|passed|] == id;
      }
      chain := ChainFromVerdict(menus, root, menus[id].parent, passed + [id]);
    }
  }

  /** The walk ends after `steps` menus, every one known and active. */
  ghost predicate EndsAfter(menus: Menus, root: MenuId, steps: nat) {
    && Ancestor(ParentsOf(menus), Some(root), steps).None?
    && forall i :: 0 <= i < steps ==>
         var at := Ancestor(ParentsOf(menus), Some(root), i);
         at.Some? && at.value in menus && !menus[at.value].archived
  }

  /** A chain is found exactly when the walk up from the root ends with every menu known and active; and
      then it is that walk. */
  lemma ChainMeaning(menus: Menus, root: MenuId)
    ensures ChainOf(menus, root).Ok? <==> exists steps: nat :: EndsAfter(menus, root, steps)
    ensures ChainOf(menus, root).Ok? ==>
              var chain := ChainOf(menus, root).value;
              Climbs(menus, root, chain) && EndsAfter(menus, root, |chain|)
  {
    var chain := ChainFromVerdict(menus, root, Some(root), []);
    if ChainOf(menus, root).Ok? {
      assert EndsAfter(menus, root, |chain|);
    } else if steps: nat :| EndsAfter(menus, root, steps) {
      var parents := ParentsOf(menus);
      if ChainOf(menus, root).error.InheritanceCycle? {
        WalkGoesAround(parents, Some(root), chain, steps);
        assert false;
      } else {
        if steps <= |chain| { NowhereFurther(parents, Some(root), steps, |chain|); }
        assert false;
      }
    }
  }

  /** On a graph without loops the compiler never names one, whichever menu it starts from. */
  lemma AcyclicNeverCycles(menus: Menus, root: MenuId)
    requires Acyclic(ParentsOf(menus))
    ensures ChainOf(menus, root).Err? ==> !ChainOf(menus, root).error.InheritanceCycle?
  {
    var parents := ParentsOf(menus);
    var chain := ChainFromVerdict(menus, root, Some(root), []);
    if ChainOf(menus, root).Err? && ChainOf(menus, root).error.InheritanceCycle? {
      var id := ChainOf(menus, root).error.menu;
      var i :| 0 <= i < |chain| && chain[i] == id;
      AncestorAdds(parents, Some(root), i, |chain| - i);
    }
  }
}

/**
 What a store that holds one version is sent to reach the current one, and when what it then runs is
 the document the cloud published.
 */
module ConfigSync {
  import opened Outcomes
  import opened Json
  import opened ConfigTree
  import opened QrOrdering

  // --- What a store is sent ------------------------------------------------------------------------

  datatype Sync =
    | UpToDate
    | Snapshot(id: VersionId, document: Json)
    | Delta(source: VersionId, target: VersionId, patch: Json)

  function UpdateFor(tree: Tree, held: Option<VersionId>): Sync {
    if tree.history == [] then UpToDate
    else
      var current := tree.history[|tree.history| - 1];
      if held.None? then Snapshot(current.id, current.effective)
      else if held.value == current.id then UpToDate
      else
        match Position(tree.history, held.value)
        case None => Snapshot(current.id, current.effective)
        case Some(at) =>
          if |tree.history| - 1 - at <= tree.k then
            Delta(held.value, current.id, Diff(tree.history[at].effective, current.effective))
          else
            Snapshot(current.id, current.effective)
  }

  /** What a store holds: the version it reports and the document it runs. */
  datatype Held = Held(id: VersionId, document: Json)

  /** One pull: the store asks, and applies what it is sent. */
  function Pull(tree: Tree, held: Option<Held>): Option<Held> {
    match UpdateFor(tree, if held.None? then None else Some(held.value.id))
    case UpToDate => held
    case Snapshot(id, document) => Some(Held(id, document))
    case Delta(_, target, patch) =>
      Some(Held(target, ApplyPatch(if held.Some? then held.value.document else Null, patch)))
  }

  /** The store runs the very document of the version it reports. */
  ghost predicate InStep(tree: Tree, held: Option<Held>) {
    held.Some? ==>
      && Position(tree.history, held.value.id).Some?
      && tree.history[Position(tree.history, held.value.id).value].effective == held.value.document
  }

  ghost predicate DistinctIds(history: seq<Version>) {
    forall i, j :: 0 <= i < j < |history| ==> history[i].id != history[j].id
  }

  /** A pull brings a store in step to the current version, and to the current document exactly
      when that document is one the patch from the held version can say, or no patch was sent. */
  lemma PullReachesCurrent(tree: Tree, held: Option<Held>)
    requires tree.history != [] && DistinctIds(tree.history) && InStep(tree, held)
    ensures var current := tree.history[|tree.history| - 1];
            var after := Pull(tree, held);
            && after.Some? && after.value.id == current.id
            && (after.value.document == current.effective <==>
                (UpdateFor(tree, if held.None? then None else Some(held.value.id)).Delta? ==>
                 Patchable(held.value.document, current.effective)))
  {
    var current := tree.history[|tree.history| - 1];
    if held.Some? {
      PatchRoundTrip(held.value.document, current.effective);
      assert held.value.id == current.id ==>
          Position(tree.history, current.id) == Some(|tree.history| - 1);
    }
  }

  // --- Every run of publishes, rollbacks and pulls ---------------------------------------------------

  datatype Event =
    | Published(level: Level, document: Json, id: VersionId, nodes: set<string>)
    | Restored(source: VersionId, id: VersionId, settles: bool)
    | Pulled

  datatype Fleet = Fleet(tree: Tree, held: Option<Held>)

  function Step(rules: Json -> bool, fleet: Fleet, event: Event): Fleet {
    match event
    case Published(level, document, id, nodes) =>
      (match Publish(rules, fleet.tree, level, document, id, nodes)
       case None => fleet
       case Some(tree) => fleet.(tree := tree))
    case Restored(source, id, settles) =>
      (match Restore(fleet.tree, source, id, document => if settles then Settle(document) else document)
       case None => fleet
       case Some(tree) => fleet.(tree := tree))
    case Pulled => fleet.(held := Pull(fleet.tree, fleet.held))
  }

  function Run(rules: Json -> bool, fleet: Fleet, events: seq<Event>): Fleet {
    if events == [] then fleet
    else Step(rules, Run(rules, fleet, events[..|events| - 1]), events[|events| - 1])
  }

  ghost predicate NeverNull(tree: Tree) {
    && (forall level :: tree.Layer(level) != Null && NullFree(tree.Layer(level)))
    && (forall i :: 0 <= i < |tree.history| ==>
          tree.history[i].effective != Null && NullFree(tree.history[i].effective))
  }

  ghost predicate FreshId(tree: Tree, event: Event) {
    !event.Pulled? ==> Position(tree.history, event.id).None?
  }

  ghost predicate NullFreeWrite(event: Event) {
    event.Published? ==> event.document != Null && NullFree(event.document)
  }

  ghost predicate Sound(fleet: Fleet) {
    NeverNull(fleet.tree) && DistinctIds(fleet.tree.history) && InStep(fleet.tree, fleet.held)
  }

  lemma AppendedKeepsPosition(history: seq<Version>, last: Version, id: VersionId)
    requires Position(history, last.id).None?
    ensures Position(history, id).Some? ==> Position(history + [last], id) == Position(history, id)
    ensures id == last.id ==> Position(history + [last], id) == Some(|history|)
  {
    if history == [] {
      assert history + [last] == [last];
    } else {
      assert (history + [last])[1..] == history[1..] + [last];
      assert Position(history[1..], last.id).None?;
      AppendedKeepsPosition(history[1..], last, id);
    }
  }

  lemma NullFreeEffective(tree: Tree)
    requires forall level :: tree.Layer(level) != Null && NullFree(tree.Layer(level))
    ensures tree.Effective() != Null && NullFree(tree.Effective())
  {
    var layers := [tree.tenant, tree.brand, tree.store, tree.device];
    assert tree.tenant == tree.Layer(Tenant) && tree.brand == tree.Layer(Brand);
    assert tree.store == tree.Layer(Store) && tree.device == tree.Layer(Device);
    MergeLayersNullFree(layers);
  }

  lemma PullKeepsSound(fleet: Fleet)
    requires Sound(fleet)
    ensures Sound(fleet.(held := Pull(fleet.tree, fleet.held)))
  {
    hide NullFree, Patchable;
    if fleet.tree.history != [] {
      var current := fleet.tree.history[|fleet.tree.history| - 1];
      PullReachesCurrent(fleet.tree, fleet.held);
      if fleet.held.Some? {
        NullFreePatchable(fleet.held.value.document, current.effective);
      }
      assert Position(fleet.tree.history, current.id) == Some(|fleet.tree.history| - 1);
    }
  }

  /** One more version under a new id, written without a `null`, leaves the fleet sound. */
  lemma AppendKeepsSound(fleet: Fleet, after: Tree, last: Version)
    requires Sound(fleet) && after.history == fleet.tree.history + [last] && Position(fleet.tree.history, last.id).None?
    requires forall level :: after.Layer(level) != Null && NullFree(after.Layer(level))
    requires last.effective != Null && NullFree(last.effective)
    ensures Sound(fleet.(tree := after))
  {
    hide NullFree;
    if fleet.held.Some? {
      AppendedKeepsPosition(fleet.tree.history, last, fleet.held.value.id);
    }
  }

  lemma PublishKeepsSound(rules: Json -> bool, fleet: Fleet, event: Event)
    requires Sound(fleet) && FreshId(fleet.tree, event) && NullFreeWrite(event) && event.Published?
    ensures Sound(Step(rules, fleet, event))
  {
    hide NullFree, MergeLayers;
    var after := Step(rules, fleet, event).tree;
    if after != fleet.tree {
      var written, last := fleet.tree.WithLayer(event.level, event.document), after.history[|after.history| - 1];
      forall level ensures written.Layer(level) != Null && NullFree(written.Layer(level)) {
        if level != event.level {
          assert written.Layer(level) == fleet.tree.Layer(level);
        }
      }
      NullFreeEffective(written);
      assert last.effective == written.Effective();
      forall level ensures after.Layer(level) != Null && NullFree(after.Layer(level)) {
        assert after.Layer(level) == written.Layer(level);
      }
      AppendKeepsSound(fleet, after, last);
    }
  }

  /** Settling writes no `null`. */
  lemma SettleNullFree(document: Json)
    requires document != Null && NullFree(document)
    ensures Settle(document) != Null && NullFree(Settle(document))
  {
    if !Aligned(document) && document.Obj? {
      hide Aligned, QrEnabledReadsOn, ChannelList, ComposeChannels, TakenBeforeTheSwitch;
      var settled := Settle(document);
      forall key | key in settled.fields ensures settled.fields[key] != Null && NullFree(settled.fields[key]) {
        if key in document.fields { assert document.fields[key] != Null && NullFree(document.fields[key]); }
      }
    }
  }

  lemma RestoreKeepsSound(rules: Json -> bool, fleet: Fleet, event: Event)
    requires Sound(fleet) && FreshId(fleet.tree, event) && event.Restored?
    ensures Sound(Step(rules, fleet, event))
  {
    hide MergeLayers, Settle;
    var after := Step(rules, fleet, event).tree;
    var at := Position(fleet.tree.history, event.source);
    if at.Some? {
      SettleNullFree(fleet.tree.history[at.value].effective);
      AppendKeepsSound(fleet, after, after.history[|after.history| - 1]);
    }
  }

  lemma StepKeepsSound(rules: Json -> bool, fleet: Fleet, event: Event)
    requires Sound(fleet) && FreshId(fleet.tree, event) && NullFreeWrite(event)
    ensures Sound(Step(rules, fleet, event))
  {
    hide Sound, FreshId, NullFreeWrite;
    match event
    case Published(_, _, _, _) => PublishKeepsSound(rules, fleet, event);
    case Restored(_, _, _) => RestoreKeepsSound(rules, fleet, event);
    case Pulled => PullKeepsSound(fleet);
  }

  /** While nobody authors a `null`, a store that pulls at any moments of any run always runs the
      document of the version it reports, whether each pull was answered by a patch or a snapshot. */
  lemma {:induction false} StoreStaysInStep(rules: Json -> bool, start: Fleet, events: seq<Event>)
    requires Sound(start)
    requires forall i :: 0 <= i < |events| ==>
               NullFreeWrite(events[i]) && FreshId(Run(rules, start, events[..i]).tree, events[i])
    ensures Sound(Run(rules, start, events))
  {
    if events != [] {
      var before := events[..|events| - 1];
      forall i | 0 <= i < |before|
        ensures NullFreeWrite(before[i]) && FreshId(Run(rules, start, before[..i]).tree, before[i])
      {
        assert before[..i] == events[..i];
      }
      StoreStaysInStep(rules, start, before);
      StepKeepsSound(rules, Run(rules, start, before), events[|events| - 1]);
    }
  }
}

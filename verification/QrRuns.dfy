/**
 QR ordering over whole runs: what keeps a store's three facts in agreement, and what does not. A publish
 keeps them so. A rollback does exactly when the version it names is from before the switch, and so is
 settled, or agreed itself: a version published since the switch by a store that had not set it yet is
 restored as it was.
 */
module QrRuns {
  import opened Outcomes
  import opened Json
  import opened ConfigTree
  import opened LayerWrites
  import opened QrOrdering
  import opened ConditionalWrites
  import opened Publishing
  import opened QrWrites

  const RANDOM_BITS := 0x1_0000_0000_0000_0000_0000

  /** The instant a version's id was minted at: the ULID's high 48 bits. */
  function MintedAt(id: VersionId): int {
    id / RANDOM_BITS
  }

  /** The version was published before QR ordering had one switch. */
  predicate Predates(id: VersionId, since: Option<int>) {
    since.Some? && MintedAt(id) < since.value
  }

  /** A Store-layer publish whose nodes are well formed, a publish of other nodes at another layer, or
      a rollback that settles exactly the versions from before the switch. */
  ghost predicate WellFormed(job: Job, since: Option<int>) {
    match job
    case NodePublish(level, _, compose) =>
      forall before :: compose(before).Ok? ==>
        if level == Store then WellFormedNodes(compose(before).value) else !Touches(compose(before).value)
    case LayerWrite(_, _, _) => false
    case Rollback(source, settles, _) => settles == Predates(source, since)
  }

  predicate WellFormedNodes(nodes: seq<Node>) {
    && DistinctKeys(nodes)
    && (Sets(nodes, SWITCH) ==> WrittenSwitch(nodes).Some?)
    && (Sets(nodes, QR_NODE) ==> LayerWrites.ValueOf(nodes, QR_NODE).value.Obj?)
  }

  /** The versions the rollbacks among `jobs` name. */
  function Named(jobs: seq<Job>): set<VersionId> {
    set who | 0 <= who < |jobs| && jobs[who].Rollback? :: jobs[who].source
  }

  /** Every layer is an object, the Device layer is silent on the three, every version is an object, the store
      runs a document whose three agree, and so do those of the versions `named` that are not from before the
      switch. */
  ghost predicate Agrees(tree: Tree, since: Option<int>, named: set<VersionId>) {
    && tree.tenant.Obj? && tree.brand.Obj? && Writable(tree)
    && Aligned(tree.Effective())
    && (forall i :: 0 <= i < |tree.history| ==>
          && var Version(id, effective, _) := tree.history[i];
             effective.Obj? && (id in named && !Predates(id, since) ==> Aligned(effective)))
  }

  /** A version appended to a tree that agrees, running a document whose three agree. */
  lemma AppendedAgrees(tree: Tree, after: Tree, last: Version, since: Option<int>, named: set<VersionId>)
    requires Agrees(tree, since, named) && after.history == tree.history + [last] && last.effective == after.Effective()
    requires after.tenant.Obj? && after.brand.Obj? && Writable(after) && last.effective.Obj? && Aligned(last.effective)
    ensures Agrees(after, since, named)
  {
    hide Aligned, Writable, Predates;
  }

  /** A publish that landed, as the version it appends. */
  lemma PublishAppends(cloud: Cloud, job: Job, tree: Tree, id: VersionId, nodes: seq<Node>)
    requires job.NodePublish? && Attempt(cloud, job, Some(tree), id).Ok?
             && nodes == NodesFor(job.level, Some(tree), job.compose(Some(tree)).value)
    ensures var after := Attempt(cloud, job, Some(tree), id).value;
            after.history == tree.history + [Version(id, after.Effective(), KeysSet(nodes))]
  {
    PublishKeepsCoherent(cloud.rules, tree, job.level, LayerAfter(Some(tree), job.level, nodes), id, KeysSet(nodes));
  }

  lemma StorePublishAgrees(cloud: Cloud, job: Job, tree: Tree, id: VersionId, since: Option<int>,
                           named: set<VersionId>)
    requires job.NodePublish? && job.level == Store && WellFormed(job, since)
    requires Agrees(tree, since, named) && Attempt(cloud, job, Some(tree), id).Ok?
    ensures Agrees(Attempt(cloud, job, Some(tree), id).value, since, named)
  {
    hide Attempt, Aligned, Alignment, Predates;
    var before := Some(tree);
    LandedPublish(cloud, job, before, id);
    var nodes := job.compose(before).value;
    var after := Attempt(cloud, job, before, id).value;
    PublishAppends(cloud, job, tree, id, Alignment(before, nodes));
    assert after.tenant == after.Layer(Tenant) && after.brand == after.Layer(Brand);
    assert after.store == after.Layer(Store) && after.device == after.Layer(Device);
    assert tree.tenant == tree.Layer(Tenant) && tree.brand == tree.Layer(Brand) && tree.device == tree.Layer(Device);
    assert after.Effective() == DocumentAfter(before, Alignment(before, nodes));
    assert Aligned(after.Effective()) by {
      if Touches(nodes) { AlignedWriteExactly(before, nodes); } else { OtherWriteKeepsThree(before, nodes); }
    }
    AppendedAgrees(tree, after, Version(id, after.Effective(), KeysSet(Alignment(before, nodes))), since, named);
  }

  lemma SameThree(document: Json, other: Json)
    requires document.Obj? && other.Obj?
    requires forall key :: key == SWITCH || key == QR_NODE || key == CHANNELS_NODE ==>
             Lookup(document, key) == Lookup(other, key)
    ensures Aligned(document) <==> Aligned(other)
  {
    assert Lookup(document, SWITCH) == Lookup(other, SWITCH) && Lookup(document, QR_NODE) == Lookup(other, QR_NODE);
    assert Lookup(document, CHANNELS_NODE) == Lookup(other, CHANNELS_NODE);
  }

  /** Two trees whose layers are objects that say the same of the three. */
  ghost predicate SameLayers(after: Tree, tree: Tree) {
    && (forall level :: after.Layer(level).Obj? && tree.Layer(level).Obj?)
    && forall level, key :: IsOfThree(key) ==> Lookup(after.Layer(level), key) == Lookup(tree.Layer(level), key)
  }

  /** They compose to documents that say the same of the three. */
  lemma SameComposed(after: Tree, tree: Tree, key: string)
    requires SameLayers(after, tree) && IsOfThree(key)
    ensures Lookup(after.Effective(), key) == Lookup(tree.Effective(), key)
    ensures after.Effective().Obj? && tree.Effective().Obj?
  {
    ByLevel(after);
    ByLevel(tree);
    ComposedLookup(after, key);
    ComposedLookup(tree, key);
  }

  lemma SameLayersAgree(after: Tree, tree: Tree)
    requires SameLayers(after, tree) && Writable(tree)
    ensures after.tenant.Obj? && after.brand.Obj? && Writable(after)
    ensures after.Effective().Obj? && (Aligned(tree.Effective()) ==> Aligned(after.Effective()))
  {
    hide Aligned, MergeLayers;
    ByLevel(after);
    ByLevel(tree);
    assert IsOfThree(SWITCH) && IsOfThree(QR_NODE) && IsOfThree(CHANNELS_NODE);
    forall key | IsOfThree(key) ensures Lookup(after.Effective(), key) == Lookup(tree.Effective(), key) {
      SameComposed(after, tree, key);
    }
    SameComposed(after, tree, SWITCH);
    SameThree(after.Effective(), tree.Effective());
    assert forall key :: IsOfThree(key) ==> Lookup(after.Layer(Device), key) == Lookup(tree.Layer(Device), key);
  }

  lemma OtherLayerPublishAgrees(cloud: Cloud, job: Job, tree: Tree, id: VersionId, since: Option<int>,
                                named: set<VersionId>)
    requires job.NodePublish? && job.level != Store && WellFormed(job, since)
    requires Agrees(tree, since, named) && Attempt(cloud, job, Some(tree), id).Ok?
    ensures Agrees(Attempt(cloud, job, Some(tree), id).value, since, named)
  {
    hide Attempt, Aligned, Predates, MergeLayers;
    var before := Some(tree);
    LandedPublish(cloud, job, before, id);
    var nodes := job.compose(before).value;
    var after := Attempt(cloud, job, before, id).value;
    PublishAppends(cloud, job, tree, id, nodes);
    ByLevel(tree);
    forall level, key | IsOfThree(key) ensures Lookup(after.Layer(level), key) == Lookup(tree.Layer(level), key) {
      assert !Sets(nodes, key);
    }
    assert SameLayers(after, tree);
    SameLayersAgree(after, tree);
    AppendedAgrees(tree, after, Version(id, after.Effective(), KeysSet(nodes)), since, named);
  }

  /** A rollback that settles exactly the versions from before the switch leaves a document whose three agree
      exactly when the version it names is one of those, or agreed itself. */
  lemma RollbackAgreesExactly(cloud: Cloud, job: Job, tree: Tree, id: VersionId, since: Option<int>)
    requires job.Rollback? && WellFormed(job, since)
    requires WellKept(tree) && Attempt(cloud, job, Some(tree), id).Ok?
    ensures Position(tree.history, job.source).Some?
    ensures Aligned(Attempt(cloud, job, Some(tree), id).value.Effective()) <==>
            || Predates(job.source, since)
            || Aligned(tree.history[Position(tree.history, job.source).value].effective)
  {
    RollbackRestores(cloud, job, tree, id);
    hide Attempt, Aligned, Settle, MergeLayers, Predates;
    SettlePreservesMeaning(tree.history[Position(tree.history, job.source).value].effective);
  }

  /** An accepted rollback, as the version it appends. */
  lemma RollbackRestores(cloud: Cloud, job: Job, tree: Tree, id: VersionId)
    requires job.Rollback? && Attempt(cloud, job, Some(tree), id).Ok?
    requires forall i :: 0 <= i < |tree.history| ==> tree.history[i].effective.Obj?
    ensures Position(tree.history, job.source).Some?
    ensures var after := Attempt(cloud, job, Some(tree), id).value;
            var document := tree.history[Position(tree.history, job.source).value].effective;
            && after.Effective() == (if job.settles then Settle(document) else document)
            && after.Effective().Obj?
            && after.tenant.Obj? && after.brand == after.store == after.device == EMPTY
            && after.history == tree.history + [Version(id, after.Effective(), KeysOf(after.Effective()))]
  {
    hide Settle, MergeLayers;
    var settle := (document: Json) => if job.settles then Settle(document) else document;
    SettlePreservesMeaning(tree.history[Position(tree.history, job.source).value].effective);
    RestoreReinstates(tree, job.source, id, settle);
    assert Restore(tree, job.source, id, settle).value == Attempt(cloud, job, Some(tree), id).value;
  }

  lemma RollbackAgrees(cloud: Cloud, job: Job, tree: Tree, id: VersionId, since: Option<int>,
                       named: set<VersionId>)
    requires job.Rollback? && WellFormed(job, since) && job.source in named
    requires Agrees(tree, since, named) && Attempt(cloud, job, Some(tree), id).Ok?
    ensures Agrees(Attempt(cloud, job, Some(tree), id).value, since, named)
  {
    RollbackRestores(cloud, job, tree, id);
    hide Attempt, Aligned, Settle, MergeLayers, Predates;
    var after := Attempt(cloud, job, Some(tree), id).value;
    SettlePreservesMeaning(tree.history[Position(tree.history, job.source).value].effective);
    AppendedAgrees(tree, after, Version(id, after.Effective(), KeysOf(after.Effective())), since, named);
  }

  lemma {:induction false} ReplayAgrees(cloud: Cloud, jobs: seq<Job>, start: Tree, log: seq<Commit>, since: Option<int>)
    requires forall who :: 0 <= who < |jobs| ==> WellFormed(jobs[who], since)
    requires forall i :: 0 <= i < |log| ==> log[i].who < |jobs|
    requires Agrees(start, since, Named(jobs))
    ensures Replay(Publishers(cloud, jobs), Some(start), log).Some?
    ensures Agrees(Replay(Publishers(cloud, jobs), Some(start), log).value, since, Named(jobs))
  {
    hide Attempt, Agrees;
    if log != [] {
      var last := log[|log| - 1];
      ReplayAgrees(cloud, jobs, start, log[..|log| - 1], since);
      var before, job := Replay(Publishers(cloud, jobs), Some(start), log[..|log| - 1]), jobs[last.who];
      var attempt := Attempt(cloud, job, before, last.id);
      assert Publishers(cloud, jobs).change(last.who, before, last.id) == attempt;
      if attempt.Ok? {
        if job.Rollback? {
          RollbackAgrees(cloud, job, before.value, last.id, since, Named(jobs));
        } else if job.level == Store {
          StorePublishAgrees(cloud, job, before.value, last.id, since, Named(jobs));
        } else {
          OtherLayerPublishAgrees(cloud, job, before.value, last.id, since, Named(jobs));
        }
      }
    }
  }

  /** A store whose three agree keeps them in agreement in every interleaving of well-formed publishes and
      rollbacks, as long as no rollback names a version it already had, published since the switch, whose
      three did not agree; and so at every moment it takes a QR order exactly when its switch is on and its
      list admits QR. */
  lemma AgreementSurvivesEveryRun(cloud: Cloud, jobs: seq<Job>, start: System<Tree, Refusal>, acts: seq<Act>,
                                  since: Option<int>)
    requires Initial(Publishers(cloud, jobs), start)
    requires forall who :: 0 <= who < |jobs| ==> WellFormed(jobs[who], since)
    requires start.row.Some? && Agrees(start.row.value.value, since, Named(jobs))
    ensures var document := DocumentOf(Stored(Run(Publishers(cloud, jobs), start, acts).row));
            && Aligned(document)
            && (Takes(document) <==> TakenBeforeTheSwitch(document))
  {
    RunKeepsInv(Publishers(cloud, jobs), start, acts);
    var sys := Run(Publishers(cloud, jobs), start, acts);
    ReplayAgrees(cloud, jobs, start.row.value.value, sys.log, since);
    AlignedRunsAsBefore(DocumentOf(Stored(sys.row)));
  }

  // --- A rollback that undoes the agreement --------------------------------------------------------------

  const TIPS := "tips_enabled"

  /** The store's first version, published since the switch and before it set its own; then its switch. */
  const UNSET := Obj(map[TIPS := Bool(true)])
  const SET := Obj(map[TIPS := Bool(true), SWITCH := Bool(true)])

  const NEWCOMER := Tree(EMPTY, EMPTY, UNSET, EMPTY, [Version(0, UNSET, {TIPS})], DEFAULT_K)
  const SWITCHED := Tree(EMPTY, EMPTY, SET, EMPTY, [Version(0, UNSET, {TIPS}), Version(1, SET, {SWITCH})], DEFAULT_K)

  /** A cloud that lets everything through. */
  function OpenCloud(): Cloud {
    Cloud((document: Json) => true, [])
  }

  function Writing(key: string): Job {
    NodePublish(Store, Required, before => Ok([(key, Bool(true))]))
  }

  lemma NewcomerDocuments()
    ensures NEWCOMER.Effective() == UNSET && SWITCHED.Effective() == SET
    ensures !Aligned(UNSET) && Aligned(SET)
  {
    KeysDiffer();
    assert |TIPS| == 12 && |SWITCH| == 19 && |QR_NODE| == 2 && |CHANNELS_NODE| == 8;
    EffectiveLayers(NEWCOMER);
    EffectiveLayers(SWITCHED);
    MergeEmpty(EMPTY);
    MergeEmpty(UNSET);
    MergeEmpty(SET);
  }

  lemma NothingFollows()
    ensures Alignment(None, [(TIPS, Bool(true))]) == [(TIPS, Bool(true))]
    ensures Alignment(Some(NEWCOMER), [(SWITCH, Bool(true))]) == [(SWITCH, Bool(true))]
  {
    NewcomerDocuments();
    assert |TIPS| == 12 && |SWITCH| == 19 && |QR_NODE| == 2 && |CHANNELS_NODE| == 8;
    hide MergeLayers, ComposeChannels;
    assert !Touches([(TIPS, Bool(true))]);
  }

  /** A publish of one node that brings nothing with it, as the tree it saves. */
  lemma OneNodeLands(before: Option<Tree>, key: string, id: VersionId, after: Tree)
    requires Alignment(before, [(key, Bool(true))]) == [(key, Bool(true))] && Prerequisites(key) == []
    requires after.Effective().Obj?
    requires after == Current(before).WithLayer(Store, Obj(LayerBefore(before, Store)[key := Bool(true)])).(
                        history := Current(before).history + [Version(id, after.Effective(), {key})])
    ensures Attempt(OpenCloud(), Writing(key), before, id) == Ok(after)
  {
    hide Alignment, MergeLayers;
    var nodes := [(key, Bool(true))];
    assert NodesFor(Store, before, nodes) == nodes;
    assert nodes[0].0 == key;
    assert KeysSet(nodes) == {key};
    assert nodes == [] + [nodes[0]];
    WrittenStep(LayerBefore(before, Store), [], nodes[0]);
    assert Written(LayerBefore(before, Store), []) == LayerBefore(before, Store);
    assert after.Effective() == Current(before).WithLayer(Store, LayerAfter(before, Store, nodes)).Effective();
  }

  /** Two publishes, neither of them refused, bring a store that was never published to there. */
  lemma SwitchedIsReached()
    ensures Attempt(OpenCloud(), Writing(TIPS), None, 0) == Ok(NEWCOMER)
    ensures Attempt(OpenCloud(), Writing(SWITCH), Some(NEWCOMER), 1) == Ok(SWITCHED)
  {
    NewcomerDocuments();
    NothingFollows();
    hide MergeLayers, Attempt, Alignment, Aligned;
    assert |TIPS| == 12 && |SWITCH| == 19 && |"menu"| == 4;
    OneNodeLands(None, TIPS, 0, NEWCOMER);
    OneNodeLands(Some(NEWCOMER), SWITCH, 1, SWITCHED);
  }

  /** A store whose three agree, which an accepted and well-formed rollback leaves out of agreement. */
  lemma RollbackUndoesAgreement()
    ensures WellKept(SWITCHED) && Writable(SWITCHED) && Aligned(SWITCHED.Effective())
    ensures var job, since := Rollback(0, false, Some(1)), Some(0);
            && WellFormed(job, since)
            && var after := Attempt(OpenCloud(), job, Some(SWITCHED), 2);
               after.Ok? && !Aligned(after.value.Effective())
  {
    NewcomerDocuments();
    assert |TIPS| == 12 && |SWITCH| == 19 && |QR_NODE| == 2 && |CHANNELS_NODE| == 8;
    hide Aligned, MergeLayers;
    assert WellKept(SWITCHED);
    assert Attempt(OpenCloud(), Rollback(0, false, Some(1)), Some(SWITCHED), 2).Ok?;
    RollbackAgreesExactly(OpenCloud(), Rollback(0, false, Some(1)), SWITCHED, 2, Some(0));
  }
}

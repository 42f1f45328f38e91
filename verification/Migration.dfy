/**
 The one-time setting of every store's switch: each store is published the switch it already ran,
 once, behind a recorded marker. A boot can be cut off anywhere before the marker is written, and
 the next boot runs it again.
 */
module Migration {
  import opened Outcomes
  import opened Json
  import opened ConfigTree
  import opened LayerWrites
  import opened QrOrdering
  import opened ConfirmedValues
  import opened Publishing
  import opened QrWrites
  import opened DataMigrations

  const MIGRATION := "qr_ordering_one_switch"

  type StoreId = nat

  datatype StoreOutcome = Published | Unchanged | Unconfigured | Failed

  // --- One store -----------------------------------------------------------------------------------------

  /** The publish that sets a store's switch to what the version it runs did. */
  function SwitchPublish(): Job {
    NodePublish(Store, Required, before => Ok([(SWITCH, Bool(RanSwitch(before)))]))
  }

  predicate RanSwitch(before: Option<Tree>) {
    before.Some? && before.value.Running().Some? && SettledSwitch(before.value.Running().value)
  }

  function SettleStore(cloud: Cloud, tree: Tree, id: VersionId): (Tree, StoreOutcome) {
    if tree.Running().None? then (tree, Unconfigured)
    else if Aligned(tree.Running().value) then (tree, Unchanged)
    else match Attempt(cloud, SwitchPublish(), Some(tree), id)
         case Err(_) => (tree, Failed)
         case Ok(next) => (next, Published)
  }

  /** The last version is what the layers compose to, and the layers let a Store-layer write through. */
  ghost predicate Sound(tree: Tree) {
    Coherent(tree) && Writable(tree)
  }

  /** Setting a store's switch leaves the three in agreement and the store taking QR orders, by its switch,
      exactly as it did before there was one, by one new version; or leaves the store as it was. */
  lemma SettleStoreKeepsMeaning(cloud: Cloud, tree: Tree, id: VersionId)
    requires Sound(tree)
    ensures var (after, outcome) := SettleStore(cloud, tree, id);
            && Sound(after)
            && (outcome == Published ==>
                  && after.Running().Some? && Aligned(after.Running().value)
                  && SwitchOf(after.Running().value) == TakenBeforeTheSwitch(tree.Running().value)
                  && |after.history| == |tree.history| + 1)
            && (outcome == Published || outcome == Unchanged ==>
                  && after.Running().Some? && tree.Running().Some?
                  && Takes(after.Running().value) == TakenBeforeTheSwitch(tree.Running().value))
            && (outcome != Published ==> after == tree)
            && (after.Running().Some? <==> tree.Running().Some?)
            && (after.Running().Some? ==>
                  TakenBeforeTheSwitch(after.Running().value) == TakenBeforeTheSwitch(tree.Running().value))
  {
    hide Attempt, Sound, Aligned, SwitchOf, TakenBeforeTheSwitch, Takes;
    if tree.Running().Some? {
      if Aligned(tree.Running().value) {
        AlignedRunsAsBefore(tree.Running().value);
      } else {
        var attempt := Attempt(cloud, SwitchPublish(), Some(tree), id);
        if attempt.Ok? {
          SwitchPublished(cloud, tree, id, attempt.value);
          AlignedRunsAsBefore(attempt.value.Running().value);
        }
      }
    }
  }

  function SwitchNodes(tree: Tree): seq<Node> {
    [(SWITCH, Bool(RanSwitch(Some(tree))))]
  }

  /** The document a store would run once its switch is set, with what follows it. */
  function SwitchDocument(tree: Tree): Json {
    DocumentAfter(Some(tree), Alignment(Some(tree), SwitchNodes(tree)))
  }

  /** The cloud lets the switch of this store be set: the document it leads to validates, and starts no value
      that needs confirming. */
  predicate Settleable(cloud: Cloud, tree: Tree) {
    Validates(cloud.rules, SwitchDocument(tree)) && Check(cloud.register, tree.Effective(), SwitchDocument(tree)).None?
  }

  /** Setting the switch, with what follows it, needs no other node. */
  lemma SwitchNeedsNothing(cloud: Cloud, tree: Tree)
    ensures var nodes := Alignment(Some(tree), SwitchNodes(tree));
            CheckPrerequisites(cloud.register, tree.Effective(), nodes, 0).None?
  {
    var nodes := Alignment(Some(tree), SwitchNodes(tree));
    assert |"menu"| == 4 && |CHANNELS_NODE| == 8 && |QR_NODE| == 2 && |SWITCH| == 19;
    AlignmentLeaves(Some(tree), SwitchNodes(tree), "menu");
    hide Alignment;
    assert LastOf(SwitchNodes(tree), "menu").None?;
    forall i | 0 <= i < |nodes| ensures Prerequisites(nodes[i].0) == [] {
      assert Sets(nodes, nodes[i].0);
    }
  }

  /** The publish of a store's switch is accepted exactly when the store is one the cloud lets through. */
  lemma SwitchAccepted(cloud: Cloud, tree: Tree, id: VersionId)
    ensures Attempt(cloud, SwitchPublish(), Some(tree), id).Ok? <==> Settleable(cloud, tree)
  {
    SwitchNeedsNothing(cloud, tree);
    hide Alignment, CheckPrerequisites, Check, MergeLayers;
    var nodes := Alignment(Some(tree), SwitchNodes(tree));
    assert tree.WithLayer(Store, LayerAfter(Some(tree), Store, nodes)).Effective() == SwitchDocument(tree);
  }

  // --- Which stores the code's own cloud lets through ------------------------------------------------------

  ghost predicate SameOthers(document: Json, other: Json) {
    forall key :: !IsOfThree(key) ==> Lookup(document, key) == Lookup(other, key)
  }

  /** The validator reads none of the three, and no setting that needs confirming is a field of one: so it is of
      the capability validator and the settings register. */
  ghost predicate IgnoresThree(cloud: Cloud) {
    && (forall document: Json, other: Json ::
          document.Obj? && other.Obj? && SameOthers(document, other) ==> cloud.rules(document) == cloud.rules(other))
    && (forall i :: 0 <= i < |cloud.register| && cloud.register[i].confirm.Some? ==>
          !IsOfThree(cloud.register[i].node))
  }

  lemma SwitchLeavesStored(tree: Tree, key: string)
    requires tree.store.Obj? && !IsOfThree(key)
    ensures Lookup(LayerAfter(Some(tree), Store, Alignment(Some(tree), SwitchNodes(tree))), key) ==
            Lookup(tree.store, key)
  {
    hide Alignment;
    AlignmentLeaves(Some(tree), SwitchNodes(tree), key);
    assert LastOf(Alignment(Some(tree), SwitchNodes(tree)), key).None?;
  }

  /** Setting the switch, with what follows it, leaves the rest of the document as it was. */
  lemma SwitchLeavesOthers(tree: Tree)
    requires Writable(tree)
    ensures tree.Effective().Obj? && SwitchDocument(tree).Obj? && SameOthers(tree.Effective(), SwitchDocument(tree))
  {
    hide Alignment, MergeLayers, Written;
    var nodes := Alignment(Some(tree), SwitchNodes(tree));
    var after := tree.WithLayer(Store, LayerAfter(Some(tree), Store, nodes));
    EffectiveLayers(tree);
    EffectiveLayers(after);
    forall key | !IsOfThree(key) ensures Lookup(tree.Effective(), key) == Lookup(SwitchDocument(tree), key) {
      SwitchLeavesStored(tree, key);
      assert Lookup(after.store, key) == Lookup(tree.store, key);
    }
  }

  /** Then the switch of a store can be set exactly when the document it runs still validates. */
  lemma SettleableExactly(cloud: Cloud, tree: Tree)
    requires IgnoresThree(cloud) && Writable(tree)
    ensures Settleable(cloud, tree) <==> Validates(cloud.rules, tree.Effective())
  {
    hide SwitchDocument;
    SwitchLeavesOthers(tree);
    var before, after := tree.Effective(), SwitchDocument(tree);
    forall setting | setting in cloud.register ensures !Starts(before, after, setting) {
      if setting.confirm.Some? {
        assert Lookup(before, setting.node) == Lookup(after, setting.node);
      }
    }
  }

  const PAY_FIRST := "pay_first_enabled"
  const TABLES := "tables_enabled"

  /** Paying first and serving tables exclude one another. */
  function PayFirstCloud(): Cloud {
    Cloud((document: Json) => !(Lookup(document, PAY_FIRST) == Lookup(document, TABLES) == Some(Bool(true))), [])
  }

  /** A store running a version the validator would refuse today. */
  const BOTH := Obj(map[PAY_FIRST := Bool(true), TABLES := Bool(true)])
  const STRANDED := Tree(EMPTY, EMPTY, BOTH, EMPTY, [Version(1, BOTH, {})], DEFAULT_K)

  lemma StrandedRuns()
    ensures STRANDED.Effective() == BOTH && !Aligned(BOTH)
    ensures TakenBeforeTheSwitch(BOTH) && !Takes(BOTH)
  {
    assert |PAY_FIRST| == 17 && |TABLES| == 14 && |SWITCH| == 19 && |QR_NODE| == 2 && |CHANNELS_NODE| == 8;
    EffectiveLayers(STRANDED);
    MergeEmpty(EMPTY);
    MergeEmpty(BOTH);
  }

  /** Its switch is refused, whatever it would be set to, so that it stays out of agreement: it took QR orders,
      and no longer does. */
  lemma RefusedStore()
    ensures IgnoresThree(PayFirstCloud())
    ensures Sound(STRANDED) && !Aligned(STRANDED.Running().value)
    ensures !Settleable(PayFirstCloud(), STRANDED)
    ensures TakenBeforeTheSwitch(STRANDED.Running().value) && !Takes(STRANDED.Running().value)
  {
    StrandedRuns();
    hide MergeLayers, Aligned, Settleable, TakenBeforeTheSwitch, Takes;
    assert |PAY_FIRST| == 17 && |TABLES| == 14 && |SWITCH| == 19 && |QR_NODE| == 2 && |CHANNELS_NODE| == 8;
    SettleableExactly(PayFirstCloud(), STRANDED);
  }

  lemma SwitchPublished(cloud: Cloud, tree: Tree, id: VersionId, after: Tree)
    requires Sound(tree) && tree.Running().Some? && !Aligned(tree.Running().value)
    requires Attempt(cloud, SwitchPublish(), Some(tree), id) == Ok(after)
    ensures Sound(after) && |after.history| == |tree.history| + 1
    ensures after.Running().Some? && Aligned(after.Running().value)
    ensures SwitchOf(after.Running().value) == TakenBeforeTheSwitch(tree.Running().value)
    ensures TakenBeforeTheSwitch(after.Running().value) == TakenBeforeTheSwitch(tree.Running().value)
  {
    SwitchLands(cloud, tree, id, after);
    hide Attempt;
    SwitchWriteMeans(tree);
  }

  lemma SwitchLands(cloud: Cloud, tree: Tree, id: VersionId, after: Tree)
    requires Sound(tree)
    requires Attempt(cloud, SwitchPublish(), Some(tree), id) == Ok(after)
    ensures Sound(after) && |after.history| == |tree.history| + 1
    ensures after.Running() == Some(DocumentAfter(Some(tree), Alignment(Some(tree), SwitchNodes(tree))))
  {
    hide Alignment, CheckPrerequisites, Check, Validates;
    var before, nodes := Some(tree), SwitchNodes(tree);
    LandedPublish(cloud, SwitchPublish(), before, id);
    PublishKeepsCoherent(cloud.rules, tree, Store, LayerAfter(before, Store, Alignment(before, nodes)), id,
                         KeysSet(Alignment(before, nodes)));
    assert after.Effective() == DocumentAfter(before, Alignment(before, nodes));
    assert after.device == after.Layer(Device) == tree.Layer(Device) == tree.device;
  }

  lemma SwitchWriteMeans(tree: Tree)
    requires Sound(tree) && tree.Running().Some? && !Aligned(tree.Running().value)
    ensures var document := DocumentAfter(Some(tree), Alignment(Some(tree), SwitchNodes(tree)));
            && Aligned(document)
            && SwitchOf(document) == TakenBeforeTheSwitch(tree.Running().value)
            && TakenBeforeTheSwitch(document) == TakenBeforeTheSwitch(tree.Running().value)
  {
    var before, nodes, document := Some(tree), SwitchNodes(tree), tree.Effective();
    OnlySwitch(nodes);
    AlignedWriteExactly(before, nodes);
    SwitchAfterWrite(before, nodes);
    ChannelsAfterWrite(before, nodes);
    AlignedRunsAsBefore(DocumentAfter(before, Alignment(before, nodes)));
    if ChannelList(document).Some? {
      ComposeKeepsMeaning(ChannelList(document).value, TakenBeforeTheSwitch(document));
    }
  }

  lemma OnlySwitch(nodes: seq<Node>)
    requires |nodes| == 1 && nodes[0].0 == SWITCH && nodes[0].1.Bool?
    ensures Touches(nodes) && DistinctKeys(nodes)
    ensures Sets(nodes, SWITCH) && !Sets(nodes, QR_NODE) && !Sets(nodes, CHANNELS_NODE)
    ensures WrittenSwitch(nodes) == Some(nodes[0].1.flag)
  {
    KeysDiffer();
  }

  /** A store that was settled, or failed, is left exactly so by any later run. */
  lemma SettleStoreOnce(cloud: Cloud, tree: Tree, id: VersionId, again: VersionId)
    requires Sound(tree)
    ensures SettleStore(cloud, SettleStore(cloud, tree, id).0, again).0 == SettleStore(cloud, tree, id).0
  {
    hide Attempt, Settleable, Sound, Aligned;
    SettleStoreKeepsMeaning(cloud, tree, id);
    SwitchAccepted(cloud, tree, id);
    SwitchAccepted(cloud, tree, again);
  }

  // --- One boot ----------------------------------------------------------------------------------------------

  type Trees = map<StoreId, Tree>

  /** The trees after the listed stores are settled in order; a store with no tree has nothing to settle. */
  function SettleStores(cloud: Cloud, trees: Trees, stores: seq<StoreId>, ids: seq<VersionId>): (after: Trees)
    requires |ids| == |stores|
    ensures after.Keys == trees.Keys
  {
    if stores == [] then trees
    else
      var last := |stores| - 1;
      var before := SettleStores(cloud, trees, stores[..last], ids[..last]);
      if stores[last] in before then before[stores[last] := SettleStore(cloud, before[stores[last]], ids[last]).0]
      else before
  }

  datatype Report = Report(published: nat, kept: nat, unconfigured: nat, failed: seq<StoreId>)

  datatype OneSwitch = OneSwitch(since: int, report: Option<Report>)

  class ConfigTrees {
    var trees: Trees

    constructor (trees: Trees)
      ensures this.trees == trees
    {
      this.trees := trees;
    }
  }

  function OnRecord(names: map<string, int>): Option<int> {
    if MIGRATION in names then Some(names[MIGRATION]) else None
  }

  /** One whole run: nothing when it is already recorded; otherwise every listed store settled, each
      counted once, and the run recorded under the time it began at. It is the boot that was not cut off. */
  method RunOnce(cloud: Cloud, config: ConfigTrees, record: InMemoryDataMigrations, stores: seq<StoreId>,
                 ids: seq<VersionId>, now: int) returns (result: Option<OneSwitch>)
    requires |ids| == |stores| && record.Valid()
    modifies config, record
    ensures record.Valid()
    ensures MIGRATION in old(record.names) ==>
              && config.trees == old(config.trees) && record.names == old(record.names)
              && result == Some(OneSwitch(old(record.names)[MIGRATION], None))
    ensures MIGRATION !in old(record.names) ==> config.trees == SettleStores(cloud, old(config.trees), stores, ids)
    ensures MIGRATION !in old(record.names) && result.Some? ==>
              && record.names == old(record.names)[MIGRATION := now]
              && result.value.since == now && result.value.report.Some?
              && var report := result.value.report.value;
                 && report.published + report.kept + report.unconfigured + |report.failed| == |stores|
                 && Versions(config.trees) == Versions(old(config.trees)) + report.published
    ensures result.None? ==> record.names == old(record.names)
    ensures var boot := Boot(stores, ids, |stores|, result.Some?, now);
            WellFormedBoot(old(config.trees).Keys, boot) ==>
              BootOnce(cloud, State(old(config.trees), OnRecord(old(record.names))), boot) ==
              State(config.trees, OnRecord(record.names))
  {
    hide SettleStore, Versions;
    var since := record.RecordedTime(MIGRATION);
    if since.Some? {
      return Some(OneSwitch(since.value, None));
    }
    var report := Report(0, 0, 0, []);
    for i := 0 to |stores|
      invariant record.names == old(record.names) && record.Valid()
      invariant config.trees == SettleStores(cloud, old(config.trees), stores[..i], ids[..i])
      invariant report.published + report.kept + report.unconfigured + |report.failed| == i
      invariant Versions(config.trees) == Versions(old(config.trees)) + report.published
    {
      assert stores[..i + 1][..i] == stores[..i] && ids[..i + 1][..i] == ids[..i];
      if stores[i] !in config.trees {
        report := report.(unconfigured := report.unconfigured + 1);
      } else {
        var (tree, outcome) := SettleStore(cloud, config.trees[stores[i]], ids[i]);
        OneVersionMore(cloud, config.trees[stores[i]], ids[i]);
        VersionsUpdated(config.trees, stores[i], tree);
        config.trees := config.trees[stores[i] := tree];
        match outcome
        case Published => report := report.(published := report.published + 1);
        case Unchanged => report := report.(kept := report.kept + 1);
        case Unconfigured => report := report.(unconfigured := report.unconfigured + 1);
        case Failed => report := report.(failed := report.failed + [stores[i]]);
      }
    }
    assert stores[..|stores|] == stores && ids[..|ids|] == ids;
    var recorded := record.Record(MIGRATION, now);
    if !recorded {
      return None;
    }
    return Some(OneSwitch(now, Some(report)));
  }

  /** How many versions the stores hold between them. */
  ghost function Versions(trees: Trees): nat {
    if trees == map[] then 0
    else
      var store :| store in trees;
      |trees[store].history| + Versions(trees - {store})
  }

  lemma VersionsSplit(trees: Trees, store: StoreId)
    requires store in trees
    ensures Versions(trees) == |trees[store].history| + Versions(trees - {store})
    decreases |trees|
  {
    var first :| first in trees && Versions(trees) == |trees[first].history| + Versions(trees - {first});
    if first != store {
      VersionsSplit(trees - {first}, store);
      VersionsSplit(trees - {store}, first);
      assert trees - {first} - {store} == trees - {store} - {first};
    }
  }

  lemma VersionsUpdated(trees: Trees, store: StoreId, tree: Tree)
    requires store in trees
    ensures Versions(trees[store := tree]) == Versions(trees) - |trees[store].history| + |tree.history|
  {
    VersionsSplit(trees, store);
    VersionsSplit(trees[store := tree], store);
    assert trees[store := tree] - {store} == trees - {store};
  }

  lemma OneVersionMore(cloud: Cloud, tree: Tree, id: VersionId)
    ensures var (after, outcome) := SettleStore(cloud, tree, id);
            |after.history| == |tree.history| + if outcome == Published then 1 else 0
  {
    hide Aligned;
    if Attempt(cloud, SwitchPublish(), Some(tree), id).Ok? {
      LandedPublish(cloud, SwitchPublish(), Some(tree), id);
    }
  }

  // --- Any number of boots, cut off anywhere ------------------------------------------------------------------

  /** A boot: the stores it lists with the ids it would mint, how many it settles before it is cut off,
      and whether it lives to write the record, which takes settling them all. */
  datatype Boot = Boot(stores: seq<StoreId>, ids: seq<VersionId>, reached: nat, records: bool, now: int)

  datatype State = State(trees: Trees, recorded: Option<int>)

  predicate WellFormedBoot(known: set<StoreId>, boot: Boot) {
    && |boot.ids| == |boot.stores| && boot.reached <= |boot.stores|
    && (boot.records ==> boot.reached == |boot.stores|)
    && (forall store :: store in known ==> store in boot.stores)
  }

  function BootOnce(cloud: Cloud, state: State, boot: Boot): State
    requires WellFormedBoot(state.trees.Keys, boot)
  {
    if state.recorded.Some? then state
    else State(SettleStores(cloud, state.trees, boot.stores[..boot.reached], boot.ids[..boot.reached]),
               if boot.records then Some(boot.now) else None)
  }

  function Boots(cloud: Cloud, state: State, boots: seq<Boot>): (after: State)
    requires forall i :: 0 <= i < |boots| ==> WellFormedBoot(state.trees.Keys, boots[i])
    ensures after.trees.Keys == state.trees.Keys
  {
    if boots == [] then state
    else
      var before := Boots(cloud, state, boots[..|boots| - 1]);
      assert WellFormedBoot(state.trees.Keys, boots[|boots| - 1]);
      BootOnce(cloud, before, boots[|boots| - 1])
  }

  ghost predicate SettledFrom(cloud: Cloud, original: Tree, tree: Tree) {
    exists id :: tree == SettleStore(cloud, original, id).0
  }

  lemma SettleAgain(cloud: Cloud, original: Tree, tree: Tree, id: VersionId)
    requires Sound(original) && (tree == original || SettledFrom(cloud, original, tree))
    ensures SettledFrom(cloud, original, SettleStore(cloud, tree, id).0)
  {
    if tree != original {
      var first :| tree == SettleStore(cloud, original, first).0;
      SettleStoreOnce(cloud, original, first, id);
    }
  }

  /** After part of a listing, every store is as it was or settled once, and the listed ones are settled. */
  lemma {:induction false} ListingSettles(cloud: Cloud, originals: Trees, trees: Trees, stores: seq<StoreId>,
                                          ids: seq<VersionId>)
    requires |ids| == |stores| && originals.Keys == trees.Keys
    requires forall store :: store in originals ==> Sound(originals[store])
    requires forall store :: store in trees ==>
               trees[store] == originals[store] || SettledFrom(cloud, originals[store], trees[store])
    ensures var after := SettleStores(cloud, trees, stores, ids);
            forall store :: store in after ==>
              && (after[store] == originals[store] || SettledFrom(cloud, originals[store], after[store]))
              && (store in stores ==> SettledFrom(cloud, originals[store], after[store]))
  {
    hide SettleStore, SettledFrom, Sound;
    if stores != [] {
      var last := |stores| - 1;
      ListingSettles(cloud, originals, trees, stores[..last], ids[..last]);
      var before := SettleStores(cloud, trees, stores[..last], ids[..last]);
      if stores[last] in before {
        SettleAgain(cloud, originals[stores[last]], before[stores[last]], ids[last]);
      }
      assert forall store :: store in stores ==> store in stores[..last] || store == stores[last];
    }
  }

  ghost predicate Progress(cloud: Cloud, originals: Trees, state: State) {
    && state.trees.Keys == originals.Keys
    && (forall store :: store in originals ==>
          && (state.trees[store] == originals[store] || SettledFrom(cloud, originals[store], state.trees[store]))
          && (state.recorded.Some? ==> SettledFrom(cloud, originals[store], state.trees[store])))
  }

  lemma {:induction false} BootsProgress(cloud: Cloud, originals: Trees, boots: seq<Boot>)
    requires forall store :: store in originals ==> Sound(originals[store])
    requires forall i :: 0 <= i < |boots| ==> WellFormedBoot(originals.Keys, boots[i])
    ensures Progress(cloud, originals, Boots(cloud, State(originals, None), boots))
  {
    hide SettleStore, SettledFrom, Sound;
    if boots != [] {
      var last := boots[|boots| - 1];
      BootsProgress(cloud, originals, boots[..|boots| - 1]);
      var before := Boots(cloud, State(originals, None), boots[..|boots| - 1]);
      if before.recorded.None? {
        ListingSettles(cloud, originals, before.trees, last.stores[..last.reached], last.ids[..last.reached]);
        assert last.records ==> last.stores[..last.reached] == last.stores;
      }
    }
  }

  /** Boot `i` is the first that lives to write the record. */
  ghost predicate FirstToComplete(boots: seq<Boot>, i: nat) {
    i < |boots| && boots[i].records && forall j :: 0 <= j < i ==> !boots[j].records
  }

  lemma RecordStep(cloud: Cloud, state: State, boots: seq<Boot>)
    requires boots != [] && forall i :: 0 <= i < |boots| ==> WellFormedBoot(state.trees.Keys, boots[i])
    ensures var before, last := Boots(cloud, state, boots[..|boots| - 1]).recorded, boots[|boots| - 1];
            Boots(cloud, state, boots).recorded ==
            if before.Some? then before else if last.records then Some(last.now) else None
  {
  }

  /** The time on record is the first completed boot's. */
  lemma {:induction false} FirstCompletedBootRecords(cloud: Cloud, originals: Trees, boots: seq<Boot>)
    requires forall i :: 0 <= i < |boots| ==> WellFormedBoot(originals.Keys, boots[i])
    ensures var recorded := Boots(cloud, State(originals, None), boots).recorded;
            && (recorded.None? <==> forall i :: 0 <= i < |boots| ==> !boots[i].records)
            && (recorded.Some? ==> exists i: nat :: FirstToComplete(boots, i) && recorded == Some(boots[i].now))
  {
    if boots != [] {
      var shorter, last := boots[..|boots| - 1], |boots| - 1;
      FirstCompletedBootRecords(cloud, originals, shorter);
      RecordStep(cloud, State(originals, None), boots);
      hide Boots, WellFormedBoot;
      var before := Boots(cloud, State(originals, None), shorter).recorded;
      if before.Some? {
        var i: nat :| FirstToComplete(shorter, i) && before == Some(shorter[i].now);
        assert FirstToComplete(boots, i);
      } else {
        assert forall i :: 0 <= i < last ==> boots[i] == shorter[i];
        assert boots[last].records ==> FirstToComplete(boots, last);
      }
    }
  }

  /** The migration is safe to cut off and to run again: after any boots, no store has been published
      to more than once, and one that was has its three in agreement and reads before the switch as it
      did; and once one boot has completed, a configured store has its three in agreement exactly when it
      had already or the cloud lets its switch be set. */
  lemma MigrationIsCrashSafe(cloud: Cloud, originals: Trees, boots: seq<Boot>, store: StoreId)
    requires forall other :: other in originals ==> Sound(originals[other])
    requires forall i :: 0 <= i < |boots| ==> WellFormedBoot(originals.Keys, boots[i])
    requires store in originals
    ensures var original, after := originals[store], Boots(cloud, State(originals, None), boots).trees[store];
            && |original.history| <= |after.history| <= |original.history| + 1
            && (original.Running().None? ==> after == original)
            && (original.Running().Some? ==>
                  && after.Running().Some?
                  && TakenBeforeTheSwitch(after.Running().value) == TakenBeforeTheSwitch(original.Running().value)
                  && (after == original || Aligned(after.Running().value))
                  && ((exists i :: 0 <= i < |boots| && boots[i].records) ==>
                        (Aligned(after.Running().value) <==>
                           Aligned(original.Running().value) || Settleable(cloud, original))))
  {
    hide Attempt, Settleable, Sound, Aligned, TakenBeforeTheSwitch;
    var original, end := originals[store], Boots(cloud, State(originals, None), boots);
    BootsProgress(cloud, originals, boots);
    FirstCompletedBootRecords(cloud, originals, boots);
    var after := end.trees[store];
    if after != original || end.recorded.Some? {
      var id :| after == SettleStore(cloud, original, id).0;
      SettleStoreKeepsMeaning(cloud, original, id);
      SwitchAccepted(cloud, original, id);
    }
  }

  /** A cloud that reads none of the three leaves a store out of agreement exactly when the document it runs,
      out of agreement already, no longer validates. */
  lemma ValidStoresEndAligned(cloud: Cloud, originals: Trees, boots: seq<Boot>, store: StoreId)
    requires IgnoresThree(cloud)
    requires forall other :: other in originals ==> Sound(originals[other])
    requires forall i :: 0 <= i < |boots| ==> WellFormedBoot(originals.Keys, boots[i])
    requires exists i :: 0 <= i < |boots| && boots[i].records
    requires store in originals && originals[store].Running().Some?
    ensures var ran := originals[store].Running().value;
            var after := Boots(cloud, State(originals, None), boots).trees[store];
            && after.Running().Some?
            && (Aligned(after.Running().value) <==> Aligned(ran) || Validates(cloud.rules, ran))
  {
    MigrationIsCrashSafe(cloud, originals, boots, store);
    assert Sound(originals[store]);
    hide Boots, Settleable, Aligned, WellFormedBoot, IgnoresThree;
    SettleableExactly(cloud, originals[store]);
  }

  /** The intake of a store reads alike before the switch and since: its list refuses QR anyway, or its switch
      says what `qr.enabled` reads as. */
  predicate ReadsAlike(document: Json) {
    AdmitsQr(document) ==> SwitchOf(document) == QrEnabledReadsOn(document)
  }

  /** Once a boot has completed, a store takes QR orders, by its switch, exactly as it did before there was one
      if and only if its three agreed, or its switch can be set, or its intake reads alike anyway. */
  lemma StoresTakeAsBefore(cloud: Cloud, originals: Trees, boots: seq<Boot>, store: StoreId)
    requires forall other :: other in originals ==> Sound(originals[other])
    requires forall i :: 0 <= i < |boots| ==> WellFormedBoot(originals.Keys, boots[i])
    requires exists i :: 0 <= i < |boots| && boots[i].records
    requires store in originals && originals[store].Running().Some?
    ensures var ran := originals[store].Running().value;
            var after := Boots(cloud, State(originals, None), boots).trees[store];
            && after.Running().Some?
            && (Takes(after.Running().value) == TakenBeforeTheSwitch(ran) <==>
                Aligned(ran) || Settleable(cloud, originals[store]) || ReadsAlike(ran))
  {
    MigrationIsCrashSafe(cloud, originals, boots, store);
    hide Boots, Settleable, Aligned, WellFormedBoot, Sound;
    var after := Boots(cloud, State(originals, None), boots).trees[store];
    if Aligned(after.Running().value) {
      AlignedRunsAsBefore(after.Running().value);
    }
  }

  /** Under a cloud that reads none of the three, that is when its three agreed, or the document it ran
      validates, or its intake reads alike anyway. */
  lemma ValidStoresTakeAsBefore(cloud: Cloud, originals: Trees, boots: seq<Boot>, store: StoreId)
    requires IgnoresThree(cloud)
    requires forall other :: other in originals ==> Sound(originals[other])
    requires forall i :: 0 <= i < |boots| ==> WellFormedBoot(originals.Keys, boots[i])
    requires exists i :: 0 <= i < |boots| && boots[i].records
    requires store in originals && originals[store].Running().Some?
    ensures var ran := originals[store].Running().value;
            var after := Boots(cloud, State(originals, None), boots).trees[store];
            && after.Running().Some?
            && (Takes(after.Running().value) == TakenBeforeTheSwitch(ran) <==>
                Aligned(ran) || Validates(cloud.rules, ran) || ReadsAlike(ran))
  {
    StoresTakeAsBefore(cloud, originals, boots, store);
    assert Sound(originals[store]);
    hide Boots, Settleable, Aligned, WellFormedBoot, IgnoresThree, Takes, TakenBeforeTheSwitch, ReadsAlike;
    SettleableExactly(cloud, originals[store]);
  }

  lemma {:induction false} RecordedIsFinal(cloud: Cloud, state: State, boots: seq<Boot>)
    requires state.recorded.Some?
    requires forall i :: 0 <= i < |boots| ==> WellFormedBoot(state.trees.Keys, boots[i])
    ensures Boots(cloud, state, boots) == state
  {
    if boots != [] {
      RecordedIsFinal(cloud, state, boots[..|boots| - 1]);
    }
  }
}

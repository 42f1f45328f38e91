/**
 The device deny-list, the node whose new value depends on its current one: retiring a device
 appends it to the list the store runs. Composing inside the retry is what keeps two people's
 retirements from losing each other.
 */
module DenyList {
  import opened Outcomes
  import opened Json
  import opened ConfigTree
  import opened LayerWrites
  import opened QrOrdering
  import opened ConditionalWrites
  import opened Publishing
  import opened QrWrites

  const NODE := "revoked_devices"
  const IDS := "device_ids"
  const MAX_REVOKED_DEVICES := 512

  function Texts(items: seq<Json>): (texts: seq<string>)
    ensures forall text :: text in texts <==> Str(text) in items
  {
    if items == [] then []
    else if items[0].Str? then [items[0].text] + Texts(items[1..])
    else Texts(items[1..])
  }

  /** The ids on the list a store runs; a list that cannot be read has none. */
  function Listed(document: Json): seq<string> {
    var node := Lookup(document, NODE);
    if node.Some? && node.value.Has(IDS) && node.value.Get(IDS).Arr? then Texts(node.value.Get(IDS).items) else []
  }

  /** The list with `device` on it: appended once, and refused past the cap. */
  function AppendRevoked(before: Option<Tree>, device: string): Result<seq<Node>, string> {
    var ids := Listed(Document(before));
    if device in ids then Ok([(NODE, ListNode(ids))])
    else if |ids| >= MAX_REVOKED_DEVICES then Err("the deny-list is full")
    else Ok([(NODE, ListNode(ids + [device]))])
  }

  function ListNode(ids: seq<string>): Json {
    Obj(map[IDS := ListValue(ids)])
  }

  function Revocation(device: string): Job {
    NodePublish(Store, Required, before => AppendRevoked(before, device))
  }

  /** A publish of other nodes. */
  ghost predicate LeavesListAlone(job: Job) {
    job.NodePublish? && forall before :: job.compose(before).Ok? ==> !Sets(job.compose(before).value, NODE)
  }

  /** Every layer is an object, and no device carries its own list. */
  predicate Ready(tree: Tree) {
    tree.tenant.Obj? && tree.brand.Obj? && tree.store.Obj? && tree.device.Obj? && !tree.device.Has(NODE)
  }

  // --- The list the store runs -----------------------------------------------------------------------

  lemma {:induction false} TextsOfList(list: seq<string>)
    ensures Texts(ListValue(list).items) == list
  {
    if list != [] {
      assert ListValue(list).items[1..] == ListValue(list[1..]).items;
      TextsOfList(list[1..]);
    }
  }

  /** A list written on the Store layer is the list the store runs. */
  lemma WrittenListIsRun(tree: Tree, ids: seq<string>)
    requires Ready(tree) && Lookup(tree.store, NODE) == Some(ListNode(ids))
    ensures Listed(tree.Effective()) == ids
  {
    ComposedLookup(tree, NODE);
    var above := Over(Lookup(tree.tenant, NODE), Lookup(tree.brand, NODE));
    if above.Some? {
      OverlaidMember(Obj(map[NODE := above.value]), NODE, ListNode(ids), IDS);
    }
    TextsOfList(ids);
  }

  lemma AlignmentSets(before: Option<Tree>, nodes: seq<Node>)
    ensures LastOf(Alignment(before, nodes), NODE) == LastOf(nodes, NODE)
  {
    assert |NODE| == 15 && |CHANNELS_NODE| == 8 && |QR_NODE| == 2 && |SWITCH| == 19;
    AlignmentLeaves(before, nodes, NODE);
  }

  // --- One accepted write ------------------------------------------------------------------------------

  lemma RevocationLands(cloud: Cloud, device: string, before: Option<Tree>, id: VersionId)
    requires Attempt(cloud, Revocation(device), before, id).Ok? && Ready(Current(before))
    ensures var after := Attempt(cloud, Revocation(device), before, id).value;
            && Ready(after)
            && device in Listed(after.Effective())
            && forall other :: other in Listed(Current(before).Effective()) ==> other in Listed(after.Effective())
  {
    hide Attempt, Alignment, Texts, MergeLayers;
    var job := Revocation(device);
    LandedPublish(cloud, job, before, id);
    FreshDocument(before);
    var after, nodes := Attempt(cloud, job, before, id).value, AppendRevoked(before, device).value;
    AlignmentSets(before, nodes);
    assert LastOf(nodes, NODE) == Some(nodes[0].1);
    assert after.store == after.Layer(Store);
    assert after.tenant == after.Layer(Tenant) && after.brand == after.Layer(Brand)
        && after.device == after.Layer(Device);
    var ids := Listed(Document(before));
    WrittenListIsRun(after, if device in ids then ids else ids + [device]);
  }

  lemma OtherPublishLands(cloud: Cloud, job: Job, before: Option<Tree>, id: VersionId)
    requires LeavesListAlone(job) && Attempt(cloud, job, before, id).Ok? && Ready(Current(before))
    ensures var after := Attempt(cloud, job, before, id).value;
            Ready(after) && Listed(after.Effective()) == Listed(Current(before).Effective())
  {
    hide Attempt, Alignment, Texts, MergeLayers;
    LandedPublish(cloud, job, before, id);
    var after, tree, nodes := Attempt(cloud, job, before, id).value, Current(before), job.compose(before).value;
    AlignmentSets(before, nodes);
    assert !Sets(NodesFor(job.level, before, nodes), NODE);
    forall level
      ensures after.Layer(level).Obj? && Lookup(after.Layer(level), NODE) == Lookup(tree.Layer(level), NODE)
    {
      assert tree.Layer(level).Obj?;
    }
    assert after.store == after.Layer(Store) && after.tenant == after.Layer(Tenant);
    assert after.brand == after.Layer(Brand) && after.device == after.Layer(Device);
    assert tree.store == tree.Layer(Store) && tree.tenant == tree.Layer(Tenant);
    assert tree.brand == tree.Layer(Brand) && tree.device == tree.Layer(Device);
    ComposedLookup(after, NODE);
    ComposedLookup(tree, NODE);
  }

  // --- Every run ---------------------------------------------------------------------------------------------

  ghost predicate OnlyAppends(jobs: seq<Job>) {
    forall who :: 0 <= who < |jobs| ==> LeavesListAlone(jobs[who]) || exists device :: jobs[who] == Revocation(device)
  }

  lemma {:induction false} StaysReady(cloud: Cloud, jobs: seq<Job>, start: Option<Tree>, log: seq<Commit>)
    requires OnlyAppends(jobs) && Ready(Current(start)) && forall i :: 0 <= i < |log| ==> log[i].who < |jobs|
    ensures Ready(Current(Replay(Publishers(cloud, jobs), start, log)))
  {
    if log != [] {
      var last := log[|log| - 1];
      StaysReady(cloud, jobs, start, log[..|log| - 1]);
      Keeps(cloud, jobs, last.who, Replay(Publishers(cloud, jobs), start, log[..|log| - 1]), last.id);
    }
  }

  lemma Keeps(cloud: Cloud, jobs: seq<Job>, who: nat, before: Option<Tree>, id: VersionId)
    requires OnlyAppends(jobs) && who < |jobs| && Ready(Current(before))
    ensures var changed := Publishers(cloud, jobs).change(who, before, id);
            changed.Ok? ==>
              && Ready(changed.value)
              && forall device :: device in Listed(Current(before).Effective()) ==>
                   device in Listed(changed.value.Effective())
  {
    var changed := Publishers(cloud, jobs).change(who, before, id);
    assert changed == Attempt(cloud, jobs[who], before, id);
    if changed.Ok? {
      if LeavesListAlone(jobs[who]) {
        OtherPublishLands(cloud, jobs[who], before, id);
      } else {
        var device :| jobs[who] == Revocation(device);
        RevocationLands(cloud, device, before, id);
      }
    }
  }

  /** No device leaves the list. */
  lemma {:induction false} ListOnlyGrows(cloud: Cloud, jobs: seq<Job>, start: Option<Tree>, log: seq<Commit>)
    requires OnlyAppends(jobs) && Ready(Current(start)) && forall i :: 0 <= i < |log| ==> log[i].who < |jobs|
    ensures forall device :: device in Listed(Current(start).Effective()) ==>
              device in Listed(Current(Replay(Publishers(cloud, jobs), start, log)).Effective())
  {
    hide Ready, Listed, OnlyAppends;
    if log != [] {
      var last := log[|log| - 1];
      ListOnlyGrows(cloud, jobs, start, log[..|log| - 1]);
      StaysReady(cloud, jobs, start, log[..|log| - 1]);
      Keeps(cloud, jobs, last.who, Replay(Publishers(cloud, jobs), start, log[..|log| - 1]), last.id);
    }
  }

  /** However any number of retirements and other node publishes interleave, every device whose
      retirement committed is on the list the store runs, with every device that was there before. */
  lemma NoRetirementIsLost(cloud: Cloud, jobs: seq<Job>, start: System<Tree, Refusal>, acts: seq<Act>,
                           who: nat, device: string)
    requires Initial(Publishers(cloud, jobs), start) && OnlyAppends(jobs) && Ready(Current(Stored(start.row)))
    requires who < |jobs| && jobs[who] == Revocation(device)
    ensures var sys := Run(Publishers(cloud, jobs), start, acts);
            && (sys.phases[who].Committed? ==> device in Listed(DocumentOf(Stored(sys.row))))
            && forall other :: other in Listed(DocumentOf(Stored(start.row))) ==>
                 other in Listed(DocumentOf(Stored(sys.row)))
  {
    hide Attempt, Ready, Listed, LeavesListAlone;
    var publishers, from := Publishers(cloud, jobs), Stored(start.row);
    var sys := Run(publishers, start, acts);
    RunKeepsInv(publishers, start, acts);
    ListOnlyGrows(cloud, jobs, from, sys.log);
    if sys.phases[who].Committed? {
      var at := sys.phases[who].at;
      var before := Replay(publishers, from, sys.log[..at]);
      assert sys.log[at].who == who;
      StaysReady(cloud, jobs, from, sys.log[..at]);
      assert publishers.change(who, before, sys.log[at].id) == Attempt(cloud, jobs[who], before, sys.log[at].id);
      RevocationLands(cloud, device, before, sys.log[at].id);
      var fact := (tree: Tree) => Ready(tree) && device in Listed(tree.Effective());
      forall i | at < i < |sys.log| ensures KeptBy(publishers, sys.log[i].who, fact) {
        forall tree, id | fact(tree) && publishers.change(sys.log[i].who, Some(tree), id).Ok?
          ensures fact(publishers.change(sys.log[i].who, Some(tree), id).value)
        {
          Keeps(cloud, jobs, sys.log[i].who, Some(tree), id);
        }
      }
      FactSurvives(publishers, from, sys.log, at, fact);
    }
  }
}

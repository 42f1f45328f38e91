/**
 Publishing to one store's configuration: what each kind of writer makes of the tree it read, and
 what holds of the stored tree over every interleaving of any number of them.
 */
module Publishing {
  import opened Outcomes
  import opened Json
  import opened ConfigTree
  import opened LayerWrites
  import opened QrOrdering
  import opened ConfirmedValues
  import opened ConditionalWrites

  // --- One writer's change, computed on the tree it read -------------------------------------------------

  datatype ConfirmCheck = Required | SettingsRepublish

  datatype Refusal =
    | Composed(reason: string)
    | MissingPrerequisite(node: string, need: string)
    | Invalid
    | Unconfirmed(setting: Setting)
    | VersionMismatch
    | NoConfiguration
    | UnknownVersion

  /** What the cloud checks a write against: the validator's rules and the settings register. */
  datatype Cloud = Cloud(rules: Json -> bool, register: seq<Setting>)

  /** The writers of a store's configuration: a node publish composing its nodes on the tree as
      read, a whole authored layer, and a rollback. The last two name the version they edited. */
  datatype Job =
    | NodePublish(level: Level, check: ConfirmCheck, compose: Option<Tree> -> Result<seq<Node>, string>)
    | LayerWrite(level: Level, layer: Json, ifMatch: Option<VersionId>)
    | Rollback(source: VersionId, settles: bool, ifMatch: Option<VersionId>)

  /** What a node needs the store to hold before it can be published. */
  function Prerequisites(node: string): (needs: seq<string>)
    ensures |needs| <= 2
  {
    if node == "menu" then ["tax", "locale"] else []
  }

  /** The node carries nothing but fields the settings register writes there. */
  predicate OnlySettings(register: seq<Setting>, node: string, value: Json) {
    && value.Obj? && value.fields != map[]
    && forall field :: field in value.fields ==>
         exists i :: 0 <= i < |register| && register[i].node == node && register[i].field == field
  }

  predicate Holds(register: seq<Setting>, document: Json, node: string) {
    document.Has(node) && document.Get(node) != Null && !OnlySettings(register, node, document.Get(node))
  }

  /** The first prerequisite a publish of `nodes` lacks, in the order the nodes and their needs are
      listed. A publish that writes its own prerequisite satisfies it. */
  function CheckPrerequisites(register: seq<Setting>, before: Json, nodes: seq<Node>,
                              from: nat): (missing: Option<Refusal>)
    requires from <= |nodes|
    ensures missing.None? <==>
              forall i, j :: from <= i < |nodes| && 0 <= j < |Prerequisites(nodes[i].0)| ==>
                Met(register, before, nodes, Prerequisites(nodes[i].0)[j])
    decreases |nodes| - from
  {
    if from == |nodes| then None
    else
      var needs := Prerequisites(nodes[from].0);
      if exists j :: 0 <= j < |needs| && !Met(register, before, nodes, needs[j]) then
        var need := if !Met(register, before, nodes, needs[0]) then needs[0] else needs[1];
        Some(MissingPrerequisite(nodes[from].0, need))
      else
        CheckPrerequisites(register, before, nodes, from + 1)
  }

  /** Need `j` of node `i` is missing, and everything listed before it is there. */
  predicate FirstMissing(register: seq<Setting>, before: Json, nodes: seq<Node>, from: nat, i: nat, j: nat)
    requires from <= |nodes|
  {
    && from <= i < |nodes| && j < |Prerequisites(nodes[i].0)|
    && !Met(register, before, nodes, Prerequisites(nodes[i].0)[j])
    && (forall k :: 0 <= k < j ==> Met(register, before, nodes, Prerequisites(nodes[i].0)[k]))
    && (forall h, k :: from <= h < i && 0 <= k < |Prerequisites(nodes[h].0)| ==>
          Met(register, before, nodes, Prerequisites(nodes[h].0)[k]))
  }

  /** What is named is the first need missing, in the order the nodes and their needs are listed. */
  lemma {:induction false} NamesFirstMissing(register: seq<Setting>, before: Json, nodes: seq<Node>, from: nat)
    returns (i: nat, j: nat)
    requires from <= |nodes| && CheckPrerequisites(register, before, nodes, from).Some?
    ensures FirstMissing(register, before, nodes, from, i, j)
    ensures CheckPrerequisites(register, before, nodes, from) ==
            Some(MissingPrerequisite(nodes[i].0, Prerequisites(nodes[i].0)[j]))
    decreases |nodes| - from
  {
    hide Met, Prerequisites;
    var needs := Prerequisites(nodes[from].0);
    if exists k :: 0 <= k < |needs| && !Met(register, before, nodes, needs[k]) {
      i, j := from, if !Met(register, before, nodes, needs[0]) then 0 else 1;
    } else {
      i, j := NamesFirstMissing(register, before, nodes, from + 1);
    }
  }

  predicate Met(register: seq<Setting>, before: Json, nodes: seq<Node>, need: string) {
    Holds(register, before, need) || Sets(nodes, need)
  }

  function Confirmed(cloud: Cloud, check: ConfirmCheck, before: Json, after: Json): Option<Setting> {
    if check == SettingsRepublish then None else Check(cloud.register, before, after)
  }

  function CurrentVersion(tree: Tree): Option<VersionId> {
    if tree.history == [] then None else Some(tree.history[|tree.history| - 1].id)
  }

  /** The nodes a publish sets on the tree it read: its own, and at the Store layer what QR ordering
      needs to follow them. */
  function NodesFor(level: Level, before: Option<Tree>, nodes: seq<Node>): seq<Node> {
    if level == Store then Alignment(before, nodes) else nodes
  }

  /** The tree a writer would save, composed on `before`, or the refusal it returns instead. */
  function Attempt(cloud: Cloud, job: Job, before: Option<Tree>, id: VersionId): Result<Tree, Refusal> {
    var tree := Current(before);
    match job
    case NodePublish(level, check, compose) => (
      match compose(before)
      case Err(reason) => Err(Composed(reason))
      case Ok(composed) =>
        var nodes := NodesFor(level, before, composed);
        var missing := CheckPrerequisites(cloud.register, tree.Effective(), nodes, 0);
        if missing.Some? then Err(missing.value)
        else match Publish(cloud.rules, tree, level, LayerAfter(before, level, nodes), id, KeysSet(nodes))
             case None => Err(Invalid)
             case Some(next) => SavedIfConfirmed(cloud, check, tree, next))
    case LayerWrite(level, layer, ifMatch) =>
      if ifMatch != CurrentVersion(tree) then Err(VersionMismatch)
      else (match Publish(cloud.rules, tree, level, layer, id, KeysOf(layer))
            case None => Err(Invalid)
            case Some(next) => SavedIfConfirmed(cloud, Required, tree, next))
    case Rollback(source, settles, ifMatch) =>
      if before.None? then Err(NoConfiguration)
      else if ifMatch != CurrentVersion(tree) then Err(VersionMismatch)
      else (match Restore(tree, source, id, document => if settles then Settle(document) else document)
            case None => Err(UnknownVersion)
            case Some(next) => SavedIfConfirmed(cloud, Required, tree, next))
  }

  function SavedIfConfirmed(cloud: Cloud, check: ConfirmCheck, tree: Tree, next: Tree): Result<Tree, Refusal> {
    var unconfirmed := Confirmed(cloud, check, tree.Effective(), next.Effective());
    if unconfirmed.Some? then Err(Unconfirmed(unconfirmed.value)) else Ok(next)
  }

  predicate Republishes(job: Job) {
    job.NodePublish? && job.check == SettingsRepublish
  }

  /** A write that was let through starts no value that needs confirming, unless it republishes
      the settings. */
  lemma AcceptedStartsNothing(cloud: Cloud, job: Job, before: Option<Tree>, id: VersionId, setting: Setting)
    requires Attempt(cloud, job, before, id).Ok? && !Republishes(job) && setting in cloud.register
    ensures !Starts(Current(before).Effective(), Attempt(cloud, job, before, id).value.Effective(), setting)
  {
  }

  /** A publish that landed, with the nodes it set. */
  lemma LandedPublish(cloud: Cloud, job: Job, before: Option<Tree>, id: VersionId)
    requires job.NodePublish? && Attempt(cloud, job, before, id).Ok?
    ensures job.compose(before).Ok?
    ensures var nodes := NodesFor(job.level, before, job.compose(before).value);
            var after := Attempt(cloud, job, before, id).value;
            && after.Layer(job.level) == LayerAfter(before, job.level, nodes)
            && (forall other :: other != job.level ==> after.Layer(other) == Current(before).Layer(other))
  {
    var nodes := NodesFor(job.level, before, job.compose(before).value);
    PublishKeepsCoherent(cloud.rules, Current(before), job.level, LayerAfter(before, job.level, nodes), id,
        KeysSet(nodes));
  }

  // --- The writers as the conditional-write protocol runs them -------------------------------------------

  const CONDITIONAL_WRITE_ATTEMPTS := 3

  /** A node publish re-reads and composes again; a person's edit is refused on its first lost race. */
  function Attempts(job: Job): nat {
    if job.NodePublish? then CONDITIONAL_WRITE_ATTEMPTS else 1
  }

  function Publishers(cloud: Cloud, jobs: seq<Job>): Writers<Tree, Refusal> {
    Writers((who: nat, before: Option<Tree>, id: nat) =>
              if who < |jobs| then Attempt(cloud, jobs[who], before, id) else Err(Invalid),
            seq(|jobs|, i requires 0 <= i < |jobs| => Attempts(jobs[i])))
  }

  // --- The last version is what the layers compose to, in every run ------------------------------------------

  /** The last version is what the layers compose to, and every version is an object. */
  ghost predicate WellKept(tree: Tree) {
    Coherent(tree) && forall i :: 0 <= i < |tree.history| ==> tree.history[i].effective.Obj?
  }

  lemma AttemptKeepsWell(cloud: Cloud, job: Job, before: Option<Tree>, id: VersionId)
    requires WellKept(Current(before)) && Attempt(cloud, job, before, id).Ok?
    ensures WellKept(Attempt(cloud, job, before, id).value)
  {
    hide Settle, CheckPrerequisites, Check, MergeLayers;
    var tree := Current(before);
    if job.Rollback? {
      var document := tree.history[Position(tree.history, job.source).value].effective;
      SettlePreservesMeaning(document);
      RestoreReinstates(tree, job.source, id, document => if job.settles then Settle(document) else document);
    }
  }

  lemma {:induction false} ReplayKeepsWell(cloud: Cloud, jobs: seq<Job>, start: Option<Tree>, log: seq<Commit>)
    requires WellKept(Current(start))
    ensures WellKept(Current(Replay(Publishers(cloud, jobs), start, log)))
  {
    hide WellKept, Attempt;
    if log != [] {
      var before, last := Replay(Publishers(cloud, jobs), start, log[..|log| - 1]), log[|log| - 1];
      ReplayKeepsWell(cloud, jobs, start, log[..|log| - 1]);
      if last.who < |jobs| && Attempt(cloud, jobs[last.who], before, last.id).Ok? {
        AttemptKeepsWell(cloud, jobs[last.who], before, last.id);
      }
    }
  }

  /** In every interleaving of node publishes, authored layers and rollbacks, the last version a store was
      published is the document its layers compose to, and every version it was published is an object. */
  lemma EveryRunIsWellKept(cloud: Cloud, jobs: seq<Job>, start: System<Tree, Refusal>, acts: seq<Act>)
    requires Initial(Publishers(cloud, jobs), start) && WellKept(Current(Stored(start.row)))
    ensures WellKept(Current(Stored(Run(Publishers(cloud, jobs), start, acts).row)))
  {
    hide WellKept;
    EveryRunIsSerial(Publishers(cloud, jobs), start, acts);
    ReplayKeepsWell(cloud, jobs, Stored(start.row), Run(Publishers(cloud, jobs), start, acts).log);
  }

  // --- A committed key is lost to nobody --------------------------------------------------------------------

  /** The writer would set `key` on the layer at `level`, or replace that layer. */
  predicate Writes(job: Job, before: Option<Tree>, level: Level, key: string) {
    match job
    case NodePublish(at, _, compose) =>
      at == level && compose(before).Ok? && Sets(NodesFor(level, before, compose(before).value), key)
    case LayerWrite(at, _, _) => at == level
    case Rollback(_, _, _) => true
  }

  lemma AttemptLayer(cloud: Cloud, job: Job, before: Option<Tree>, id: VersionId, level: Level, key: string)
    requires Attempt(cloud, job, before, id).Ok?
    ensures var after := Attempt(cloud, job, before, id).value;
            && (job.NodePublish? && Writes(job, before, level, key) ==>
                  && after.Layer(level).Has(key)
                  && after.Layer(level).Get(key) ==
                       LastOf(NodesFor(level, before, job.compose(before).value), key).value)
            && (!Writes(job, before, level, key) && Current(before).Layer(level).Has(key) ==>
                  && after.Layer(level).Has(key)
                  && after.Layer(level).Get(key) == Current(before).Layer(level).Get(key))
            && (job.LayerWrite? && job.level == level ==> after.Layer(level) == job.layer)
            && (job.Rollback? ==>
                  var restored := Position(Current(before).history, job.source);
                  && restored.Some?
                  && var document := Current(before).history[restored.value].effective;
                     after.Layer(level) ==
                     if level != Tenant then EMPTY else if job.settles then Settle(document) else document)
  {
    hide Settle, CheckPrerequisites, Check;
    var tree := Current(before);
    match job
    case NodePublish(at, check, compose) =>
      var nodes := NodesFor(at, before, compose(before).value);
      PublishKeepsCoherent(cloud.rules, tree, at, LayerAfter(before, at, nodes), id, KeysSet(nodes));
    case LayerWrite(at, layer, ifMatch) =>
      PublishKeepsCoherent(cloud.rules, tree, at, layer, id, KeysOf(layer));
    case Rollback(_, _, _) =>
  }

  lemma ChangeIsAttempt(cloud: Cloud, jobs: seq<Job>, who: nat, before: Option<Tree>, id: VersionId)
    requires who < |jobs|
    ensures Publishers(cloud, jobs).change(who, before, id) == Attempt(cloud, jobs[who], before, id)
  {
  }

  /** The layer holds `value` under `key`. */
  ghost predicate HoldsKey(tree: Option<Tree>, level: Level, key: string, value: Json) {
    tree.Some? && tree.value.Layer(level).Has(key) && tree.value.Layer(level).Get(key) == value
  }

  /** The value a publish sets a key to, on the tree it is composed on. */
  function CommittedValue(job: Job, before: Option<Tree>, key: string): Json
    requires job.NodePublish? && Writes(job, before, job.level, key)
  {
    LastOf(NodesFor(job.level, before, job.compose(before).value), key).value
  }

  lemma KeyIsCommitted(cloud: Cloud, job: Job, before: Option<Tree>, id: VersionId, key: string)
    requires job.NodePublish? && Writes(job, before, job.level, key) && Attempt(cloud, job, before, id).Ok?
    ensures HoldsKey(Some(Attempt(cloud, job, before, id).value), job.level, key, CommittedValue(job, before, key))
  {
    hide Attempt;
    AttemptLayer(cloud, job, before, id, job.level, key);
  }

  lemma KeyIsKept(cloud: Cloud, job: Job, before: Option<Tree>, id: VersionId, level: Level, key: string, value: Json)
    requires HoldsKey(before, level, key, value) && !Writes(job, before, level, key)
             && Attempt(cloud, job, before, id).Ok?
    ensures HoldsKey(Some(Attempt(cloud, job, before, id).value), level, key, value)
  {
    hide Attempt, Writes;
    AttemptLayer(cloud, job, before, id, level, key);
  }

  /** A key a publish committed still holds the value it committed, after any number of later commits
      none of which writes that key on that layer. */
  lemma {:induction false} CommittedKeySurvives(cloud: Cloud, jobs: seq<Job>, start: Option<Tree>, log: seq<Commit>,
                                                at: nat, key: string)
    requires (forall i :: 0 <= i < |log| ==> log[i].who < |jobs|) && at < |log|
    requires Accepted(Publishers(cloud, jobs), start, log)
    requires jobs[log[at].who].NodePublish?
    requires Writes(jobs[log[at].who], Replay(Publishers(cloud, jobs), start, log[..at]), jobs[log[at].who].level, key)
    requires forall i :: at < i < |log| ==>
               !Writes(jobs[log[i].who], Replay(Publishers(cloud, jobs), start, log[..i]), jobs[log[at].who].level, key)
    ensures var job, before := jobs[log[at].who], Replay(Publishers(cloud, jobs), start, log[..at]);
            HoldsKey(Replay(Publishers(cloud, jobs), start, log), job.level, key, CommittedValue(job, before, key))
  {
    hide *;
    var publishers, shorter, last := Publishers(cloud, jobs), log[..|log| - 1], log[|log| - 1];
    var before := Replay(publishers, start, shorter);
    AcceptedShorter(publishers, start, log);
    ChangeIsAttempt(cloud, jobs, last.who, before, last.id);
    if at < |shorter| {
      assert forall i :: 0 <= i < |shorter| ==> shorter[..i] == log[..i];
      CommittedKeySurvives(cloud, jobs, start, shorter, at, key);
      var job, base := jobs[log[at].who], Replay(publishers, start, log[..at]);
      KeyIsKept(cloud, jobs[last.who], before, last.id, job.level, key, CommittedValue(job, base, key));
    } else {
      KeyIsCommitted(cloud, jobs[last.who], before, last.id, key);
    }
  }

  // --- A value that needs confirming was confirmed ------------------------------------------------------------

  function DocumentOf(tree: Option<Tree>): Json {
    Current(tree).Effective()
  }

  /** What the store ran after the first `n` commits. */
  ghost function RanAfter(cloud: Cloud, jobs: seq<Job>, start: Option<Tree>, log: seq<Commit>, n: nat): Json
    requires n <= |log|
  {
    DocumentOf(Replay(Publishers(cloud, jobs), start, log[..n]))
  }

  /** The store has run the value at every commit back to `from`, which is the start of the run or a
      settings republish. */
  ghost predicate RanSince(cloud: Cloud, jobs: seq<Job>, start: Option<Tree>, log: seq<Commit>,
                           setting: Setting, from: nat)
    requires from <= |log| && forall i :: 0 <= i < |log| ==> log[i].who < |jobs|
  {
    && (from == 0 || Republishes(jobs[log[from - 1].who]))
    && (forall n :: from <= n <= |log| ==> Runs(RanAfter(cloud, jobs, start, log, n), setting))
  }

  /** A commit that is no settings republish leaves the store running only what it ran before it. */
  lemma RanBefore(cloud: Cloud, jobs: seq<Job>, start: Option<Tree>, log: seq<Commit>, setting: Setting)
    requires (forall i :: 0 <= i < |log| ==> log[i].who < |jobs|) && setting in cloud.register
    requires log != [] && Accepted(Publishers(cloud, jobs), start, log)
    requires !Republishes(jobs[log[|log| - 1].who])
    requires Runs(DocumentOf(Replay(Publishers(cloud, jobs), start, log)), setting)
    ensures Runs(DocumentOf(Replay(Publishers(cloud, jobs), start, log[..|log| - 1])), setting)
  {
    var publishers, last := Publishers(cloud, jobs), log[|log| - 1];
    var before := Replay(publishers, start, log[..|log| - 1]);
    AcceptedShorter(publishers, start, log);
    assert publishers.change(last.who, before, last.id) == Attempt(cloud, jobs[last.who], before, last.id);
    AcceptedStartsNothing(cloud, jobs[last.who], before, last.id, setting);
  }

  lemma {:induction false} ConfirmedSince(cloud: Cloud, jobs: seq<Job>, start: Option<Tree>, log: seq<Commit>,
                                          setting: Setting) returns (from: nat)
    requires (forall i :: 0 <= i < |log| ==> log[i].who < |jobs|) && setting in cloud.register
    requires Accepted(Publishers(cloud, jobs), start, log)
    requires Runs(DocumentOf(Replay(Publishers(cloud, jobs), start, log)), setting)
    ensures from <= |log| && RanSince(cloud, jobs, start, log, setting, from)
    decreases |log|
  {
    hide Attempt, Runs, Accepted;
    assert log[..|log|] == log;
    from := |log|;
    if log != [] && !Republishes(jobs[log[|log| - 1].who]) {
      var shorter := log[..|log| - 1];
      AcceptedShorter(Publishers(cloud, jobs), start, log);
      RanBefore(cloud, jobs, start, log, setting);
      from := ConfirmedSince(cloud, jobs, start, shorter, setting);
      forall n | from <= n < |log| ensures Runs(RanAfter(cloud, jobs, start, log, n), setting) {
        assert shorter[..n] == log[..n];
        assert Runs(RanAfter(cloud, jobs, start, shorter, n), setting);
      }
    }
  }

  /** In every interleaving of node publishes, authored layers, rollbacks and settings republishes, a
      value that needs confirming is run only by a store that ran it all along, or has since a
      settings republish. */
  lemma RunsOnlyConfirmedValues(cloud: Cloud, jobs: seq<Job>, start: System<Tree, Refusal>, acts: seq<Act>,
                                setting: Setting)
    requires Initial(Publishers(cloud, jobs), start) && setting in cloud.register
    ensures var sys := Run(Publishers(cloud, jobs), start, acts);
            && (forall i :: 0 <= i < |sys.log| ==> sys.log[i].who < |jobs|)
            && (Runs(DocumentOf(Stored(sys.row)), setting) ==>
                  exists from :: 0 <= from <= |sys.log| &&
                    RanSince(cloud, jobs, Stored(start.row), sys.log, setting, from))
  {
    var publishers := Publishers(cloud, jobs);
    var sys := Run(publishers, start, acts);
    RunKeepsInv(publishers, start, acts);
    if Runs(DocumentOf(Stored(sys.row)), setting) {
      assert sys.log[..|sys.log|] == sys.log;
      var from := ConfirmedSince(cloud, jobs, Stored(start.row), sys.log, setting);
    }
  }
}

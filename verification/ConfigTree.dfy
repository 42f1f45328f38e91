/** One store's configuration: four authored layers and the versions published from them. */
module ConfigTree {
  import opened Outcomes
  import opened Json

  /** A version's ULID; the order of the numbers is the order the versions were minted in. */
  type VersionId = nat

  datatype Level = Tenant | Brand | Store | Device

  /** A published version: its id, the document it resolves to, and the node keys it wrote. */
  datatype Version = Version(id: VersionId, effective: Json, nodes: set<string>)

  datatype Tree = Tree(tenant: Json, brand: Json, store: Json, device: Json, history: seq<Version>, k: nat)
  {
    function Layer(level: Level): Json {
      match level
      case Tenant => tenant
      case Brand => brand
      case Store => store
      case Device => device
    }

    function WithLayer(level: Level, document: Json): Tree {
      match level
      case Tenant => this.(tenant := document)
      case Brand => this.(brand := document)
      case Store => this.(store := document)
      case Device => this.(device := document)
    }

    /** What the store runs: the layers merged as they stand. */
    function Effective(): Json {
      MergeLayers([tenant, brand, store, device])
    }

    /** The document of the last version, or nothing before the first publish. */
    function Running(): Option<Json> {
      if history == [] then None else Some(history[|history| - 1].effective)
    }
  }

  const DEFAULT_K := 20
  const FRESH := Tree(EMPTY, EMPTY, EMPTY, EMPTY, [], DEFAULT_K)

  /** The tree a write is composed on: a store's own, or a fresh one. */
  function Current(before: Option<Tree>): Tree {
    if before.None? then FRESH else before.value
  }

  /** A validator refuses every document that is not an object; `rules` is the rest of it. */
  predicate Validates(rules: Json -> bool, document: Json) {
    document.Obj? && rules(document)
  }

  /** Replaces one layer and appends the version it composes to, or refuses and changes nothing. */
  function Publish(rules: Json -> bool, tree: Tree, level: Level, document: Json,
                   id: VersionId, nodes: set<string>): Option<Tree>
  {
    var next := tree.WithLayer(level, document);
    if !Validates(rules, next.Effective()) then None
    else Some(next.(history := tree.history + [Version(id, next.Effective(), nodes)]))
  }

  /** The first version of the history under `id`. */
  function Position(history: seq<Version>, id: VersionId): (at: Option<nat>)
    ensures at.Some? ==> at.value < |history| && history[at.value].id == id
    ensures at.None? <==> forall i :: 0 <= i < |history| ==> history[i].id != id
  {
    if history == [] then None
    else if history[0].id == id then Some(0)
    else match Position(history[1..], id)
         case None => assert forall i :: 1 <= i < |history| ==> history[i] == history[1..][i - 1]; None
         case Some(i) => Some(i + 1)
  }

  function KeysOf(document: Json): set<string> {
    if document.Obj? then document.fields.Keys else {}
  }

  /** Appends a past version's document as the current one, passed through `settle` first and
      flattened into the Tenant layer. */
  function Restore(tree: Tree, id: VersionId, newId: VersionId, settle: Json -> Json): Option<Tree>
  {
    match Position(tree.history, id)
    case None => None
    case Some(at) =>
      var document := settle(tree.history[at].effective);
      Some(tree.(tenant := document, brand := EMPTY, store := EMPTY, device := EMPTY,
                 history := tree.history + [Version(newId, document, KeysOf(document))]))
  }

  // --- The last version is what the layers compose to --------------------------------------------

  ghost predicate Coherent(tree: Tree) {
    tree.Running().Some? ==> tree.Running().value == tree.Effective()
  }

  lemma MergeEmpty(value: Json)
    requires value.Obj?
    ensures Merge(EMPTY, value) == value && Merge(value, EMPTY) == value
  {
    assert Merge(EMPTY, value).fields == value.fields;
    assert Merge(value, EMPTY).fields == value.fields;
  }

  /** The four-layer composition written as nested merges. */
  lemma EffectiveLayers(tree: Tree)
    ensures tree.Effective() ==
            Merge(Merge(Merge(Merge(EMPTY, tree.tenant), tree.brand), tree.store), tree.device)
  {
    var layers := [tree.tenant, tree.brand, tree.store, tree.device];
    assert layers[..3] == [tree.tenant, tree.brand, tree.store];
    assert [tree.tenant, tree.brand, tree.store][..2] == [tree.tenant, tree.brand];
    assert [tree.tenant, tree.brand][..1] == [tree.tenant];
    assert [tree.tenant][..0] == [];
    assert MergeLayers([tree.tenant]) == Merge(EMPTY, tree.tenant);
    assert MergeLayers([tree.tenant, tree.brand]) == Merge(MergeLayers([tree.tenant]), tree.brand);
    assert MergeLayers(layers[..3]) == Merge(MergeLayers([tree.tenant, tree.brand]), tree.store);
  }

  lemma PublishKeepsCoherent(rules: Json -> bool, tree: Tree, level: Level, document: Json,
                             id: VersionId, nodes: set<string>)
    ensures var published := Publish(rules, tree, level, document, id, nodes);
            published.Some? ==>
              && Coherent(published.value)
              && published.value.Effective().Obj?
              && published.value.Layer(level) == document
              && (forall other :: other != level ==> published.value.Layer(other) == tree.Layer(other))
  {
  }

  /** A rollback reinstates the whole document, whichever layer each member had come from. */
  lemma RestoreReinstates(tree: Tree, id: VersionId, newId: VersionId, settle: Json -> Json)
    requires Position(tree.history, id).Some?
    requires settle(tree.history[Position(tree.history, id).value].effective).Obj?
    ensures var restored := Restore(tree, id, newId, settle);
            && restored.Some?
            && Coherent(restored.value)
            && restored.value.Effective() == settle(tree.history[Position(tree.history, id).value].effective)
  {
    var restored := Restore(tree, id, newId, settle).value;
    EffectiveLayers(restored);
    MergeEmpty(restored.tenant);
  }

  // --- The document's members, layer by layer --------------------------------------------------------

  function Over(below: Option<Json>, above: Option<Json>): Option<Json> {
    match (below, above)
    case (_, None) => below
    case (None, Some(_)) => above
    case (Some(base), Some(overlay)) => Some(Merge(base, overlay))
  }

  lemma ComposedLookup(tree: Tree, key: string)
    requires tree.tenant.Obj? && tree.brand.Obj? && tree.store.Obj? && tree.device.Obj?
    ensures Lookup(tree.Effective(), key) ==
            Over(Over(Over(Lookup(tree.tenant, key), Lookup(tree.brand, key)), Lookup(tree.store, key)),
                 Lookup(tree.device, key))
  {
    EffectiveLayers(tree);
    MergeEmpty(tree.tenant);
    var two := Merge(tree.tenant, tree.brand);
    var three := Merge(two, tree.store);
    assert Lookup(two, key) == Over(Lookup(tree.tenant, key), Lookup(tree.brand, key));
    assert Lookup(three, key) == Over(Lookup(two, key), Lookup(tree.store, key));
  }
}

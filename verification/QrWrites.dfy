/**
 What a Store-layer publish does to QR ordering: what each of the three facts reads as in the document it
 composes, and the exact condition under which they agree there.
 */
module QrWrites {
  import opened Outcomes
  import opened Json
  import opened ConfigTree
  import opened LayerWrites
  import opened QrOrdering

  // --- What the Store layer contributes to the composed document -------------------------------------

  /** The Tenant and Brand layers merged. */
  function Upper(tree: Tree): Json {
    Merge(Merge(EMPTY, tree.tenant), tree.brand)
  }

  /** The Store layer is an object and the Device layer says nothing of the three. */
  predicate Writable(tree: Tree) {
    && tree.store.Obj?
    && tree.device.Obj?
    && !tree.device.Has(SWITCH) && !tree.device.Has(QR_NODE) && !tree.device.Has(CHANNELS_NODE)
  }

  predicate IsOfThree(key: string) {
    key == SWITCH || key == QR_NODE || key == CHANNELS_NODE
  }

  lemma ByLevel(tree: Tree)
    ensures tree.tenant == tree.Layer(Tenant) && tree.brand == tree.Layer(Brand)
    ensures tree.store == tree.Layer(Store) && tree.device == tree.Layer(Device)
  {
  }

  predicate WritableBefore(before: Option<Tree>) {
    before.Some? ==> Writable(before.value)
  }

  /** A Store-layer member as the document carries it, over what the layers above say. */
  function Overlaid(upper: Json, key: string, value: Json): Json {
    if upper.Has(key) then Merge(upper.Get(key), value) else value
  }

  lemma ComposedMember(tree: Tree, key: string)
    requires tree.store.Obj? && tree.device.Obj? && !tree.device.Has(key)
    ensures tree.Effective().Obj?
    ensures Lookup(tree.Effective(), key) ==
            if tree.store.Has(key) then Some(Overlaid(Upper(tree), key, tree.store.Get(key)))
            else Lookup(Upper(tree), key)
  {
    EffectiveLayers(tree);
  }

  lemma FreshDocument(before: Option<Tree>)
    ensures Document(before) == Current(before).Effective()
    ensures WritableBefore(before) ==> Writable(Current(before))
  {
    EffectiveLayers(FRESH);
    MergeEmpty(EMPTY);
  }

  /** The document a Store-layer publish of `nodes` composes. */
  function DocumentAfter(before: Option<Tree>, nodes: seq<Node>): Json {
    Current(before).WithLayer(Store, LayerAfter(before, Store, nodes)).Effective()
  }

  /** A key a write sets arrives over the upper layers, and any other key is as it was. */
  lemma WrittenMember(before: Option<Tree>, nodes: seq<Node>, key: string)
    requires WritableBefore(before) && !Current(before).device.Has(key)
    ensures Lookup(DocumentAfter(before, nodes), key) ==
            if Sets(nodes, key) then Some(Overlaid(Upper(Current(before)), key, LastOf(nodes, key).value))
            else Lookup(Document(before), key)
  {
    FreshDocument(before);
    var after := Current(before).WithLayer(Store, LayerAfter(before, Store, nodes));
    ComposedMember(after, key);
    ComposedMember(Current(before), key);
  }

  /** A member of an overlaid object: a value that is no object replaces whatever was above it. */
  lemma OverlaidMember(upper: Json, key: string, value: Json, member: string)
    requires value.Has(member)
    ensures var overlaid := Overlaid(upper, key, value);
            && overlaid.Has(member)
            && (!value.Get(member).Obj? ==> overlaid.Get(member) == value.Get(member))
            && (value.Get(member).Obj? ==> overlaid.Get(member).Obj?)
  {
    var overlaid := Overlaid(upper, key, value);
    if upper.Has(key) && upper.Get(key).Has(member) {
      assert overlaid.Get(member) == Merge(upper.Get(key).Get(member), value.Get(member));
    }
  }

  lemma OverlaidEnabled(upper: Json, key: string, value: Json, on: bool)
    requires value.Has(ENABLED) && value.Get(ENABLED) == Bool(on)
    ensures EnabledNamedBy(Some(Overlaid(upper, key, value))) == Some(on)
  {
    OverlaidMember(upper, key, value, ENABLED);
  }

  lemma OverlaidList(upper: Json, key: string, value: Json, list: seq<string>)
    requires value.Has(ENABLED) && value.Get(ENABLED) == ListValue(list)
    ensures Listed(Overlaid(upper, key, value)) == Some(list)
  {
    OverlaidMember(upper, key, value, ENABLED);
    ListValueReads(Overlaid(upper, key, value), list);
  }

  /** A node the edge cannot read stays unreadable under the layers above. */
  lemma OverlaidUnreadable(upper: Json, key: string, value: Json)
    requires Listed(value).None?
    ensures Listed(Overlaid(upper, key, value)).None?
  {
    if value.Obj? {
      OverlaidMember(upper, key, value, ENABLED);
    }
  }

  // --- The nodes a write ends with --------------------------------------------------------------------

  lemma {:induction false} LastOfEdited(nodes: seq<Node>, edited: string, edit: Json -> Json, key: string)
    ensures LastOf(Edited(nodes, edited, edit), key) ==
            if key == edited && LastOf(nodes, key).Some? then Some(edit(LastOf(nodes, key).value))
            else LastOf(nodes, key)
  {
    if nodes != [] {
      var shorter := nodes[..|nodes| - 1];
      assert Edited(nodes, edited, edit)[..|nodes| - 1] == Edited(shorter, edited, edit);
      LastOfEdited(shorter, edited, edit, key);
    }
  }

  lemma SwitchFollowedLast(before: Option<Tree>, nodes: seq<Node>, key: string)
    ensures LastOf(SwitchFollowed(before, nodes), key) ==
            if key == SWITCH && WrittenSwitch(nodes).None? && EnabledNamedBy(ValueOf(nodes, QR_NODE)).Some?
            then Some(Bool(SwitchAfter(before, nodes)))
            else LastOf(nodes, key)
  {
    LastOfAppended(nodes, (SWITCH, Bool(SwitchAfter(before, nodes))), key);
  }

  lemma QrFollowedLast(before: Option<Tree>, nodes: seq<Node>, setsQr: bool, on: bool, key: string)
    requires setsQr == Sets(nodes, QR_NODE)
    ensures LastOf(QrFollowed(before, nodes, setsQr, on), key) ==
            if key != QR_NODE then LastOf(nodes, key)
            else if setsQr then Some(FollowingQr(LastOf(nodes, key).value, on))
            else if QrEnabledReadsOn(Document(before)) != on
            then Some(WithMember(StoreLayerObject(before, QR_NODE), ENABLED, Bool(on)))
            else None
  {
    LastOfEdited(nodes, QR_NODE, value => FollowingQr(value, on), key);
    LastOfAppended(nodes, (QR_NODE, WithMember(StoreLayerObject(before, QR_NODE), ENABLED, Bool(on))), key);
  }

  lemma ChannelsFollowedLast(before: Option<Tree>, nodes: seq<Node>, setsChannels: bool, on: bool, key: string)
    requires setsChannels == Sets(nodes, CHANNELS_NODE)
    ensures var list := ChannelList(Document(before));
            LastOf(ChannelsFollowed(before, nodes, setsChannels, on), key) ==
            if key != CHANNELS_NODE then LastOf(nodes, key)
            else if setsChannels then Some(FollowingChannels(LastOf(nodes, key).value, on))
            else if list.Some? && ComposeChannels(list.value, on) != list.value
            then Some(WithMember(StoreLayerObject(before, CHANNELS_NODE), ENABLED,
                                 ListValue(ComposeChannels(list.value, on))))
            else None
  {
    LastOfEdited(nodes, CHANNELS_NODE, value => FollowingChannels(value, on), key);
    var list := ChannelList(Document(before));
    if list.Some? {
      LastOfAppended(nodes, (CHANNELS_NODE, WithMember(StoreLayerObject(before, CHANNELS_NODE), ENABLED,
                                                       ListValue(ComposeChannels(list.value, on)))), key);
    }
  }

  /** The value each of the three ends with once they follow the switch. */
  lemma SwitchNodeAfter(before: Option<Tree>, nodes: seq<Node>)
    requires Touches(nodes) && DistinctKeys(nodes)
    ensures LastOf(Alignment(before, nodes), SWITCH) ==
            if WrittenSwitch(nodes).None? && EnabledNamedBy(ValueOf(nodes, QR_NODE)).Some?
            then Some(Bool(SwitchAfter(before, nodes)))
            else ValueOf(nodes, SWITCH)
  {
    KeysDiffer();
    FollowedLast(before, nodes, SWITCH);
    SwitchFollowedLast(before, nodes, SWITCH);
    DistinctFirstIsLast(nodes, SWITCH);
  }

  lemma QrNodeAfter(before: Option<Tree>, nodes: seq<Node>)
    requires Touches(nodes) && DistinctKeys(nodes)
    ensures var on := SwitchAfter(before, nodes);
            LastOf(Alignment(before, nodes), QR_NODE) ==
            if Sets(nodes, QR_NODE) then Some(FollowingQr(ValueOf(nodes, QR_NODE).value, on))
            else if QrEnabledReadsOn(Document(before)) != on
            then Some(WithMember(StoreLayerObject(before, QR_NODE), ENABLED, Bool(on)))
            else None
  {
    KeysDiffer();
    FollowedLast(before, nodes, QR_NODE);
    SwitchFollowedLast(before, nodes, QR_NODE);
    DistinctFirstIsLast(nodes, QR_NODE);
    QrFollowedLast(before, SwitchFollowed(before, nodes), Sets(nodes, QR_NODE), SwitchAfter(before, nodes), QR_NODE);
  }

  lemma ChannelsNodeAfter(before: Option<Tree>, nodes: seq<Node>)
    requires Touches(nodes) && DistinctKeys(nodes)
    ensures var on := SwitchAfter(before, nodes);
            var list := ChannelList(Document(before));
            LastOf(Alignment(before, nodes), CHANNELS_NODE) ==
            if Sets(nodes, CHANNELS_NODE) then Some(FollowingChannels(ValueOf(nodes, CHANNELS_NODE).value, on))
            else if list.Some? && ComposeChannels(list.value, on) != list.value
            then Some(WithMember(StoreLayerObject(before, CHANNELS_NODE), ENABLED,
                                 ListValue(ComposeChannels(list.value, on))))
            else None
  {
    KeysDiffer();
    var on := SwitchAfter(before, nodes);
    var switched := SwitchFollowed(before, nodes);
    SwitchFollowedLast(before, nodes, QR_NODE);
    SwitchFollowedLast(before, nodes, CHANNELS_NODE);
    QrFollowedLast(before, switched, Sets(nodes, QR_NODE), on, CHANNELS_NODE);
    DistinctFirstIsLast(nodes, CHANNELS_NODE);
    ChannelsFollowedLast(before, QrFollowed(before, switched, Sets(nodes, QR_NODE), on),
                         Sets(nodes, CHANNELS_NODE), on, CHANNELS_NODE);
  }

  /** Making the channel list follow does not touch the other two. */
  lemma FollowedLast(before: Option<Tree>, nodes: seq<Node>, key: string)
    requires Touches(nodes) && key != CHANNELS_NODE
    ensures var on, switched := SwitchAfter(before, nodes), SwitchFollowed(before, nodes);
            var followed := QrFollowed(before, switched, Sets(nodes, QR_NODE), on);
            && LastOf(Alignment(before, nodes), key) == LastOf(followed, key)
            && (key != QR_NODE ==> LastOf(followed, key) == LastOf(switched, key))
  {
    KeysDiffer();
    var on, switched := SwitchAfter(before, nodes), SwitchFollowed(before, nodes);
    SwitchFollowedLast(before, nodes, QR_NODE);
    SwitchFollowedLast(before, nodes, CHANNELS_NODE);
    QrFollowedLast(before, switched, Sets(nodes, QR_NODE), on, key);
    QrFollowedLast(before, switched, Sets(nodes, QR_NODE), on, CHANNELS_NODE);
    ChannelsFollowedLast(before, QrFollowed(before, switched, Sets(nodes, QR_NODE), on),
                         Sets(nodes, CHANNELS_NODE), on, key);
  }

  // --- What a write leaves ---------------------------------------------------------------------------------

  /** The write gives the switch something other than `true` or `false` and names no `qr.enabled`. */
  predicate SwitchUnreadable(nodes: seq<Node>) {
    Sets(nodes, SWITCH) && WrittenSwitch(nodes).None? && EnabledNamedBy(ValueOf(nodes, QR_NODE)).None?
  }

  /** The write gives `qr` something that is not an object. */
  predicate QrUnreadable(nodes: seq<Node>) {
    Sets(nodes, QR_NODE) && !ValueOf(nodes, QR_NODE).value.Obj?
  }

  /** Aligning a write leaves every other key as the write gives it. */
  lemma AlignmentLeaves(before: Option<Tree>, nodes: seq<Node>, key: string)
    requires key != SWITCH && key != QR_NODE && key != CHANNELS_NODE
    ensures LastOf(Alignment(before, nodes), key) == LastOf(nodes, key)
  {
    if Touches(nodes) {
      FollowedLast(before, nodes, key);
      SwitchFollowedLast(before, nodes, key);
    }
  }

  /** The switch the composed document reads after an aligned write. */
  lemma SwitchAfterWrite(before: Option<Tree>, nodes: seq<Node>)
    requires WritableBefore(before) && DistinctKeys(nodes) && Touches(nodes)
    ensures SwitchOf(DocumentAfter(before, Alignment(before, nodes))) ==
            (SwitchAfter(before, nodes) && !SwitchUnreadable(nodes))
  {
    FreshDocument(before);
    WrittenMember(before, Alignment(before, nodes), SWITCH);
    SwitchNodeAfter(before, nodes);
  }

  /** `qr.enabled` follows the switch, unless the write made the node unreadable, which reads on. */
  lemma QrAfterWrite(before: Option<Tree>, nodes: seq<Node>)
    requires WritableBefore(before) && DistinctKeys(nodes) && Touches(nodes)
    ensures QrEnabledReadsOn(DocumentAfter(before, Alignment(before, nodes))) ==
            (SwitchAfter(before, nodes) || QrUnreadable(nodes))
  {
    hide Alignment, Upper;
    var on, upper := SwitchAfter(before, nodes), Upper(Current(before));
    FreshDocument(before);
    WrittenMember(before, Alignment(before, nodes), QR_NODE);
    QrNodeAfter(before, nodes);
    var last := LastOf(Alignment(before, nodes), QR_NODE);
    if last.Some? && last.value.Obj? {
      OverlaidEnabled(upper, QR_NODE, last.value, on);
    }
  }

  /** The channel list the store publishes from: the write's own, or the one the store holds. */
  function ListBefore(before: Option<Tree>, nodes: seq<Node>): Option<seq<string>> {
    if Sets(nodes, CHANNELS_NODE) then ListedIn(ValueOf(nodes, CHANNELS_NODE))
    else ChannelList(Document(before))
  }

  lemma ChannelsAfterWrite(before: Option<Tree>, nodes: seq<Node>)
    requires WritableBefore(before) && DistinctKeys(nodes) && Touches(nodes)
    ensures ChannelList(DocumentAfter(before, Alignment(before, nodes))) ==
            if ListBefore(before, nodes).None? then None
            else Some(ComposeChannels(ListBefore(before, nodes).value, SwitchAfter(before, nodes)))
  {
    var on, upper := SwitchAfter(before, nodes), Upper(Current(before));
    FreshDocument(before);
    WrittenMember(before, Alignment(before, nodes), CHANNELS_NODE);
    ChannelsNodeAfter(before, nodes);
    var last := LastOf(Alignment(before, nodes), CHANNELS_NODE);
    if last.Some? {
      if ListBefore(before, nodes).None? {
        OverlaidUnreadable(upper, CHANNELS_NODE, last.value);
      } else {
        OverlaidList(upper, CHANNELS_NODE, last.value, ComposeChannels(ListBefore(before, nodes).value, on));
      }
    }
  }

  /** A Store-layer write of any of the three leaves a document whose three agree, exactly unless
      it made the switch unreadable while on, or `qr` unreadable while off. */
  lemma AlignedWriteExactly(before: Option<Tree>, nodes: seq<Node>)
    requires WritableBefore(before) && DistinctKeys(nodes) && Touches(nodes)
    ensures Aligned(DocumentAfter(before, Alignment(before, nodes))) <==>
            if SwitchAfter(before, nodes) then !SwitchUnreadable(nodes) else !QrUnreadable(nodes)
  {
    SwitchAfterWrite(before, nodes);
    QrAfterWrite(before, nodes);
    ChannelsAfterWrite(before, nodes);
    if ListBefore(before, nodes).Some? {
      ComposeKeepsMeaning(ListBefore(before, nodes).value, SwitchAfter(before, nodes));
    }
  }

  /** A write of anything else leaves the three as they read. */
  lemma OtherWriteKeepsThree(before: Option<Tree>, nodes: seq<Node>)
    requires WritableBefore(before) && !Touches(nodes)
    ensures var after := DocumentAfter(before, Alignment(before, nodes));
            && Aligned(after) == Aligned(Document(before))
            && TakenBeforeTheSwitch(after) == TakenBeforeTheSwitch(Document(before))
            && SwitchOf(after) == SwitchOf(Document(before))
  {
    FreshDocument(before);
    WrittenMember(before, nodes, SWITCH);
    WrittenMember(before, nodes, QR_NODE);
    WrittenMember(before, nodes, CHANNELS_NODE);
  }
}

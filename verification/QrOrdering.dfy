/**
 QR ordering's three redundant facts — the switch, `qr.enabled` and the QR channel in the
 published list — and the two operations that keep them in agreement: `Align`, for a write to the
 Store layer, and `Settle`, for a document from before the switch existed.
 */
module QrOrdering {
  import opened Outcomes
  import opened Json
  import opened ConfigTree
  import opened LayerWrites

  const SWITCH := "qr_ordering_enabled"
  const QR_NODE := "qr"
  const CHANNELS_NODE := "channels"
  const ENABLED := "enabled"
  const QR_CHANNEL := "SALES_CHANNEL_QR"

  // --- Reading the three ---------------------------------------------------------------------------

  /** The switch, off unless the document sets it on. */
  predicate SwitchOf(document: Json) {
    Lookup(document, SWITCH) == Some(Bool(true))
  }

  /** The `enabled` a `qr` node names: nothing unless it is an object holding `true` or `false`. */
  function EnabledNamedBy(qr: Option<Json>): Option<bool> {
    if qr.Some? && qr.value.Has(ENABLED) && qr.value.Get(ENABLED).Bool?
    then Some(qr.value.Get(ENABLED).flag)
    else None
  }

  /** `qr.enabled` reads as on unless it is `false`. */
  predicate QrEnabledReadsOn(document: Json) {
    EnabledNamedBy(Lookup(document, QR_NODE)) != Some(false)
  }

  predicate AllText(items: seq<Json>) {
    forall i :: 0 <= i < |items| ==> items[i].Str?
  }

  /** A `channels` node's list, or nothing for a node the edge cannot read. An object without the
      list carries an empty one. */
  function Listed(node: Json): Option<seq<string>> {
    if !node.Obj? then None
    else if ENABLED !in node.fields then Some([])
    else
      var list := node.fields[ENABLED];
      if list.Arr? && AllText(list.items)
      then Some(seq(|list.items|, i requires 0 <= i < |list.items| => list.items[i].text))
      else None
  }

  function ListedIn(node: Option<Json>): Option<seq<string>> {
    if node.None? then None else Listed(node.value)
  }

  /** The document's channel list; nothing restricts no channel. */
  function ChannelList(document: Json): Option<seq<string>> {
    ListedIn(Lookup(document, CHANNELS_NODE))
  }

  predicate AdmitsQr(document: Json) {
    ChannelList(document).Some? ==> QR_CHANNEL in ChannelList(document).value
  }

  /** Whether the store took a guest's QR order before the switch: the guest intake and the edge
      each let it through. */
  predicate TakenBeforeTheSwitch(document: Json) {
    QrEnabledReadsOn(document) && AdmitsQr(document)
  }

  /** Whether the store takes one now: the guest intake reads the switch, the edge the list. */
  predicate Takes(document: Json) {
    SwitchOf(document) && AdmitsQr(document)
  }

  /** A published list with its QR channel following the switch. */
  function ComposeChannels(list: seq<string>, on: bool): seq<string> {
    if list == [] || on == (QR_CHANNEL in list) then list
    else if on then list + [QR_CHANNEL]
    else
      var rest := WithoutQr(list);
      if rest == [] then list else rest
  }

  function WithoutQr(list: seq<string>): (rest: seq<string>)
    ensures QR_CHANNEL !in rest
    ensures rest == [] <==> forall i :: 0 <= i < |list| ==> list[i] == QR_CHANNEL
    ensures QR_CHANNEL !in list ==> rest == list
  {
    if list == [] then []
    else if list[0] == QR_CHANNEL then
      assert QR_CHANNEL in list;
      WithoutQr(list[1..])
    else [list[0]] + WithoutQr(list[1..])
  }

  predicate Aligned(document: Json) {
    var on := SwitchOf(document);
    && QrEnabledReadsOn(document) == on
    && (ChannelList(document).Some? ==>
          ComposeChannels(ChannelList(document).value, on) == ChannelList(document).value)
  }

  /** The switch a document runs under. */
  predicate SettledSwitch(document: Json) {
    if Aligned(document) then SwitchOf(document) else TakenBeforeTheSwitch(document)
  }

  // --- What composing a list keeps -------------------------------------------------------------------

  lemma {:induction false} WithoutQrAppended(list: seq<string>)
    ensures WithoutQr(list + [QR_CHANNEL]) == WithoutQr(list)
  {
    if list == [] {
      assert list + [QR_CHANNEL] == [QR_CHANNEL];
    } else {
      assert (list + [QR_CHANNEL])[1..] == list[1..] + [QR_CHANNEL];
      WithoutQrAppended(list[1..]);
    }
  }

  /** Composing keeps what a list means: empty stays empty and nothing else becomes so, every other
      token is kept in its order, and the QR channel follows the switch except where taking it out
      would empty the list. Composing again changes nothing. */
  lemma ComposeKeepsMeaning(list: seq<string>, on: bool)
    ensures var composed := ComposeChannels(list, on);
            && (composed == [] <==> list == [])
            && WithoutQr(composed) == WithoutQr(list)
            && (QR_CHANNEL in composed <==> list != [] && (on || WithoutQr(list) == []))
            && ComposeChannels(composed, on) == composed
  {
    WithoutQrAppended(list);
    if list != [] {
      assert WithoutQr(list) == [] ==> list[0] == QR_CHANNEL && QR_CHANNEL in list;
    }
  }

  /** On a document whose three agree, the switch with the list it follows says what the intake and
      the edge decided before the switch; an empty list and a list of QR alone included. */
  lemma AlignedRunsAsBefore(document: Json)
    requires Aligned(document)
    ensures Takes(document) <==> TakenBeforeTheSwitch(document)
    ensures ChannelList(document).Some? && SwitchOf(document) ==>
              (AdmitsQr(document) <==> ChannelList(document).value != [])
    ensures ChannelList(document).Some? && !SwitchOf(document) ==>
              (AdmitsQr(document) <==>
                  ChannelList(document).value != [] && WithoutQr(ChannelList(document).value) == [])
  {
    if ChannelList(document).Some? {
      ComposeKeepsMeaning(ChannelList(document).value, SwitchOf(document));
    }
  }

  // --- Settling a document from before the switch -------------------------------------------------------

  function ListValue(list: seq<string>): Json {
    Arr(seq(|list|, i requires 0 <= i < |list| => Str(list[i])))
  }

  lemma ListValueReads(node: Json, list: seq<string>)
    requires node.Has(ENABLED) && node.Get(ENABLED) == ListValue(list)
    ensures Listed(node) == Some(list)
  {
    assert Listed(node).value == list;
  }

  function WithMember(node: Json, key: string, value: Json): Json {
    Obj((if node.Obj? then node.fields else map[])[key := value])
  }

  function Settle(document: Json): Json {
    if Aligned(document) || !document.Obj? then document
    else
      var on := TakenBeforeTheSwitch(document);
      var switched := document.fields[SWITCH := Bool(on)];
      var followed :=
        if QrEnabledReadsOn(document) == on then switched
        else switched[QR_NODE := WithMember(if QR_NODE in document.fields then document.fields[QR_NODE] else EMPTY,
                                            ENABLED, Bool(on))];
      var list := ChannelList(document);
      if list.None? || ComposeChannels(list.value, on) == list.value then Obj(followed)
      else Obj(followed[CHANNELS_NODE := WithMember(document.fields[CHANNELS_NODE], ENABLED,
                                                    ListValue(ComposeChannels(list.value, on)))])
  }

  lemma KeysDiffer()
    ensures SWITCH != QR_NODE && SWITCH != CHANNELS_NODE && QR_NODE != CHANNELS_NODE
  {
    assert |SWITCH| == 19 && |QR_NODE| == 2 && |CHANNELS_NODE| == 8;
  }

  /** What a settled document reads as, member by member. */
  lemma SettledMembers(document: Json)
    requires document.Obj? && !Aligned(document)
    ensures var on, settled := TakenBeforeTheSwitch(document), Settle(document);
            && Lookup(settled, SWITCH) == Some(Bool(on))
            && QrEnabledReadsOn(settled) == on
            && ChannelList(settled) ==
                 (if ChannelList(document).None? then None
                  else Some(ComposeChannels(ChannelList(document).value, on)))
            && (forall key :: key != SWITCH && key != QR_NODE && key != CHANNELS_NODE ==>
                  Lookup(settled, key) == Lookup(document, key))
  {
    KeysDiffer();
    var on, settled, list := TakenBeforeTheSwitch(document), Settle(document), ChannelList(document);
    if list.Some? && ComposeChannels(list.value, on) != list.value {
      ListValueReads(settled.fields[CHANNELS_NODE], ComposeChannels(list.value, on));
    } else {
      assert Lookup(settled, CHANNELS_NODE) == Lookup(document, CHANNELS_NODE);
    }
    if QrEnabledReadsOn(document) == on {
      assert Lookup(settled, QR_NODE) == Lookup(document, QR_NODE);
    }
  }

  /** Settling makes the three agree exactly for a document that is an object, changes nothing on a
      second pass, keeps what the store takes, and touches no other node. */
  lemma SettlePreservesMeaning(document: Json)
    ensures Aligned(Settle(document)) <==> document.Obj?
    ensures Settle(Settle(document)) == Settle(document)
    ensures TakenBeforeTheSwitch(Settle(document)) == TakenBeforeTheSwitch(document)
    ensures forall key :: key != SWITCH && key != QR_NODE && key != CHANNELS_NODE ==>
              Lookup(Settle(document), key) == Lookup(document, key)
  {
    if document.Obj? && !Aligned(document) {
      SettledMembers(document);
      if ChannelList(document).Some? {
        ComposeKeepsMeaning(ChannelList(document).value, TakenBeforeTheSwitch(document));
      }
    }
  }

  // --- A write to the Store layer --------------------------------------------------------------------------

  predicate Touches(nodes: seq<Node>) {
    Sets(nodes, SWITCH) || Sets(nodes, QR_NODE) || Sets(nodes, CHANNELS_NODE)
  }

  function Document(before: Option<Tree>): Json {
    if before.None? then EMPTY else before.value.Effective()
  }

  function WrittenSwitch(nodes: seq<Node>): Option<bool> {
    var value := ValueOf(nodes, SWITCH);
    if value.Some? && value.value.Bool? then Some(value.value.flag) else None
  }

  /** The switch a write leaves: the one it sets, else the one its `qr` node names, else the
      store's own. */
  predicate SwitchAfter(before: Option<Tree>, nodes: seq<Node>) {
    match WrittenSwitch(nodes)
    case Some(on) => on
    case None =>
      match EnabledNamedBy(ValueOf(nodes, QR_NODE))
      case Some(on) => on
      case None => SwitchOf(Document(before))
  }

  function FollowingQr(value: Json, on: bool): Json {
    if value.Obj? then WithMember(value, ENABLED, Bool(on)) else value
  }

  function FollowingChannels(value: Json, on: bool): Json {
    if Listed(value).None? then value
    else WithMember(value, ENABLED, ListValue(ComposeChannels(Listed(value).value, on)))
  }

  /** Every value a write gives `key`, edited. */
  function Edited(nodes: seq<Node>, key: string, edit: Json -> Json): (out: seq<Node>)
    ensures |out| == |nodes|
    ensures forall i :: 0 <= i < |nodes| ==>
              out[i] == (nodes[i].0, if nodes[i].0 == key then edit(nodes[i].1) else nodes[i].1)
  {
    seq(|nodes|, i requires 0 <= i < |nodes| =>
      (nodes[i].0, if nodes[i].0 == key then edit(nodes[i].1) else nodes[i].1))
  }

  /** What a node holds on the Store layer: the object a following write keeps the other fields of. */
  function StoreLayerObject(before: Option<Tree>, node: string): Json {
    if before.Some? && before.value.store.Has(node) && before.value.store.Get(node).Obj?
    then before.value.store.Get(node)
    else EMPTY
  }

  function SwitchFollowed(before: Option<Tree>, nodes: seq<Node>): seq<Node> {
    if WrittenSwitch(nodes).None? && EnabledNamedBy(ValueOf(nodes, QR_NODE)).Some?
    then nodes + [(SWITCH, Bool(SwitchAfter(before, nodes)))]
    else nodes
  }

  function QrFollowed(before: Option<Tree>, nodes: seq<Node>, setsQr: bool, on: bool): seq<Node> {
    if setsQr then Edited(nodes, QR_NODE, value => FollowingQr(value, on))
    else if QrEnabledReadsOn(Document(before)) != on then
      nodes + [(QR_NODE, WithMember(StoreLayerObject(before, QR_NODE), ENABLED, Bool(on)))]
    else nodes
  }

  function ChannelsFollowed(before: Option<Tree>, nodes: seq<Node>, setsChannels: bool, on: bool): seq<Node> {
    if setsChannels then Edited(nodes, CHANNELS_NODE, value => FollowingChannels(value, on))
    else
      var list := ChannelList(Document(before));
      if list.Some? && ComposeChannels(list.value, on) != list.value then
        nodes + [(CHANNELS_NODE, WithMember(StoreLayerObject(before, CHANNELS_NODE), ENABLED,
                                            ListValue(ComposeChannels(list.value, on))))]
      else nodes
  }

  /** The nodes a Store-layer write sets once the three agree. */
  function Alignment(before: Option<Tree>, nodes: seq<Node>): seq<Node> {
    if !Touches(nodes) then nodes
    else
      var on := SwitchAfter(before, nodes);
      ChannelsFollowed(before,
                       QrFollowed(before, SwitchFollowed(before, nodes), Sets(nodes, QR_NODE), on),
                       Sets(nodes, CHANNELS_NODE), on)
  }

  method EditEach(nodes: seq<Node>, key: string, edit: Json -> Json) returns (out: seq<Node>)
    ensures out == Edited(nodes, key, edit)
  {
    out := nodes;
    for i := 0 to |nodes|
      invariant |out| == |nodes|
      invariant forall j :: i <= j < |nodes| ==> out[j] == nodes[j]
      invariant forall j :: 0 <= j < i ==> out[j] == Edited(nodes, key, edit)[j]
    {
      if out[i].0 == key {
        out := out[i := (key, edit(out[i].1))];
      }
    }
  }

  /** The node list edited in place and extended, as a write composes it. */
  method Align(before: Option<Tree>, nodes: seq<Node>) returns (out: seq<Node>)
    ensures out == Alignment(before, nodes)
  {
    out := nodes;
    var setsQr, setsChannels := Sets(nodes, QR_NODE), Sets(nodes, CHANNELS_NODE);
    if !(Sets(nodes, SWITCH) || setsQr || setsChannels) {
      return;
    }
    var on := SwitchAfter(before, nodes);
    if WrittenSwitch(nodes).None? && EnabledNamedBy(ValueOf(nodes, QR_NODE)).Some? {
      out := out + [(SWITCH, Bool(on))];
    }
    if setsQr {
      out := EditEach(out, QR_NODE, value => FollowingQr(value, on));
    } else if QrEnabledReadsOn(Document(before)) != on {
      out := out + [(QR_NODE, WithMember(StoreLayerObject(before, QR_NODE), ENABLED, Bool(on)))];
    }
    if setsChannels {
      out := EditEach(out, CHANNELS_NODE, value => FollowingChannels(value, on));
    } else {
      var list := ChannelList(Document(before));
      if list.Some? && ComposeChannels(list.value, on) != list.value {
        out := out + [(CHANNELS_NODE, WithMember(StoreLayerObject(before, CHANNELS_NODE), ENABLED,
                                                 ListValue(ComposeChannels(list.value, on))))];
      }
    }
  }
}

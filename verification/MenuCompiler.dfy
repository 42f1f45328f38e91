/** The menu compiler: the loops that build a book, each proved to build what the menu means. */
module MenuCompiler {
  import opened Outcomes
  import opened Ordered
  import opened Lists
  import opened Grouping
  import opened MenuGraph
  import opened Catalog
  import opened MenuMeaning

  // --- Active groups, and their attachments turned around ---------------------------------------------------

  /** The groups of each item after one more active group's attachments. */
  ghost predicate AttachedBy(before: map<ItemId, set<GroupId>>, id: GroupId, items: seq<ItemId>,
                             after: map<ItemId, set<GroupId>>)
  {
    && (forall item :: item in after <==> item in before || item in items)
    && forall item :: item in after ==>
         after[item] == (if item in before then before[item] else {}) + (if item in items then {id} else {})
  }

  lemma AttachedToStep(groups: seq<Group>, last: Group, item: ItemId)
    ensures AttachedTo(groups + [last], item) ==
            AttachedTo(groups, item) + if !last.archived && item in last.attached then {last.id} else {}
  {
    var more := groups + [last];
    assert more[|groups|] == last;
    forall id | id in AttachedTo(groups, item) ensures id in AttachedTo(more, item) {
      var i :| 0 <= i < |groups| && !groups[i].archived && item in groups[i].attached && groups[i].id == id;
      assert more[i] == groups[i];
    }
  }

  lemma AttachmentsStep(groups: seq<Group>, last: Group, after: map<ItemId, set<GroupId>>)
    requires if last.archived then after == Attachments(groups)
             else AttachedBy(Attachments(groups), last.id, last.attached, after)
    ensures after == Attachments(groups + [last])
  {
    var more := groups + [last];
    forall item: ItemId
      ensures item in after <==> item in Attachments(more)
      ensures item in after ==> after[item] == Attachments(more)[item]
    {
      AttachmentsAre(groups, item);
      AttachmentsAre(more, item);
      AttachedToStep(groups, last, item);
    }
  }

  lemma RulesStep(groups: seq<Group>, last: Group)
    ensures RulesOf(groups + [last]) == if last.archived then RulesOf(groups) else RulesOf(groups)[last.id := last.rule]
  {
    var active := Filter(groups, (group: Group) => !group.archived);
    assert (groups + [last])[..|groups|] == groups;
    if last.archived {
      assert active + [] == active;
    } else {
      assert (active + [last])[..|active|] == active;
    }
  }

  method Attach(before: map<ItemId, set<GroupId>>, id: GroupId, items: seq<ItemId>)
    returns (attached: map<ItemId, set<GroupId>>)
    ensures AttachedBy(before, id, items, attached)
  {
    attached := before;
    for j := 0 to |items|
      invariant AttachedBy(before, id, items[..j], attached)
    {
      assert items[..j + 1] == items[..j] + [items[j]];
      attached := attached[items[j] := (if items[j] in attached then attached[items[j]] else {}) + {id}];
    }
    assert items[..|items|] == items;
  }

  /** The active groups by id, and each item's active groups. */
  method ActiveGroups(groups: seq<Group>) returns (attached: map<ItemId, set<GroupId>>, rules: map<GroupId, Rule>)
    ensures attached == Attachments(groups) && rules == RulesOf(groups)
  {
    attached, rules := map[], map[];
    for i := 0 to |groups|
      invariant attached == Attachments(groups[..i]) && rules == RulesOf(groups[..i])
    {
      var group := groups[i];
      assert groups[..i + 1] == groups[..i] + [group];
      RulesStep(groups[..i], group);
      if !group.archived {
        rules := rules[group.id := group.rule];
        attached := Attach(attached, group.id, group.attached);
      }
      AttachmentsStep(groups[..i], group, attached);
    }
    assert groups[..|groups|] == groups;
  }

  // --- Resolving placements ----------------------------------------------------------------------------------

  function OnMenu(placements: seq<Placement>, menu: MenuId): seq<Placement> {
    Filter(placements, (placement: Placement) => placement.menu == menu)
  }

  lemma OnMenuStep(placements: seq<Placement>, last: Placement, menu: MenuId)
    ensures OnMenu(placements + [last], menu) ==
            if last.menu == menu then OnMenu(placements, menu) + [last] else OnMenu(placements, menu)
  {
    hide Filter;
    FilterStep(placements, last, (placement: Placement) => placement.menu == menu);
  }

  lemma PlacedOnStep(placements: seq<Placement>, last: Placement, menu: MenuId, item: ItemId)
    ensures var earlier := PlacedOn(placements, menu, item);
            PlacedOn(placements + [last], menu, item) ==
            if earlier.None? && last.menu == menu && last.item == item then Some(last) else earlier
  {
    assert (placements + [last])[..|placements|] == placements;
  }

  lemma NothingPlaced(menu: MenuId, item: ItemId)
    ensures PlacedOn(OnMenu([], menu), menu, item) == PlacedOn([], menu, item)
  {
  }

  /** Looking only at a menu's own placements finds what looking at all of them does. */
  lemma {:induction false} GroupedLookup(placements: seq<Placement>, menu: MenuId, item: ItemId)
    ensures PlacedOn(OnMenu(placements, menu), menu, item) == PlacedOn(placements, menu, item)
  {
    hide *;
    if placements == [] {
      NothingPlaced(menu, item);
    } else {
      var shorter, last := placements[..|placements| - 1], placements[|placements| - 1];
      assert placements == shorter + [last];
      GroupedLookup(shorter, menu, item);
      OnMenuStep(shorter, last, menu);
      PlacedOnStep(shorter, last, menu, item);
      PlacedOnStep(OnMenu(shorter, menu), last, menu, item);
    }
  }

  ghost predicate Grouped(placements: seq<Placement>, byMenu: map<MenuId, seq<Placement>>) {
    forall menu: MenuId :: OnMenu(placements, menu) == if menu in byMenu then byMenu[menu] else []
  }

  method GroupByMenu(placements: seq<Placement>) returns (byMenu: map<MenuId, seq<Placement>>)
    ensures Grouped(placements, byMenu)
  {
    byMenu := map[];
    for i := 0 to |placements|
      invariant Grouped(placements[..i], byMenu)
    {
      var placement := placements[i];
      assert placements[..i + 1][..i] == placements[..i];
      byMenu := byMenu[placement.menu :=
          (if placement.menu in byMenu then byMenu[placement.menu] else []) + [placement]];
    }
    assert placements[..|placements|] == placements;
  }

  function Lookup(resolved: map<ItemId, Placement>, item: ItemId): Option<Placement> {
    if item in resolved then Some(resolved[item]) else None
  }

  /** What is found with a menu's rows below what nearer menus placed. */
  function Below(nearer: Option<Placement>, rows: seq<Placement>, menu: MenuId, item: ItemId): Option<Placement> {
    if nearer.Some? then nearer else PlacedOn(rows, menu, item)
  }

  ghost predicate HoldsBelow(before: map<ItemId, Placement>, rows: seq<Placement>, menu: MenuId,
                             after: map<ItemId, Placement>)
  {
    forall item: ItemId :: Lookup(after, item) == Below(Lookup(before, item), rows, menu, item)
  }

  lemma BelowStep(before: map<ItemId, Placement>, rows: seq<Placement>, menu: MenuId, soFar: map<ItemId, Placement>,
                  row: Placement)
    requires HoldsBelow(before, rows, menu, soFar) && row.menu == menu
    ensures HoldsBelow(before, rows + [row], menu, if row.item in soFar then soFar else soFar[row.item := row])
  {
    var after := if row.item in soFar then soFar else soFar[row.item := row];
    assert (rows + [row])[..|rows|] == rows;
    forall item: ItemId ensures Lookup(after, item) == Below(Lookup(before, item), rows + [row], menu, item) {
      assert Lookup(soFar, item) == Below(Lookup(before, item), rows, menu, item);
    }
  }

  /** A menu's placements added below what nearer menus placed. */
  method AddBelow(before: map<ItemId, Placement>, rows: seq<Placement>, menu: MenuId)
    returns (all: map<ItemId, Placement>)
    requires forall row :: row in rows ==> row.menu == menu
    ensures HoldsBelow(before, rows, menu, all)
  {
    all := before;
    assert HoldsBelow(before, [], menu, all);
    hide HoldsBelow;
    for j := 0 to |rows|
      invariant HoldsBelow(before, rows[..j], menu, all)
    {
      assert rows[..j + 1] == rows[..j] + [rows[j]];
      BelowStep(before, rows[..j], menu, all, rows[j]);
      if rows[j].item !in all {
        all := all[rows[j].item := rows[j]];
      }
    }
    assert rows[..|rows|] == rows;
  }

  ghost predicate HoldsNearest(resolved: map<ItemId, Placement>, chain: seq<MenuId>, placements: seq<Placement>) {
    forall item: ItemId :: Lookup(resolved, item) == Nearest(chain, placements, item)
  }

  lemma NearestStep(before: map<ItemId, Placement>, chain: seq<MenuId>, placements: seq<Placement>, menu: MenuId,
                    after: map<ItemId, Placement>)
    requires HoldsNearest(before, chain, placements) && HoldsBelow(before, OnMenu(placements, menu), menu, after)
    ensures HoldsNearest(after, chain + [menu], placements)
  {
    assert (chain + [menu])[..|chain|] == chain;
    hide OnMenu, PlacedOn;
    forall item: ItemId ensures Lookup(after, item) == Nearest(chain + [menu], placements, item) {
      assert Lookup(before, item) == Nearest(chain, placements, item);
      GroupedLookup(placements, menu, item);
    }
  }

  lemma NearestIsResolved(resolved: map<ItemId, Placement>, chain: seq<MenuId>, placements: seq<Placement>)
    requires HoldsNearest(resolved, chain, placements)
    ensures resolved == Resolved(chain, placements)
  {
    hide Nearest, Resolved;
    forall item: ItemId
      ensures item in resolved <==> item in Resolved(chain, placements)
      ensures item in resolved ==> resolved[item] == Resolved(chain, placements)[item]
    {
      assert Lookup(resolved, item) == Nearest(chain, placements, item);
    }
  }

  /** Each item's nearest placement, by menu: the same as looking through every placement for each menu
      of the chain. */
  method ResolvePlacements(chain: seq<MenuId>, placements: seq<Placement>) returns (resolved: map<ItemId, Placement>)
    ensures resolved == Resolved(chain, placements)
  {
    var byMenu := GroupByMenu(placements);
    resolved := map[];
    assert HoldsNearest(resolved, [], placements);
    hide HoldsNearest, HoldsBelow, Resolved, Nearest, PlacedOn;
    for i := 0 to |chain|
      invariant HoldsNearest(resolved, chain[..i], placements)
    {
      assert chain[..i + 1] == chain[..i] + [chain[i]];
      var rows := if chain[i] in byMenu then byMenu[chain[i]] else [];
      assert rows == OnMenu(placements, chain[i]);
      var after := AddBelow(resolved, rows, chain[i]);
      NearestStep(resolved, chain[..i], placements, chain[i], after);
      resolved := after;
    }
    assert chain[..|chain|] == chain;
    NearestIsResolved(resolved, chain, placements);
  }

  // --- Entries by channel ----------------------------------------------------------------------------------------

  type ChannelEntries = map<SalesChannel, seq<Entry>>

  function At(byChannel: ChannelEntries, channel: SalesChannel): seq<Entry> {
    if channel in byChannel then byChannel[channel] else []
  }

  /** Only channels a sale is made on have entries, and none is there without one. */
  ghost predicate Proper(byChannel: ChannelEntries) {
    forall channel :: channel in byChannel ==> channel in CHANNELS && byChannel[channel] != []
  }

  /** What `prices` add to a channel. */
  function PricedAt(make: Money -> Entry, prices: seq<ChannelPrice>, channel: SalesChannel): seq<Entry> {
    if channel in CHANNELS then EntryEach(make, PricesOn(prices, channel)) else []
  }

  lemma PricedStep(make: Money -> Entry, prices: seq<ChannelPrice>, last: ChannelPrice, channel: SalesChannel)
    ensures PricedAt(make, prices + [last], channel) ==
            PricedAt(make, prices, channel) + if Sellable(last.channel) == Some(channel) then [make(last.price)] else []
  {
    SellableChannels(channel);
    assert (prices + [last])[..|prices|] == prices;
  }

  ghost predicate Adds(before: ChannelEntries, make: Money -> Entry, prices: seq<ChannelPrice>, after: ChannelEntries) {
    Proper(after) && forall channel :: At(after, channel) == At(before, channel) + PricedAt(make, prices, channel)
  }

  function AddPrice(byChannel: ChannelEntries, make: Money -> Entry, price: ChannelPrice): ChannelEntries {
    var sellable := Sellable(price.channel);
    if sellable.None? then byChannel
    else byChannel[sellable.value := At(byChannel, sellable.value) + [make(price.price)]]
  }

  lemma AddsStep(before: ChannelEntries, make: Money -> Entry, prices: seq<ChannelPrice>, soFar: ChannelEntries,
                 last: ChannelPrice)
    requires Adds(before, make, prices, soFar)
    ensures Adds(before, make, prices + [last], AddPrice(soFar, make, last))
  {
    hide PricedAt;
    var after := AddPrice(soFar, make, last);
    forall channel ensures At(after, channel) == At(before, channel) + PricedAt(make, prices + [last], channel) {
      PricedStep(make, prices, last, channel);
      assert At(soFar, channel) == At(before, channel) + PricedAt(make, prices, channel);
    }
    if Sellable(last.channel).Some? { SellableChannels(Sellable(last.channel).value); }
  }

  /** One item's entries added to the channels that price it. */
  method AddItem(make: Money -> Entry, prices: seq<ChannelPrice>, before: ChannelEntries)
    returns (byChannel: ChannelEntries)
    requires Proper(before)
    ensures Adds(before, make, prices, byChannel)
  {
    byChannel := before;
    for j := 0 to |prices|
      invariant Adds(before, make, prices[..j], byChannel)
    {
      assert prices[..j + 1] == prices[..j] + [prices[j]];
      AddsStep(before, make, prices[..j], byChannel, prices[j]);
      byChannel := AddPrice(byChannel, make, prices[j]);
    }
    assert prices[..|prices|] == prices;
  }

  ghost predicate Holds(ctx: Context, offers: map<ItemId, Offer>, items: seq<ItemId>, byChannel: ChannelEntries) {
    Proper(byChannel) && forall channel :: At(byChannel, channel) == EntriesOf(ctx, offers, items, channel)
  }

  lemma EntriesStep(ctx: Context, offers: map<ItemId, Offer>, items: seq<ItemId>, last: ItemId, channel: SalesChannel)
    ensures EntriesOf(ctx, offers, items + [last], channel) ==
            EntriesOf(ctx, offers, items, channel) + ItemEntries(ctx, offers, last, channel)
  {
    assert (items + [last])[..|items|] == items;
  }

  lemma HoldsStep(ctx: Context, resolved: map<ItemId, Placement>, items: seq<ItemId>, before: ChannelEntries,
                  last: ItemId, after: ChannelEntries)
    requires Holds(ctx, OffersOf(resolved), items, before) && last in resolved && last in ctx.items
    requires if ctx.items[last].archived then after == before
             else Adds(before, EntryMaker(ctx, ctx.items[last], resolved[last].available), resolved[last].prices, after)
    ensures Holds(ctx, OffersOf(resolved), items + [last], after)
  {
    var offers := OffersOf(resolved);
    forall channel ensures At(after, channel) == EntriesOf(ctx, offers, items + [last], channel) {
      EntriesStep(ctx, offers, items, last, channel);
      assert At(before, channel) == EntriesOf(ctx, offers, items, channel);
    }
  }

  lemma FirstUnknown(unknown: set<ItemId>, ids: seq<ItemId>, i: nat)
    requires Ascending(ids, IdLeq) && i < |ids| && ids[i] in unknown && forall j :: 0 <= j < i ==> ids[j] !in unknown
    requires forall id :: id in unknown ==> id in ids
    ensures |Ids(unknown)| > 0 && Ids(unknown)[0] == ids[i]
  {
    var listed := Ids(unknown);
    assert ids[i] in listed;
    var k :| 0 <= k < |listed| && listed[k] == ids[i];
    assert listed[0] in unknown;
    var j :| 0 <= j < |ids| && ids[j] == listed[0];
  }

  method AddResolved(ctx: Context, resolved: map<ItemId, Placement>, ghost items: seq<ItemId>, id: ItemId,
                     before: ChannelEntries)
    returns (after: ChannelEntries)
    requires Holds(ctx, OffersOf(resolved), items, before) && id in resolved && id in ctx.items
    ensures Holds(ctx, OffersOf(resolved), items + [id], after)
  {
    after := before;
    if !ctx.items[id].archived {
      after := AddItem(EntryMaker(ctx, ctx.items[id], resolved[id].available), resolved[id].prices, before);
    }
    HoldsStep(ctx, resolved, items, before, id, after);
  }

  /** What the entries are, or which item refuses them: the first placed one the catalog does not carry. */
  ghost predicate Emitted(ctx: Context, resolved: map<ItemId, Placement>,
                          result: Result<ChannelEntries, CompileError>)
  {
    var unknown := Unknown(ctx, OffersOf(resolved));
    match result
    case Err(error) => unknown != {} && error == UnknownItem(Ids(unknown)[0])
    case Ok(byChannel) => unknown == {} && Holds(ctx, OffersOf(resolved), Ids(resolved.Keys), byChannel)
  }

  lemma NoneUnknown(ctx: Context, resolved: map<ItemId, Placement>, ids: seq<ItemId>)
    requires ids == Ids(resolved.Keys) && forall i :: 0 <= i < |ids| ==> ids[i] in ctx.items
    ensures Unknown(ctx, OffersOf(resolved)) == {}
  {
    forall id | id in resolved ensures id in ctx.items { assert id in ids; }
  }

  lemma OneUnknown(ctx: Context, resolved: map<ItemId, Placement>, ids: seq<ItemId>, i: nat)
    requires ids == Ids(resolved.Keys) && i < |ids| && ids[i] !in ctx.items
    requires forall j :: 0 <= j < i ==> ids[j] in ctx.items
    ensures Emitted(ctx, resolved, Err(UnknownItem(ids[i])))
  {
    assert ids[i] in resolved;
    FirstUnknown(Unknown(ctx, OffersOf(resolved)), ids, i);
  }

  lemma NothingEmitted(ctx: Context, offers: map<ItemId, Offer>)
    ensures Holds(ctx, offers, [], map[])
  {
  }

  /** The entries of `ids` in turn, up to the first the catalog does not carry. */
  method EmitEach(ctx: Context, resolved: map<ItemId, Placement>, ids: seq<ItemId>)
    returns (byChannel: ChannelEntries, emitted: nat)
    requires forall i :: 0 <= i < |ids| ==> ids[i] in resolved
    ensures emitted <= |ids| && Holds(ctx, OffersOf(resolved), ids[..emitted], byChannel)
    ensures forall j :: 0 <= j < emitted ==> ids[j] in ctx.items
    ensures emitted < |ids| ==> ids[emitted] !in ctx.items
  {
    NothingEmitted(ctx, OffersOf(resolved));
    hide Holds, OffersOf;
    byChannel, emitted := map[], 0;
    while emitted < |ids|
      invariant emitted <= |ids| && Holds(ctx, OffersOf(resolved), ids[..emitted], byChannel)
      invariant forall j :: 0 <= j < emitted ==> ids[j] in ctx.items
    {
      var id := ids[emitted];
      if id !in ctx.items {
        return;
      }
      byChannel := AddResolved(ctx, resolved, ids[..emitted], id, byChannel);
      assert ids[..emitted + 1] == ids[..emitted] + [id];
      emitted := emitted + 1;
    }
  }

  method EntriesByChannel(ctx: Context, resolved: map<ItemId, Placement>)
    returns (result: Result<ChannelEntries, CompileError>)
    ensures Emitted(ctx, resolved, result)
  {
    var ids := Ids(resolved.Keys);
    var byChannel, emitted := EmitEach(ctx, resolved, ids);
    if emitted < |ids| {
      OneUnknown(ctx, resolved, ids, emitted);
      result := Err(UnknownItem(ids[emitted]));
    } else {
      assert ids[..emitted] == ids;
      NoneUnknown(ctx, resolved, ids);
      result := Ok(byChannel);
    }
  }

  // --- The groups a channel publishes --------------------------------------------------------------------------

  const U16_MAX: U16 := 65535

  /** A length as a 16-bit count, saturating. */
  function Saturated(length: nat): U16 {
    if length <= U16_MAX then length else U16_MAX
  }

  lemma ListedStep(rules: map<GroupId, Rule>, priced: set<ItemId>, ids: seq<GroupId>, last: GroupId)
    requires forall i :: 0 <= i < |ids| ==> ids[i] in rules
    ensures last in rules ==>
            GroupsListed(rules, ids + [last], priced) ==
                GroupsListed(rules, ids, priced) + [GroupOn(rules, last, priced)]
  {
  }

  /** `published` is the groups of `ids` that the channel can offer. */
  ghost predicate Publishes(rules: map<GroupId, Rule>, ids: seq<GroupId>, priced: set<ItemId>,
                            published: seq<MenuGroup>) {
    var offered := Filter(ids, OfferedIn(rules, priced));
    (forall i :: 0 <= i < |offered| ==> offered[i] in rules) && published == GroupsListed(rules, offered, priced)
  }

  lemma PublishesStep(rules: map<GroupId, Rule>, ids: seq<GroupId>, priced: set<ItemId>, published: seq<MenuGroup>,
                      id: GroupId)
    requires Publishes(rules, ids, priced, published)
    ensures Publishes(rules, ids + [id], priced,
                      if Offered(rules, priced, id) then published + [GroupOn(rules, id, priced)] else published)
  {
    hide Filter, MembersOn, Satisfiable;
    FilterStep(ids, id, OfferedIn(rules, priced));
    ListedStep(rules, priced, Filter(ids, OfferedIn(rules, priced)), id);
  }

  lemma NothingPublished(rules: map<GroupId, Rule>, priced: set<ItemId>)
    ensures Publishes(rules, [], priced, [])
  {
  }

  /** The groups of `ids` that the channel can offer, with the members it prices. Counting members in 16 bits
      changes no answer. */
  method PublishEach(rules: map<GroupId, Rule>, ids: seq<GroupId>, priced: set<ItemId>)
    returns (published: seq<MenuGroup>)
    ensures Publishes(rules, ids, priced, published)
  {
    hide Publishes, MembersOn;
    published := [];
    NothingPublished(rules, priced);
    for i := 0 to |ids|
      invariant Publishes(rules, ids[..i], priced, published)
    {
      var id := ids[i];
      assert ids[..i + 1] == ids[..i] + [id];
      PublishesStep(rules, ids[..i], priced, published, id);
      if id in rules {
        var members := MembersOn(rules[id], priced);
        if members != [] && Saturated(|members|) >= rules[id].minSelect {
          published := published + [MenuGroup(id, rules[id].(members := members))];
        }
      }
    }
    assert ids[..|ids|] == ids;
  }

  method Strip(entries: array<Entry>, carried: set<GroupId>)
    modifies entries
    ensures entries[..] == StrippedAll(old(entries[..]), carried)
  {
    for i := 0 to entries.Length
      invariant forall k :: i <= k < entries.Length ==> entries[k] == old(entries[k])
      invariant forall k :: 0 <= k < i ==> entries[k] == Stripped(old(entries[k]), carried)
    {
      entries[i] := Stripped(entries[i], carried);
    }
  }

  /** The groups a channel publishes; the ids of the others are stripped from its entries in place. */
  method PublishableGroups(entries: array<Entry>, rules: map<GroupId, Rule>) returns (published: seq<MenuGroup>)
    modifies entries
    ensures published == GroupsOn(rules, old(entries[..]))
    ensures entries[..] == StrippedAll(old(entries[..]), Carried(rules, old(entries[..])))
  {
    var was := entries[..];
    var priced, named := MenuMeaning.Priced(was), Named(was);
    published := PublishEach(rules, Ids(named), priced);
    FilteredIds(named, Carried(rules, was), OfferedIn(rules, priced));
    var carried := set i | 0 <= i < |published| :: published[i].id;
    PublishedIds(rules, was, published, carried);
    Strip(entries, carried);
  }

  lemma PublishedIds(rules: map<GroupId, Rule>, entries: seq<Entry>, published: seq<MenuGroup>, ids: set<GroupId>)
    requires published == GroupsOn(rules, entries) && ids == set i | 0 <= i < |published| :: published[i].id
    ensures ids == Carried(rules, entries)
  {
    hide Carried, Ids, Offered, MembersOn;
    ListedIds(Ids(Carried(rules, entries)), published, ids);
    assert forall id :: id in Ids(Carried(rules, entries)) <==> id in Carried(rules, entries);
  }

  lemma ListedIds(listed: seq<GroupId>, published: seq<MenuGroup>, ids: set<GroupId>)
    requires |published| == |listed| && forall i :: 0 <= i < |listed| ==> published[i].id == listed[i]
    requires ids == set i | 0 <= i < |published| :: published[i].id
    ensures forall id :: id in ids <==> id in listed
  {
    forall id | id in listed ensures id in ids {
      var i :| 0 <= i < |listed| && listed[i] == id;
      assert published[i].id in ids;
    }
    forall id | id in ids ensures id in listed {
      var i :| 0 <= i < |published| && published[i].id == id;
      assert listed[i] in listed;
    }
  }

  // --- The book ---------------------------------------------------------------------------------------------------

  /** One channel's catalog: its entries less the groups it cannot offer, those it can, and its courses. */
  method CatalogFor(ctx: Context, entries: seq<Entry>) returns (catalog: ChannelCatalog)
    ensures catalog == CatalogOf(ctx, entries)
  {
    var working := new Entry[|entries|](i requires 0 <= i < |entries| => entries[i]);
    assert working[..] == entries;
    var published := PublishableGroups(working, ctx.rules);
    SameCourses(ctx.courses, entries, working[..], Carried(ctx.rules, entries));
    catalog := ChannelCatalog(working[..], published, CoursesOn(ctx.courses, working[..]));
  }

  /** Stripping groups leaves every entry its course. */
  lemma SameCourses(courses: map<CourseId, Course>, entries: seq<Entry>, stripped: seq<Entry>, carried: set<GroupId>)
    requires stripped == StrippedAll(entries, carried)
    ensures CoursesOn(courses, stripped) == CoursesOn(courses, entries)
  {
    forall place ensures place in Places(courses, stripped) <==> place in Places(courses, entries) {
      if place in Places(courses, stripped) {
        var i :| 0 <= i < |stripped| && stripped[i].course.Some? && stripped[i].course.value in courses
                 && place == (courses[stripped[i].course.value].sort, stripped[i].course.value);
        assert entries[i].course == stripped[i].course;
      }
      if place in Places(courses, entries) {
        var i :| 0 <= i < |entries| && entries[i].course.Some? && entries[i].course.value in courses
                 && place == (courses[entries[i].course.value].sort, entries[i].course.value);
        assert entries[i].course == stripped[i].course;
      }
    }
    assert Places(courses, stripped) == Places(courses, entries);
  }

  lemma BookStep(entriesOn: SalesChannel -> seq<Entry>, catalogOf: seq<Entry> -> ChannelCatalog,
                 channels: seq<SalesChannel>, last: SalesChannel)
    ensures BookFor(entriesOn, catalogOf, channels + [last]) ==
            BookFor(entriesOn, catalogOf, channels) +
            if entriesOn(last) == [] then [] else [(last, catalogOf(entriesOn(last)))]
  {
    assert (channels + [last])[..|channels|] == channels;
  }

  method CatalogEach(ctx: Context, byChannel: ChannelEntries, ghost entriesOn: SalesChannel -> seq<Entry>,
                     ghost catalogOf: seq<Entry> -> ChannelCatalog)
    returns (book: Book)
    requires Proper(byChannel) && forall channel :: At(byChannel, channel) == entriesOn(channel)
    requires forall entries :: catalogOf(entries) == CatalogOf(ctx, entries)
    ensures book == BookFor(entriesOn, catalogOf, CHANNELS)
  {
    hide CatalogOf;
    book := [];
    for i := 0 to |CHANNELS|
      invariant book == BookFor(entriesOn, catalogOf, CHANNELS[..i])
    {
      var channel := CHANNELS[i];
      assert CHANNELS[..i + 1] == CHANNELS[..i] + [channel];
      BookStep(entriesOn, catalogOf, CHANNELS[..i], channel);
      assert At(byChannel, channel) == entriesOn(channel);
      if channel in byChannel {
        var catalog := CatalogFor(ctx, byChannel[channel]);
        assert catalog == catalogOf(entriesOn(channel));
        book := book + [(channel, catalog)];
      }
    }
    assert CHANNELS[..|CHANNELS|] == CHANNELS;
  }

  method MenuBook(ctx: Context, byChannel: ChannelEntries, ghost offers: map<ItemId, Offer>) returns (book: Book)
    requires Holds(ctx, offers, Ids(offers.Keys), byChannel)
    ensures book == BookOf(ctx, offers)
  {
    hide CatalogOf, EntriesOf, Ids;
    book := CatalogEach(ctx, byChannel, (channel: SalesChannel) => EntriesOn(ctx, offers, channel),
        (entries: seq<Entry>) => CatalogOf(ctx, entries));
  }

  /** Compiling a menu answers what the menu means. */
  method CompileMenu(a: Authoring, root: MenuId) returns (result: Result<Book, CompileError>)
    ensures result == Compiled(a, root)
  {
    var menus := Index(a.menus, (menu: Menu) => menu.id);
    var attached, rules := ActiveGroups(a.groups);
    var ctx := Context(Index(a.items, (item: Item) => item.id), attached, rules, CoursesOf(a.courses));
    var chain := MenuChain(menus, root);
    if chain.Err? {
      return Err(chain.error);
    }
    var resolved := ResolvePlacements(chain.value, a.placements);
    var byChannel := EntriesByChannel(ctx, resolved);
    if byChannel.Err? {
      return Err(byChannel.error);
    }
    assert OffersOf(resolved).Keys == resolved.Keys;
    var book := MenuBook(ctx, byChannel.value, OffersOf(resolved));
    return Ok(book);
  }
}

/**
 What a menu compiles to, said without the compiler's loops: the nearest placement of each item up the
 inheritance chain, the entries of each channel, and the groups and courses a channel carries.
 */
module MenuMeaning {
  import opened Outcomes
  import opened Ordered
  import opened Lists
  import opened MenuGraph
  import opened Catalog

  // --- The nearest placement ----------------------------------------------------------------------------

  /** The first placement of `item` on `menu`. */
  function PlacedOn(placements: seq<Placement>, menu: MenuId, item: ItemId): (placed: Option<Placement>)
    ensures placed.Some? ==> placed.value in placements && placed.value.menu == menu && placed.value.item == item
    ensures placed.None? ==> forall i :: 0 <= i < |placements| ==>
            !(placements[i].menu == menu && placements[i].item == item)
  {
    if placements == [] then None
    else
      var earlier, last := PlacedOn(placements[..|placements| - 1], menu, item), placements[|placements| - 1];
      if earlier.None? && last.menu == menu && last.item == item then Some(last) else earlier
  }

  /** The placement an item is sold by: its placement on the nearest menu of the chain that places it,
      whole. */
  function Nearest(chain: seq<MenuId>, placements: seq<Placement>, item: ItemId): Option<Placement> {
    if chain == [] then None
    else
      var nearer := Nearest(chain[..|chain| - 1], placements, item);
      if nearer.Some? then nearer else PlacedOn(placements, chain[|chain| - 1], item)
  }

  predicate PlacedInChain(chain: seq<MenuId>, placements: seq<Placement>, item: ItemId) {
    exists i :: 0 <= i < |placements| && placements[i].item == item && placements[i].menu in chain
  }

  lemma {:induction false} NearestFound(chain: seq<MenuId>, placements: seq<Placement>, item: ItemId)
    ensures Nearest(chain, placements, item).Some? <==> PlacedInChain(chain, placements, item)
  {
    if chain != [] {
      NearestFound(chain[..|chain| - 1], placements, item);
      assert forall menu :: menu in chain <==> menu in chain[..|chain| - 1] || menu == chain[|chain| - 1];
    }
  }

  function PlacedItems(chain: seq<MenuId>, placements: seq<Placement>): set<ItemId> {
    set i | 0 <= i < |placements| && placements[i].menu in chain :: placements[i].item
  }

  /** What an item is offered at: whether it is available, and each channel's prices. */
  datatype Offer = Offer(available: bool, prices: map<SalesChannel, seq<Money>>)

  function PricesOn(prices: seq<ChannelPrice>, channel: SalesChannel): seq<Money> {
    if prices == [] then []
    else
      var last := prices[|prices| - 1];
      PricesOn(prices[..|prices| - 1], channel) + if last.channel == Known(channel) then [last.price] else []
  }

  lemma {:induction false} PricesOnAre(prices: seq<ChannelPrice>, channel: SalesChannel, price: Money)
    ensures price in PricesOn(prices, channel) <==> ChannelPrice(Known(channel), price) in prices
  {
    if prices != [] {
      PricesOnAre(prices[..|prices| - 1], channel, price);
      assert forall row :: row in prices <==> row in prices[..|prices| - 1] || row == prices[|prices| - 1];
    }
  }

  function OfferOf(placement: Placement): Offer {
    Offer(placement.available, map channel | channel in CHANNELS :: PricesOn(placement.prices, channel))
  }

  /** Each item placed anywhere on the chain, with its nearest placement. */
  function Resolved(chain: seq<MenuId>, placements: seq<Placement>): (resolved: map<ItemId, Placement>)
    ensures forall item :: item in resolved <==> Nearest(chain, placements, item).Some?
    ensures forall item :: item in resolved ==> resolved[item] == Nearest(chain, placements, item).value
  {
    assert forall item :: item in PlacedItems(chain, placements) <==> Nearest(chain, placements, item).Some? by {
      forall item ensures item in PlacedItems(chain, placements) <==> Nearest(chain, placements, item).Some? {
        NearestFound(chain, placements, item);
      }
    }
    map item | item in PlacedItems(chain, placements) :: Nearest(chain, placements, item).value
  }

  function OffersOf(resolved: map<ItemId, Placement>): map<ItemId, Offer> {
    map item | item in resolved :: OfferOf(resolved[item])
  }

  // --- One channel's entries --------------------------------------------------------------------------------

  /** What the compiler looks things up in: the catalog's items, the active groups attached to each item,
      the active groups' rules, and the active courses. */
  datatype Context = Context(items: map<ItemId, Item>, attached: map<ItemId, set<GroupId>>,
                             rules: map<GroupId, Rule>, courses: map<CourseId, Course>)

  function AttachedTo(groups: seq<Group>, item: ItemId): set<GroupId> {
    set i | 0 <= i < |groups| && !groups[i].archived && item in groups[i].attached :: groups[i].id
  }

  function AttachedItems(groups: seq<Group>): set<ItemId> {
    set i, item | 0 <= i < |groups| && !groups[i].archived && item in groups[i].attached :: item
  }

  function Attachments(groups: seq<Group>): map<ItemId, set<GroupId>> {
    map item | item in AttachedItems(groups) ::
      AttachedTo(groups, item)
  }

  lemma AttachmentsAre(groups: seq<Group>, item: ItemId)
    ensures item in Attachments(groups) <==> AttachedTo(groups, item) != {}
    ensures item in Attachments(groups) ==> Attachments(groups)[item] == AttachedTo(groups, item)
  {
    if item in Attachments(groups) {
      var i :| 0 <= i < |groups| && !groups[i].archived && item in groups[i].attached;
      assert groups[i].id in AttachedTo(groups, item);
    }
  }

  function RulesOf(groups: seq<Group>): map<GroupId, Rule> {
    var active := Index(Filter(groups, (group: Group) => !group.archived), (group: Group) => group.id);
    map id | id in active :: active[id].rule
  }

  function CoursesOf(courses: seq<Course>): map<CourseId, Course> {
    Index(Filter(courses, (course: Course) => !course.archived), (course: Course) => course.id)
  }

  function ContextOf(a: Authoring): Context {
    Context(Index(a.items, (item: Item) => item.id), Attachments(a.groups), RulesOf(a.groups), CoursesOf(a.courses))
  }

  function GroupsOf(ctx: Context, item: ItemId): set<GroupId> {
    if item in ctx.attached then ctx.attached[item] else {}
  }

  /** One item priced for one channel, naming its active groups in id order and its course if active. */
  function EntryFor(ctx: Context, item: Item, available: bool, price: Money): Entry {
    Entry(item.id, item.name, item.translations, price, item.taxClass, available, Ids(GroupsOf(ctx, item.id)),
          if item.course.Some? && item.course.value in ctx.courses then item.course else None)
  }

  /** The item is sold: it is placed, it is in the catalog, and it is not archived. */
  predicate Sold(ctx: Context, offers: map<ItemId, Offer>, item: ItemId) {
    item in offers && item in ctx.items && !ctx.items[item].archived
  }

  /** One entry a price. */
  function EntryEach(make: Money -> Entry, prices: seq<Money>): (entries: seq<Entry>)
    ensures |entries| == |prices| && forall k :: 0 <= k < |prices| ==> entries[k] == make(prices[k])
  {
    seq(|prices|, k requires 0 <= k < |prices| => make(prices[k]))
  }

  function EntryMaker(ctx: Context, item: Item, available: bool): Money -> Entry {
    (price: Money) => EntryFor(ctx, item, available, price)
  }

  function ItemEntries(ctx: Context, offers: map<ItemId, Offer>, item: ItemId, channel: SalesChannel): seq<Entry> {
    if Sold(ctx, offers, item) && channel in offers[item].prices
    then EntryEach(EntryMaker(ctx, ctx.items[item], offers[item].available), offers[item].prices[channel])
    else []
  }

  function EntriesOf(ctx: Context, offers: map<ItemId, Offer>, items: seq<ItemId>, channel: SalesChannel): seq<Entry> {
    if items == [] then []
    else EntriesOf(ctx, offers, items[..|items| - 1], channel) + ItemEntries(ctx, offers, items[|items| - 1], channel)
  }

  /** A channel's entries, in item order. */
  function EntriesOn(ctx: Context, offers: map<ItemId, Offer>, channel: SalesChannel): seq<Entry> {
    EntriesOf(ctx, offers, Ids(offers.Keys), channel)
  }

  lemma {:induction false} EntriesOfAre(ctx: Context, offers: map<ItemId, Offer>, items: seq<ItemId>,
                                        channel: SalesChannel, entry: Entry)
    ensures entry in EntriesOf(ctx, offers, items, channel) <==>
            exists item :: item in items && entry in ItemEntries(ctx, offers, item, channel)
  {
    if items != [] {
      EntriesOfAre(ctx, offers, items[..|items| - 1], channel, entry);
      assert forall item :: item in items <==> item in items[..|items| - 1] || item == items[|items| - 1];
    }
  }

  /** `entry` is `item` as `channel` sells it: the item is sold, and priced there at the entry's price. */
  predicate Sells(ctx: Context, offers: map<ItemId, Offer>, channel: SalesChannel, item: ItemId, entry: Entry) {
    && Sold(ctx, offers, item) && channel in offers[item].prices && entry.price in offers[item].prices[channel]
    && entry == EntryFor(ctx, ctx.items[item], offers[item].available, entry.price)
  }

  lemma ItemEntriesAre(ctx: Context, offers: map<ItemId, Offer>, item: ItemId, channel: SalesChannel, entry: Entry)
    ensures entry in ItemEntries(ctx, offers, item, channel) <==> Sells(ctx, offers, channel, item, entry)
  {
    if Sells(ctx, offers, channel, item, entry) {
      var rows := offers[item].prices[channel];
      var k :| 0 <= k < |rows| && rows[k] == entry.price;
      assert ItemEntries(ctx, offers, item, channel)[k] == entry;
    }
  }

  /** A channel's entries are exactly the items it sells, each at each of its prices there. */
  lemma EntriesOnAre(ctx: Context, offers: map<ItemId, Offer>, channel: SalesChannel, entry: Entry)
    ensures entry in EntriesOn(ctx, offers, channel) <==> exists item :: Sells(ctx, offers, channel, item, entry)
  {
    EntriesOfAre(ctx, offers, Ids(offers.Keys), channel, entry);
    forall item ensures entry in ItemEntries(ctx, offers, item, channel) <==> Sells(ctx, offers, channel, item, entry) {
      ItemEntriesAre(ctx, offers, item, channel, entry);
    }
  }

  // --- What a channel carries -----------------------------------------------------------------------------------

  function Priced(entries: seq<Entry>): set<ItemId> {
    set i | 0 <= i < |entries| :: entries[i].item
  }

  function Named(entries: seq<Entry>): set<GroupId> {
    set i, group | 0 <= i < |entries| && group in entries[i].groups :: group
  }

  function MembersOn(rule: Rule, priced: set<ItemId>): seq<ItemId> {
    Filter(rule.members, (member: ItemId) => member in priced)
  }

  /** The channel prices a member of the group, and as many as it asks for. */
  predicate Satisfiable(rule: Rule, priced: set<ItemId>) {
    var offered := |MembersOn(rule, priced)|;
    offered >= 1 && offered >= rule.minSelect
  }

  /** The group is active, and the channel can offer it. */
  predicate Offered(rules: map<GroupId, Rule>, priced: set<ItemId>, group: GroupId) {
    group in rules && Satisfiable(rules[group], priced)
  }

  function OfferedIn(rules: map<GroupId, Rule>, priced: set<ItemId>): GroupId -> bool {
    (group: GroupId) => Offered(rules, priced, group)
  }

  function Carried(rules: map<GroupId, Rule>, entries: seq<Entry>): set<GroupId> {
    set group | group in Named(entries) && Offered(rules, Priced(entries), group)
  }

  function Stripped(entry: Entry, carried: set<GroupId>): Entry {
    entry.(groups := Filter(entry.groups, (group: GroupId) => group in carried))
  }

  function StrippedAll(entries: seq<Entry>, carried: set<GroupId>): (stripped: seq<Entry>)
    ensures |stripped| == |entries| && forall i :: 0 <= i < |entries| ==> stripped[i] == Stripped(entries[i], carried)
  {
    seq(|entries|, i requires 0 <= i < |entries| => Stripped(entries[i], carried))
  }

  function GroupOn(rules: map<GroupId, Rule>, group: GroupId, priced: set<ItemId>): MenuGroup
    requires group in rules
  {
    MenuGroup(group, rules[group].(members := MembersOn(rules[group], priced)))
  }

  function GroupsListed(rules: map<GroupId, Rule>, ids: seq<GroupId>, priced: set<ItemId>): (groups: seq<MenuGroup>)
    requires forall i :: 0 <= i < |ids| ==> ids[i] in rules
    ensures |groups| == |ids| && forall i :: 0 <= i < |ids| ==> groups[i] == GroupOn(rules, ids[i], priced)
  {
    seq(|ids|, i requires 0 <= i < |ids| => GroupOn(rules, ids[i], priced))
  }

  function GroupsOn(rules: map<GroupId, Rule>, entries: seq<Entry>): seq<MenuGroup> {
    var ids := Ids(Carried(rules, entries));
    assert forall i :: 0 <= i < |ids| ==> ids[i] in Carried(rules, entries);
    GroupsListed(rules, ids, Priced(entries))
  }

  predicate ServiceLeq(a: (int, CourseId), b: (int, CourseId)) {
    a.0 < b.0 || (a.0 == b.0 && a.1 <= b.1)
  }

  lemma ServiceOrder()
    ensures TotalOrder(ServiceLeq)
  {
  }

  /** The courses a channel's entries name, each with its place in the service. */
  function Places(courses: map<CourseId, Course>, entries: seq<Entry>): set<(int, CourseId)> {
    set i | 0 <= i < |entries| && entries[i].course.Some? && entries[i].course.value in courses ::
      (courses[entries[i].course.value].sort, entries[i].course.value)
  }

  function CoursesListed(courses: map<CourseId, Course>, places: seq<(int, CourseId)>): (served: seq<MenuCourse>)
    requires forall i :: 0 <= i < |places| ==> places[i].1 in courses
    ensures |served| == |places|
    ensures forall i :: 0 <= i < |places| ==>
            served[i] == MenuCourse(places[i].1, courses[places[i].1].name, places[i].0)
  {
    seq(|places|, i requires 0 <= i < |places| => MenuCourse(places[i].1, courses[places[i].1].name, places[i].0))
  }

  /** Those courses in service order, ties broken by id. */
  function CoursesOn(courses: map<CourseId, Course>, entries: seq<Entry>): seq<MenuCourse> {
    ServiceOrder();
    var places := Listing(Places(courses, entries), ServiceLeq);
    assert forall i :: 0 <= i < |places| ==> places[i] in Places(courses, entries);
    CoursesListed(courses, places)
  }

  function CatalogOf(ctx: Context, entries: seq<Entry>): ChannelCatalog {
    ChannelCatalog(StrippedAll(entries, Carried(ctx.rules, entries)), GroupsOn(ctx.rules, entries),
        CoursesOn(ctx.courses, entries))
  }

  // --- The book ----------------------------------------------------------------------------------------------------

  /** The channels that have entries, in turn, each with its catalog. */
  function BookFor(entriesOn: SalesChannel -> seq<Entry>, catalogOf: seq<Entry> -> ChannelCatalog,
                   channels: seq<SalesChannel>): Book {
    if channels == [] then []
    else
      var earlier, last := BookFor(entriesOn, catalogOf, channels[..|channels| - 1]), channels[|channels| - 1];
      if entriesOn(last) == [] then earlier else earlier + [(last, catalogOf(entriesOn(last)))]
  }

  function BookOf(ctx: Context, offers: map<ItemId, Offer>): Book {
    BookFor((channel: SalesChannel) => EntriesOn(ctx, offers, channel),
        (entries: seq<Entry>) => CatalogOf(ctx, entries), CHANNELS)
  }

  function Unknown(ctx: Context, offers: map<ItemId, Offer>): set<ItemId> {
    set item | item in offers && item !in ctx.items
  }

  /** What one menu compiles to. */
  function Compiled(a: Authoring, root: MenuId): Result<Book, CompileError> {
    match ChainOf(Index(a.menus, (menu: Menu) => menu.id), root)
    case Err(error) => Err(error)
    case Ok(chain) =>
      var ctx, offers := ContextOf(a), OffersOf(Resolved(chain, a.placements));
      var unknown := Unknown(ctx, offers);
      if unknown != {} then Err(UnknownItem(Ids(unknown)[0])) else Ok(BookOf(ctx, offers))
  }
}

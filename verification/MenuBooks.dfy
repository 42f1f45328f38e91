/** What a compiled book says: when there is one, what each channel sells, and that a channel's catalog
    refers only to what it carries and carries only what is referred to. */
module MenuBooks {
  import opened Outcomes
  import opened Ordered
  import opened Lists
  import opened MenuGraph
  import opened Catalog
  import opened MenuMeaning

  function MenusOf(a: Authoring): Menus {
    Index(a.menus, (menu: Menu) => menu.id)
  }

  // --- When a menu compiles ---------------------------------------------------------------------------------------

  /** The chain holds exactly the menus reached from the root. */
  lemma ChainReaches(menus: Menus, root: MenuId, menu: MenuId)
    requires ChainOf(menus, root).Ok?
    ensures menu in ChainOf(menus, root).value <==> Reaches(ParentsOf(menus), Some(root), menu)
  {
    ChainMeaning(menus, root);
    var chain, parents := ChainOf(menus, root).value, ParentsOf(menus);
    if menu in chain {
      var i :| 0 <= i < |chain| && chain[i] == menu;
      assert Ancestor(parents, Some(root), i) == Some(menu);
    }
    if steps: nat :| Ancestor(parents, Some(root), steps) == Some(menu) {
      if steps >= |chain| { NowhereFurther(parents, Some(root), |chain|, steps); }
    }
  }

  /** Every item placed on a menu reached from the root is in the catalog. */
  ghost predicate PlacedItemsKnown(a: Authoring, root: MenuId) {
    forall placement :: placement in a.placements && Reaches(ParentsOf(MenusOf(a)), Some(root), placement.menu) ==>
      exists item :: item in a.items && item.id == placement.item
  }

  lemma KnownItems(a: Authoring, root: MenuId, chain: seq<MenuId>)
    requires ChainOf(MenusOf(a), root) == Ok(chain)
    ensures Unknown(ContextOf(a), OffersOf(Resolved(chain, a.placements))) == {} <==> PlacedItemsKnown(a, root)
  {
    var items, resolved := ContextOf(a).items, Resolved(chain, a.placements);
    if PlacedItemsKnown(a, root) {
      forall item | item in resolved ensures item in items {
        NearestFound(chain, a.placements, item);
        var i :| 0 <= i < |a.placements| && a.placements[i].item == item && a.placements[i].menu in chain;
        ChainReaches(MenusOf(a), root, a.placements[i].menu);
        assert a.placements[i] in a.placements;
      }
    }
    var unknown := Unknown(ContextOf(a), OffersOf(resolved));
    if unknown == {} {
      forall placement | placement in a.placements && Reaches(ParentsOf(MenusOf(a)), Some(root), placement.menu)
        ensures exists item :: item in a.items && item.id == placement.item
      {
        ChainReaches(MenusOf(a), root, placement.menu);
        NearestFound(chain, a.placements, placement.item);
        assert placement.item in resolved && placement.item !in unknown;
        assert items[placement.item] in a.items;
      }
    }
  }

  /** A menu compiles exactly when the walk up from it ends with every menu known and active, and every
      item placed along the way is in the catalog. */
  lemma CompilesExactly(a: Authoring, root: MenuId)
    ensures Compiled(a, root).Ok? <==>
            (exists steps: nat :: EndsAfter(MenusOf(a), root, steps)) && PlacedItemsKnown(a, root)
  {
    ChainMeaning(MenusOf(a), root);
    if ChainOf(MenusOf(a), root).Ok? {
      KnownItems(a, root, ChainOf(MenusOf(a), root).value);
    }
  }

  // --- What each channel sells ---------------------------------------------------------------------------------------

  /** The nearest placement is the first on the nearest menu of the chain that places the item at all. */
  lemma {:induction false} NearestIsNearest(chain: seq<MenuId>, placements: seq<Placement>, item: ItemId,
                                            placement: Placement)
    ensures Nearest(chain, placements, item) == Some(placement) <==>
            exists d :: 0 <= d < |chain| && PlacedOn(placements, chain[d], item) == Some(placement)
                        && forall nearer :: 0 <= nearer < d ==> PlacedOn(placements, chain[nearer], item).None?
  {
    if chain != [] {
      var shorter := chain[..|chain| - 1];
      NearestIsNearest(shorter, placements, item, placement);
      if Nearest(shorter, placements, item).None? {
        NoneNearer(shorter, placements, item);
        if PlacedOn(placements, chain[|shorter|], item) == Some(placement) {
          assert forall nearer :: 0 <= nearer < |shorter| ==> chain[nearer] == shorter[nearer];
        }
      } else {
        var found := Nearest(shorter, placements, item).value;
        NearestIsNearest(shorter, placements, item, found);
        var d :| 0 <= d < |shorter| && PlacedOn(placements, shorter[d], item) == Some(found)
                 && forall nearer :: 0 <= nearer < d ==> PlacedOn(placements, shorter[nearer], item).None?;
        assert chain[d] == shorter[d];
        assert forall nearer :: 0 <= nearer < d ==> chain[nearer] == shorter[nearer];
      }
    }
  }

  lemma {:induction false} NoneNearer(chain: seq<MenuId>, placements: seq<Placement>, item: ItemId)
    requires Nearest(chain, placements, item).None?
    ensures forall d :: 0 <= d < |chain| ==> PlacedOn(placements, chain[d], item).None?
  {
    if chain != [] {
      NoneNearer(chain[..|chain| - 1], placements, item);
    }
  }

  /** `channel` sells `item` at `price`: the item is active, and the nearest menu of the chain that places
      it prices it so on that channel. */
  ghost predicate SoldAt(a: Authoring, chain: seq<MenuId>, channel: SalesChannel, item: ItemId, price: Money) {
    var items, nearest := ContextOf(a).items, Nearest(chain, a.placements, item);
    && channel != Unspecified
    && item in items && !items[item].archived
    && nearest.Some? && ChannelPrice(Known(channel), price) in nearest.value.prices
  }

  lemma SellsIsSoldAt(a: Authoring, chain: seq<MenuId>, channel: SalesChannel, item: ItemId, price: Money)
    ensures var ctx, offers := ContextOf(a), OffersOf(Resolved(chain, a.placements));
            (Sold(ctx, offers, item) && channel in offers[item].prices && price in offers[item].prices[channel])
            <==> SoldAt(a, chain, channel, item, price)
  {
    SellableChannels(channel);
    var nearest := Nearest(chain, a.placements, item);
    if nearest.Some? { PricesOnAre(nearest.value.prices, channel, price); }
  }

  function ChannelsOf(book: Book): seq<SalesChannel> {
    seq(|book|, k requires 0 <= k < |book| => book[k].0)
  }

  /** The book lists the channels that have entries, in the order given, each with its catalog. */
  lemma {:induction false} BookShape(entriesOn: SalesChannel -> seq<Entry>, catalogOf: seq<Entry> -> ChannelCatalog,
                                     channels: seq<SalesChannel>)
    ensures var book := BookFor(entriesOn, catalogOf, channels);
            && ChannelsOf(book) == Filter(channels, (channel: SalesChannel) => entriesOn(channel) != [])
            && forall k :: 0 <= k < |book| ==> book[k].1 == catalogOf(entriesOn(book[k].0))
  {
    if channels != [] {
      var shorter, last := channels[..|channels| - 1], channels[|channels| - 1];
      BookShape(entriesOn, catalogOf, shorter);
      var book := BookFor(entriesOn, catalogOf, channels);
      assert entriesOn(last) != [] ==> ChannelsOf(book) == ChannelsOf(BookFor(entriesOn, catalogOf, shorter)) + [last];
    }
  }

  /** An entry of the book's catalog for `channel`. */
  ghost predicate Listed(book: Book, channel: SalesChannel, entry: Entry) {
    exists k :: 0 <= k < |book| && book[k].0 == channel && entry in book[k].1.entries
  }

  lemma CatalogEntries(ctx: Context, entries: seq<Entry>, entry: Entry)
    ensures entry in CatalogOf(ctx, entries).entries <==>
            exists i :: 0 <= i < |entries| && entry == Stripped(entries[i], Carried(ctx.rules, entries))
  {
    var stripped := StrippedAll(entries, Carried(ctx.rules, entries));
    if i :| 0 <= i < |entries| && entry == Stripped(entries[i], Carried(ctx.rules, entries)) {
      assert stripped[i] == entry;
    }
  }

  /** The entries a channel of the book lists are that channel's entries, less the groups it does not carry. */
  lemma ListedAre(ctx: Context, offers: map<ItemId, Offer>, channel: SalesChannel, entry: Entry)
    ensures Listed(BookOf(ctx, offers), channel, entry) <==>
            channel in CHANNELS && entry in CatalogOf(ctx, EntriesOn(ctx, offers, channel)).entries
  {
    var entriesOn := (at: SalesChannel) => EntriesOn(ctx, offers, at);
    var catalogOf := (entries: seq<Entry>) => CatalogOf(ctx, entries);
    BookShape(entriesOn, catalogOf, CHANNELS);
    ListedIn(entriesOn, catalogOf, CHANNELS, channel, entry);
    CatalogEntries(ctx, EntriesOn(ctx, offers, channel), entry);
  }

  lemma ListedIn(entriesOn: SalesChannel -> seq<Entry>, catalogOf: seq<Entry> -> ChannelCatalog,
                 channels: seq<SalesChannel>, channel: SalesChannel, entry: Entry)
    ensures Listed(BookFor(entriesOn, catalogOf, channels), channel, entry) <==>
            channel in channels && entriesOn(channel) != [] && entry in catalogOf(entriesOn(channel)).entries
  {
    BookShape(entriesOn, catalogOf, channels);
    var book := BookFor(entriesOn, catalogOf, channels);
    var named := ChannelsOf(book);
    assert forall k :: 0 <= k < |book| ==> named[k] == book[k].0;
    if Listed(book, channel, entry) {
      var k :| 0 <= k < |book| && book[k].0 == channel && entry in book[k].1.entries;
      assert named[k] in named;
    }
    if channel in channels && entriesOn(channel) != [] {
      assert channel in named;
      var k :| 0 <= k < |named| && named[k] == channel;
      assert book[k].0 == channel;
    }
  }

  /** What a listed entry says of its item. */
  ghost predicate EntryOf(a: Authoring, chain: seq<MenuId>, channel: SalesChannel, entry: Entry) {
    && SoldAt(a, chain, channel, entry.item, entry.price)
    && entry.available == Nearest(chain, a.placements, entry.item).value.available
    && var item := ContextOf(a).items[entry.item];
       entry.name == item.name && entry.translations == item.translations && entry.taxClass == item.taxClass
  }

  /** An entry listed on a channel is that channel's entry of some item it sells. */
  lemma ListedIsSold(ctx: Context, offers: map<ItemId, Offer>, channel: SalesChannel, entry: Entry)
    returns (item: ItemId, whole: Entry)
    requires Listed(BookOf(ctx, offers), channel, entry)
    ensures Sells(ctx, offers, channel, item, whole) && whole == entry.(groups := whole.groups) && channel in CHANNELS
  {
    hide BookOf, CatalogOf, Sells, EntriesOn;
    var entries := EntriesOn(ctx, offers, channel);
    ListedAre(ctx, offers, channel, entry);
    CatalogEntries(ctx, entries, entry);
    var i :| 0 <= i < |entries| && entry == Stripped(entries[i], Carried(ctx.rules, entries));
    whole := entries[i];
    EntriesOnAre(ctx, offers, channel, whole);
    item :| Sells(ctx, offers, channel, item, whole);
  }

  lemma SoldIsListed(ctx: Context, offers: map<ItemId, Offer>, channel: SalesChannel, item: ItemId, whole: Entry)
    returns (entry: Entry)
    requires Sells(ctx, offers, channel, item, whole) && channel in CHANNELS
    ensures Listed(BookOf(ctx, offers), channel, entry) && entry == whole.(groups := entry.groups)
  {
    hide BookOf, CatalogOf, Sells, EntriesOn;
    var entries := EntriesOn(ctx, offers, channel);
    EntriesOnAre(ctx, offers, channel, whole);
    var i :| 0 <= i < |entries| && entries[i] == whole;
    entry := Stripped(whole, Carried(ctx.rules, entries));
    CatalogEntries(ctx, entries, entry);
    ListedAre(ctx, offers, channel, entry);
  }

  lemma ListedSaysOf(a: Authoring, chain: seq<MenuId>, channel: SalesChannel, entry: Entry)
    requires Listed(BookOf(ContextOf(a), OffersOf(Resolved(chain, a.placements))), channel, entry)
    ensures EntryOf(a, chain, channel, entry)
  {
    hide BookOf, Listed;
    var item, whole := ListedIsSold(ContextOf(a), OffersOf(Resolved(chain, a.placements)), channel, entry);
    SellsIsSoldAt(a, chain, channel, item, entry.price);
  }

  lemma SoldAtListed(a: Authoring, chain: seq<MenuId>, channel: SalesChannel, item: ItemId, price: Money)
    returns (entry: Entry)
    requires SoldAt(a, chain, channel, item, price)
    ensures Listed(BookOf(ContextOf(a), OffersOf(Resolved(chain, a.placements))), channel, entry)
    ensures entry.item == item && entry.price == price
  {
    hide BookOf, Listed;
    var ctx, offers := ContextOf(a), OffersOf(Resolved(chain, a.placements));
    SellsIsSoldAt(a, chain, channel, item, price);
    SellableChannels(channel);
    var whole := EntryFor(ctx, ctx.items[item], offers[item].available, price);
    assert Sells(ctx, offers, channel, item, whole);
    entry := SoldIsListed(ctx, offers, channel, item, whole);
  }

  /** A compiled channel sells an item at a price exactly when the item is active and the nearest menu of
      the chain placing it prices it so on that channel; and the entry says of the item what the catalog
      and that placement say. */
  lemma BookSells(a: Authoring, root: MenuId, chain: seq<MenuId>, channel: SalesChannel)
    requires Compiled(a, root).Ok? && ChainOf(MenusOf(a), root) == Ok(chain)
    ensures forall entry :: Listed(Compiled(a, root).value, channel, entry) ==> EntryOf(a, chain, channel, entry)
    ensures forall item, price :: SoldAt(a, chain, channel, item, price) ==>
              exists entry ::
                Listed(Compiled(a, root).value, channel, entry) && entry.item == item && entry.price == price
  {
    var book := BookOf(ContextOf(a), OffersOf(Resolved(chain, a.placements)));
    assert Compiled(a, root).value == book;
    hide *;
    forall entry | Listed(book, channel, entry) ensures EntryOf(a, chain, channel, entry) {
      ListedSaysOf(a, chain, channel, entry);
    }
    forall item, price | SoldAt(a, chain, channel, item, price)
      ensures exists entry :: Listed(book, channel, entry) && entry.item == item && entry.price == price
    {
      var entry := SoldAtListed(a, chain, channel, item, price);
    }
  }

  // --- In what order -----------------------------------------------------------------------------

  /** A channel's place among the wire tokens. */
  function WireRank(channel: SalesChannel): nat {
    match channel
    case Api => 0
    case Delivery => 1
    case DineIn => 2
    case Qr => 3
    case Takeaway => 4
    case Unspecified => 5
  }

  predicate WireLeq(a: SalesChannel, b: SalesChannel) {
    WireRank(a) <= WireRank(b)
  }

  ghost predicate InItemOrder(entries: seq<Entry>) {
    forall i, j :: 0 <= i < j < |entries| ==> entries[i].item <= entries[j].item
  }

  lemma {:induction false} EntriesInOrder(ctx: Context, offers: map<ItemId, Offer>, items: seq<ItemId>,
                                          channel: SalesChannel)
    requires Ascending(items, IdLeq) && forall item :: item in ctx.items ==> ctx.items[item].id == item
    ensures InItemOrder(EntriesOf(ctx, offers, items, channel))
  {
    if items != [] {
      var shorter, last := items[..|items| - 1], items[|items| - 1];
      EntriesInOrder(ctx, offers, shorter, channel);
      var earlier := EntriesOf(ctx, offers, shorter, channel);
      forall i | 0 <= i < |earlier| ensures earlier[i].item <= last {
        EntriesOfAre(ctx, offers, shorter, channel, earlier[i]);
        var item :| item in shorter && earlier[i] in ItemEntries(ctx, offers, item, channel);
        ItemEntriesAre(ctx, offers, item, channel, earlier[i]);
        var k :| 0 <= k < |shorter| && shorter[k] == item;
        assert IdLeq(items[k], items[|items| - 1]);
      }
      var added := ItemEntries(ctx, offers, last, channel);
      forall i | 0 <= i < |added| ensures added[i].item == last {
        ItemEntriesAre(ctx, offers, last, channel, added[i]);
      }
    }
  }

  lemma WireOrder()
    ensures Ascending(CHANNELS, WireLeq)
  {
  }

  lemma ChannelsInOrder(entriesOn: SalesChannel -> seq<Entry>, catalogOf: seq<Entry> -> ChannelCatalog)
    ensures var book := BookFor(entriesOn, catalogOf, CHANNELS);
            Ascending(ChannelsOf(book), WireLeq) && forall k :: 0 <= k < |book| ==> entriesOn(book[k].0) != []
  {
    WireOrder();
    hide WireLeq, BookFor, Filter;
    BookShape(entriesOn, catalogOf, CHANNELS);
    FilterAscending(CHANNELS, (channel: SalesChannel) => entriesOn(channel) != [], WireLeq);
    var book := BookFor(entriesOn, catalogOf, CHANNELS);
    forall k | 0 <= k < |book| ensures entriesOn(book[k].0) != [] {
      assert ChannelsOf(book)[k] in ChannelsOf(book);
    }
  }

  lemma CatalogInOrder(ctx: Context, offers: map<ItemId, Offer>, channel: SalesChannel)
    requires forall item :: item in ctx.items ==> ctx.items[item].id == item
    ensures InItemOrder(CatalogOf(ctx, EntriesOn(ctx, offers, channel)).entries)
  {
    EntriesInOrder(ctx, offers, Ids(offers.Keys), channel);
  }

  /** The book's channels come in the order of their wire tokens, none twice, and each channel's entries in
      item order, at least one of them. */
  lemma BookInOrder(a: Authoring, root: MenuId)
    requires Compiled(a, root).Ok?
    ensures var book := Compiled(a, root).value;
            && Ascending(ChannelsOf(book), WireLeq)
            && forall k :: 0 <= k < |book| ==> book[k].1.entries != [] && InItemOrder(book[k].1.entries)
  {
    var chain := ChainOf(MenusOf(a), root).value;
    var ctx, offers := ContextOf(a), OffersOf(Resolved(chain, a.placements));
    var entriesOn, catalogOf := (channel: SalesChannel) => EntriesOn(ctx, offers, channel),
        (entries: seq<Entry>) => CatalogOf(ctx, entries);
    BookShape(entriesOn, catalogOf, CHANNELS);
    ChannelsInOrder(entriesOn, catalogOf);
    var book := BookFor(entriesOn, catalogOf, CHANNELS);
    assert Compiled(a, root).value == book;
    forall k | 0 <= k < |book| ensures book[k].1.entries != [] && InItemOrder(book[k].1.entries) {
      CatalogInOrder(ctx, offers, book[k].0);
    }
  }

  // --- References, both ways ----------------------------------------------------------------------------------------

  lemma StrippedSame(entries: seq<Entry>, carried: set<GroupId>)
    ensures Priced(StrippedAll(entries, carried)) == Priced(entries)
  {
    var stripped := StrippedAll(entries, carried);
    forall item ensures item in Priced(stripped) <==> item in Priced(entries) {
      if item in Priced(stripped) {
        var i :| 0 <= i < |stripped| && stripped[i].item == item;
        assert entries[i].item == item;
      }
      if item in Priced(entries) {
        var i :| 0 <= i < |entries| && entries[i].item == item;
        assert stripped[i].item == item;
      }
    }
  }

  ghost predicate CarriesGroup(catalog: ChannelCatalog, id: GroupId) {
    exists k :: 0 <= k < |catalog.groups| && catalog.groups[k].id == id
  }

  ghost predicate NamesGroup(catalog: ChannelCatalog, id: GroupId) {
    exists i :: 0 <= i < |catalog.entries| && id in catalog.entries[i].groups
  }

  /** A published group is the authored one with the members the channel prices, in the authored order:
      at least one of them, and at least as many as must be picked. */
  ghost predicate Publishable(rules: map<GroupId, Rule>, priced: set<ItemId>, group: MenuGroup) {
    && group.id in rules
    && group.rule == rules[group.id].(members := group.rule.members)
    && group.rule.members == Filter(rules[group.id].members, (member: ItemId) => member in priced)
    && |group.rule.members| >= 1 && |group.rule.members| >= group.rule.minSelect
  }

  lemma CarriedAre(rules: map<GroupId, Rule>, entries: seq<Entry>, catalog: ChannelCatalog, id: GroupId)
    requires catalog.groups == GroupsOn(rules, entries)
    ensures CarriesGroup(catalog, id) <==> id in Carried(rules, entries)
  {
    var ids := Ids(Carried(rules, entries));
    assert forall k :: 0 <= k < |ids| ==> catalog.groups[k].id == ids[k];
    if CarriesGroup(catalog, id) {
      var k :| 0 <= k < |catalog.groups| && catalog.groups[k].id == id;
      assert ids[k] in ids;
    }
    if id in Carried(rules, entries) {
      assert id in ids;
      var k :| 0 <= k < |ids| && ids[k] == id;
      assert catalog.groups[k].id == id;
    }
  }

  ghost predicate InIdOrder(groups: seq<MenuGroup>) {
    forall j, k :: 0 <= j < k < |groups| ==> groups[j].id < groups[k].id
  }

  lemma GroupsInIdOrder(rules: map<GroupId, Rule>, entries: seq<Entry>)
    ensures InIdOrder(GroupsOn(rules, entries))
  {
    var ids := Ids(Carried(rules, entries));
    forall j, k | 0 <= j < k < |ids| ensures GroupsOn(rules, entries)[j].id < GroupsOn(rules, entries)[k].id {
      assert IdLeq(ids[j], ids[k]) && ids[j] != ids[k];
    }
  }

  lemma GroupsPublishable(rules: map<GroupId, Rule>, entries: seq<Entry>)
    ensures forall k :: 0 <= k < |GroupsOn(rules, entries)| ==>
            Publishable(rules, Priced(entries), GroupsOn(rules, entries)[k])
  {
    var ids := Ids(Carried(rules, entries));
    forall k | 0 <= k < |ids| ensures Publishable(rules, Priced(entries), GroupsOn(rules, entries)[k]) {
      assert ids[k] in ids && ids[k] in Carried(rules, entries);
    }
  }

  lemma StrippedNames(rules: map<GroupId, Rule>, entries: seq<Entry>, i: nat, id: GroupId)
    requires i < |entries|
    ensures id in StrippedAll(entries, Carried(rules, entries))[i].groups <==>
            id in entries[i].groups && Offered(rules, Priced(entries), id)
  {
    if id in entries[i].groups { assert id in Named(entries); }
  }

  /** A channel carries exactly the groups its entries still name. */
  lemma CarriedNamed(ctx: Context, entries: seq<Entry>, id: GroupId)
    ensures CarriesGroup(CatalogOf(ctx, entries), id) <==> NamesGroup(CatalogOf(ctx, entries), id)
  {
    var catalog := CatalogOf(ctx, entries);
    CarriedAre(ctx.rules, entries, catalog, id);
    if id in Carried(ctx.rules, entries) {
      var i, group :| 0 <= i < |entries| && group in entries[i].groups && group == id;
      StrippedNames(ctx.rules, entries, i, id);
      assert id in catalog.entries[i].groups;
    }
    if NamesGroup(catalog, id) {
      var i :| 0 <= i < |catalog.entries| && id in catalog.entries[i].groups;
      StrippedNames(ctx.rules, entries, i, id);
      assert id in Named(entries);
    }
  }

  ghost predicate CarriesCourse(catalog: ChannelCatalog, id: CourseId) {
    exists k :: 0 <= k < |catalog.courses| && catalog.courses[k].id == id
  }

  ghost predicate NamesCourse(catalog: ChannelCatalog, id: CourseId) {
    exists i :: 0 <= i < |catalog.entries| && catalog.entries[i].course == Some(id)
  }

  ghost predicate InServiceOrder(served: seq<MenuCourse>) {
    forall i, j :: 0 <= i < j < |served| ==>
      served[i].sort < served[j].sort || (served[i].sort == served[j].sort && served[i].id < served[j].id)
  }

  lemma ServedAre(courses: map<CourseId, Course>, entries: seq<Entry>, id: CourseId)
    requires forall i :: 0 <= i < |entries| && entries[i].course.Some? ==> entries[i].course.value in courses
    ensures (exists k :: 0 <= k < |CoursesOn(courses, entries)| && CoursesOn(courses, entries)[k].id == id) <==>
            exists i :: 0 <= i < |entries| && entries[i].course == Some(id)
  {
    ServiceOrder();
    var places, served := Listing(Places(courses, entries), ServiceLeq), CoursesOn(courses, entries);
    assert forall k :: 0 <= k < |places| ==> served[k].id == places[k].1;
    if k :| 0 <= k < |served| && served[k].id == id {
      assert places[k] in places && places[k] in Places(courses, entries);
    }
    if i :| 0 <= i < |entries| && entries[i].course == Some(id) {
      assert (courses[entries[i].course.value].sort, entries[i].course.value) in Places(courses, entries);
      assert (courses[id].sort, id) in places;
      var k :| 0 <= k < |places| && places[k] == (courses[id].sort, id);
      assert served[k].id == id;
    }
  }

  /** The courses served come in service order, strictly, ties broken by id; each says what is authored. */
  lemma ServedInOrder(courses: map<CourseId, Course>, entries: seq<Entry>)
    ensures InServiceOrder(CoursesOn(courses, entries))
    ensures forall k :: 0 <= k < |CoursesOn(courses, entries)| ==>
              var served := CoursesOn(courses, entries)[k];
              served.id in courses && served.name == courses[served.id].name && served.sort == courses[served.id].sort
  {
    ServiceOrder();
    var places, served := Listing(Places(courses, entries), ServiceLeq), CoursesOn(courses, entries);
    forall k | 0 <= k < |served|
      ensures served[k].id in courses && served[k].name == courses[served[k].id].name
              && served[k].sort == courses[served[k].id].sort
    {
      assert places[k] in places && places[k] in Places(courses, entries);
    }
    forall i, j | 0 <= i < j < |served|
      ensures served[i].sort < served[j].sort || (served[i].sort == served[j].sort && served[i].id < served[j].id)
    {
      assert ServiceLeq(places[i], places[j]) && places[i] != places[j];
    }
  }

  /** The course an item is served on, if it is active. */
  function ActiveCourse(ctx: Context, item: ItemId): Option<CourseId> {
    if item in ctx.items && ctx.items[item].course.Some? && ctx.items[item].course.value in ctx.courses
    then ctx.items[item].course else None
  }

  ghost predicate EntryClosed(ctx: Context, priced: set<ItemId>, entry: Entry) {
    && (forall id :: id in entry.groups <==> id in GroupsOf(ctx, entry.item) && Offered(ctx.rules, priced, id))
    && Ascending(entry.groups, IdLeq)
    && entry.course == ActiveCourse(ctx, entry.item)
  }

  /** A catalog closed under references both ways: an entry names exactly the active groups attached to its
      item that the channel can offer, and its item's course exactly if active; the groups and courses
      carried are exactly those some entry names, the groups each once in the order of their ids. */
  ghost predicate ClosedCatalog(ctx: Context, catalog: ChannelCatalog) {
    && (forall i :: 0 <= i < |catalog.entries| ==> EntryClosed(ctx, Priced(catalog.entries), catalog.entries[i]))
    && (forall id :: CarriesGroup(catalog, id) <==> NamesGroup(catalog, id))
    && (forall k :: 0 <= k < |catalog.groups| ==> Publishable(ctx.rules, Priced(catalog.entries), catalog.groups[k]))
    && InIdOrder(catalog.groups)
    && (forall id :: CarriesCourse(catalog, id) <==> NamesCourse(catalog, id))
    && InServiceOrder(catalog.courses)
  }

  /** Every entry names all its item's active groups, in order, and its course if active. */
  ghost predicate WellNamed(ctx: Context, entries: seq<Entry>) {
    forall i :: 0 <= i < |entries| ==>
      entries[i].groups == Ids(GroupsOf(ctx, entries[i].item))
          && entries[i].course == ActiveCourse(ctx, entries[i].item)
  }

  lemma EntriesWellNamed(ctx: Context, offers: map<ItemId, Offer>, channel: SalesChannel)
    requires forall item :: item in ctx.items ==> ctx.items[item].id == item
    ensures WellNamed(ctx, EntriesOn(ctx, offers, channel))
  {
    var entries := EntriesOn(ctx, offers, channel);
    forall i | 0 <= i < |entries|
      ensures entries[i].groups == Ids(GroupsOf(ctx, entries[i].item))
              && entries[i].course == ActiveCourse(ctx, entries[i].item)
    {
      EntriesOnAre(ctx, offers, channel, entries[i]);
    }
  }

  lemma EntryIsClosed(ctx: Context, entries: seq<Entry>, i: nat)
    requires WellNamed(ctx, entries) && i < |entries|
    ensures EntryClosed(ctx, Priced(entries), StrippedAll(entries, Carried(ctx.rules, entries))[i])
  {
    var carried := Carried(ctx.rules, entries);
    forall id
      ensures id in StrippedAll(entries, carried)[i].groups <==>
              id in entries[i].groups && Offered(ctx.rules, Priced(entries), id)
    {
      StrippedNames(ctx.rules, entries, i, id);
    }
    FilterAscending(entries[i].groups, (group: GroupId) => group in carried, IdLeq);
  }

  lemma CoursesClosed(ctx: Context, entries: seq<Entry>, id: CourseId)
    requires WellNamed(ctx, entries)
    ensures CarriesCourse(CatalogOf(ctx, entries), id) <==> NamesCourse(CatalogOf(ctx, entries), id)
  {
    hide CoursesOn, GroupsOn, Carried, Ids;
    ServedAre(ctx.courses, entries, id);
    var stripped := CatalogOf(ctx, entries).entries;
    assert forall i :: 0 <= i < |entries| ==> stripped[i].course == entries[i].course;
    if i :| 0 <= i < |entries| && entries[i].course == Some(id) {
      assert stripped[i].course == Some(id);
    }
  }

  lemma CatalogIsClosed(ctx: Context, entries: seq<Entry>)
    requires WellNamed(ctx, entries)
    ensures ClosedCatalog(ctx, CatalogOf(ctx, entries))
  {
    var catalog := CatalogOf(ctx, entries);
    StrippedSame(entries, Carried(ctx.rules, entries));
    forall i | 0 <= i < |entries| ensures EntryClosed(ctx, Priced(entries), catalog.entries[i]) {
      EntryIsClosed(ctx, entries, i);
    }
    forall id ensures CarriesGroup(catalog, id) <==> NamesGroup(catalog, id) { CarriedNamed(ctx, entries, id); }
    GroupsPublishable(ctx.rules, entries);
    GroupsInIdOrder(ctx.rules, entries);
    forall id ensures CarriesCourse(catalog, id) <==> NamesCourse(catalog, id) { CoursesClosed(ctx, entries, id); }
    ServedInOrder(ctx.courses, entries);
  }

  /** Every catalog of a compiled book is closed under references both ways. */
  lemma BookClosed(a: Authoring, root: MenuId)
    requires Compiled(a, root).Ok?
    ensures var book := Compiled(a, root).value;
            forall k :: 0 <= k < |book| ==> ClosedCatalog(ContextOf(a), book[k].1)
  {
    var chain := ChainOf(MenusOf(a), root).value;
    var ctx, offers := ContextOf(a), OffersOf(Resolved(chain, a.placements));
    BookShape((channel: SalesChannel) => EntriesOn(ctx, offers, channel),
        (entries: seq<Entry>) => CatalogOf(ctx, entries), CHANNELS);
    var book := BookOf(ctx, offers);
    forall k | 0 <= k < |book| ensures ClosedCatalog(ctx, book[k].1) {
      EntriesWellNamed(ctx, offers, book[k].0);
      CatalogIsClosed(ctx, EntriesOn(ctx, offers, book[k].0));
    }
  }
}

/** A book follows from what is authored, not from how it is listed: reordering any list changes nothing. */
module MenuOrder {
  import opened Outcomes
  import opened Ordered
  import opened Lists
  import opened MenuGraph
  import opened Catalog
  import opened MenuMeaning

  // --- The same authoring, listed differently ------------------------------------------------------------------------

  function Elements<T>(list: seq<T>): set<T> {
    set x | x in list
  }

  lemma SameMembers<T(!new)>(a: seq<T>, b: seq<T>)
    requires Elements(a) == Elements(b)
    ensures forall x :: x in a <==> x in b
  {
    forall x ensures x in a <==> x in b {
      assert x in a <==> x in Elements(a);
      assert x in b <==> x in Elements(b);
    }
  }

  /** A placement, its price rows in no order. */
  datatype Placing = Placing(menu: MenuId, item: ItemId, available: bool, prices: set<ChannelPrice>)

  function PlacingOf(placement: Placement): Placing {
    Placing(placement.menu, placement.item, placement.available, Elements(placement.prices))
  }

  function Placings(placements: seq<Placement>): set<Placing> {
    set placement | placement in placements :: PlacingOf(placement)
  }

  /** A group, its attachments in no order. */
  datatype Grouping = Grouping(id: GroupId, rule: Rule, archived: bool, attached: set<ItemId>)

  function GroupingOf(group: Group): Grouping {
    Grouping(group.id, group.rule, group.archived, Elements(group.attached))
  }

  function Groupings(groups: seq<Group>): set<Grouping> {
    set group | group in groups :: GroupingOf(group)
  }

  ghost predicate OneRowAChannel(prices: seq<ChannelPrice>) {
    forall i, j :: 0 <= i < j < |prices| ==> prices[i].channel != prices[j].channel
  }

  ghost predicate OnePlacementAnItem(placements: seq<Placement>) {
    forall i, j :: 0 <= i < j < |placements| ==>
        placements[i].menu != placements[j].menu || placements[i].item != placements[j].item
  }

  /** A menu places an item once, and a placement prices a channel once. */
  ghost predicate ProperPlacements(placements: seq<Placement>) {
    && OnePlacementAnItem(placements)
    && forall i :: 0 <= i < |placements| ==> OneRowAChannel(placements[i].prices)
  }

  /** Ids are unique in each list, and the placements are proper. */
  ghost predicate Proper(a: Authoring) {
    && DistinctIds(a.items, (item: Item) => item.id)
    && DistinctIds(a.menus, (menu: Menu) => menu.id)
    && DistinctIds(a.groups, (group: Group) => group.id)
    && DistinctIds(a.courses, (course: Course) => course.id)
    && ProperPlacements(a.placements)
  }

  /** What is authored is the same, whatever the order of the lists, of a group's attachments and of a
      placement's prices. */
  ghost predicate SameAuthoring(a: Authoring, b: Authoring) {
    && Elements(a.items) == Elements(b.items) && Elements(a.menus) == Elements(b.menus)
         && Elements(a.courses) == Elements(b.courses)
    && Placings(a.placements) == Placings(b.placements)
    && Groupings(a.groups) == Groupings(b.groups)
  }

  // --- Prices and placements -----------------------------------------------------------------------------------------

  lemma {:induction false} NoPrice(prices: seq<ChannelPrice>, channel: SalesChannel)
    requires forall i :: 0 <= i < |prices| ==> prices[i].channel != Known(channel)
    ensures PricesOn(prices, channel) == []
  {
    if prices != [] {
      NoPrice(prices[..|prices| - 1], channel);
    }
  }

  /** A channel with at most one row has at most one price. */
  lemma {:induction false} AtMostOnePrice(prices: seq<ChannelPrice>, channel: SalesChannel)
    requires OneRowAChannel(prices)
    ensures |PricesOn(prices, channel)| <= 1
  {
    if prices != [] {
      var shorter := prices[..|prices| - 1];
      if prices[|prices| - 1].channel == Known(channel) {
        NoPrice(shorter, channel);
      } else {
        AtMostOnePrice(shorter, channel);
      }
    }
  }

  lemma SamePrices(a: seq<ChannelPrice>, b: seq<ChannelPrice>, channel: SalesChannel)
    requires OneRowAChannel(a) && OneRowAChannel(b) && Elements(a) == Elements(b)
    ensures PricesOn(a, channel) == PricesOn(b, channel)
  {
    SameMembers(a, b);
    AtMostOnePrice(a, channel);
    AtMostOnePrice(b, channel);
    forall price ensures price in PricesOn(a, channel) <==> price in PricesOn(b, channel) {
      PricesOnAre(a, channel, price);
      PricesOnAre(b, channel, price);
    }
    SameEmptiness(PricesOn(a, channel), PricesOn(b, channel));
    if PricesOn(a, channel) != [] { assert PricesOn(a, channel)[0] in PricesOn(b, channel); }
  }

  lemma SameOffer(a: Placement, b: Placement)
    requires PlacingOf(a) == PlacingOf(b) && OneRowAChannel(a.prices) && OneRowAChannel(b.prices)
    ensures OfferOf(a) == OfferOf(b)
  {
    forall channel ensures PricesOn(a.prices, channel) == PricesOn(b.prices, channel) {
      SamePrices(a.prices, b.prices, channel);
    }
  }

  /** Where a menu places an item once, that placement is the one found. */
  lemma TheOnePlacement(placements: seq<Placement>, placement: Placement)
    requires OnePlacementAnItem(placements) && placement in placements
    ensures PlacedOn(placements, placement.menu, placement.item) == Some(placement)
  {
    var i :| 0 <= i < |placements| && placements[i] == placement;
    var found := PlacedOn(placements, placement.menu, placement.item);
    assert found.Some?;
    var j :| 0 <= j < |placements| && placements[j] == found.value;
  }

  /** What a lookup finds, its price rows in no order. */
  function Found(placement: Option<Placement>): Option<Placing> {
    if placement.Some? then Some(PlacingOf(placement.value)) else None
  }

  lemma FoundWithin(a: seq<Placement>, b: seq<Placement>, menu: MenuId, item: ItemId)
    requires OnePlacementAnItem(b) && Placings(a) == Placings(b) && PlacedOn(a, menu, item).Some?
    ensures Found(PlacedOn(b, menu, item)) == Found(PlacedOn(a, menu, item))
  {
    var placement := PlacedOn(a, menu, item).value;
    assert PlacingOf(placement) in Placings(b);
    var y :| y in b && PlacingOf(y) == PlacingOf(placement);
    TheOnePlacement(b, y);
  }

  lemma {:induction false} SameNearest(chain: seq<MenuId>, a: seq<Placement>, b: seq<Placement>, item: ItemId)
    requires OnePlacementAnItem(a) && OnePlacementAnItem(b) && Placings(a) == Placings(b)
    ensures Found(Nearest(chain, a, item)) == Found(Nearest(chain, b, item))
  {
    if chain != [] {
      SameNearest(chain[..|chain| - 1], a, b, item);
      var menu := chain[|chain| - 1];
      if PlacedOn(a, menu, item).Some? { FoundWithin(a, b, menu, item); }
      if PlacedOn(b, menu, item).Some? { FoundWithin(b, a, menu, item); }
    }
  }

  lemma {:induction false} NearestProper(chain: seq<MenuId>, placements: seq<Placement>, item: ItemId)
    requires ProperPlacements(placements)
    ensures var found := Nearest(chain, placements, item); found.Some? ==> OneRowAChannel(found.value.prices)
  {
    if chain != [] {
      NearestProper(chain[..|chain| - 1], placements, item);
      var found := PlacedOn(placements, chain[|chain| - 1], item);
      if found.Some? {
        var i :| 0 <= i < |placements| && placements[i] == found.value;
      }
    }
  }

  lemma SameOfferAt(chain: seq<MenuId>, a: seq<Placement>, b: seq<Placement>, item: ItemId)
    requires ProperPlacements(a) && ProperPlacements(b) && Placings(a) == Placings(b)
    ensures item in Resolved(chain, a) <==> item in Resolved(chain, b)
    ensures item in Resolved(chain, a) ==> OfferOf(Resolved(chain, a)[item]) == OfferOf(Resolved(chain, b)[item])
  {
    SameNearest(chain, a, b, item);
    NearestProper(chain, a, item);
    NearestProper(chain, b, item);
    if item in Resolved(chain, a) { SameOffer(Resolved(chain, a)[item], Resolved(chain, b)[item]); }
  }

  lemma SameOffers(chain: seq<MenuId>, a: seq<Placement>, b: seq<Placement>)
    requires ProperPlacements(a) && ProperPlacements(b) && Placings(a) == Placings(b)
    ensures OffersOf(Resolved(chain, a)) == OffersOf(Resolved(chain, b))
  {
    var left, right := OffersOf(Resolved(chain, a)), OffersOf(Resolved(chain, b));
    forall item: ItemId ensures (item in left <==> item in right) && (item in left ==> left[item] == right[item]) {
      SameOfferAt(chain, a, b, item);
    }
  }

  // --- Groups ------------------------------------------------------------------------------------

  lemma AttachedWithin(a: seq<Group>, b: seq<Group>, item: ItemId)
    requires Groupings(a) <= Groupings(b)
    ensures AttachedTo(a, item) <= AttachedTo(b, item)
  {
    forall id | id in AttachedTo(a, item) ensures id in AttachedTo(b, item) {
      var i :| 0 <= i < |a| && !a[i].archived && item in a[i].attached && a[i].id == id;
      assert GroupingOf(a[i]) in Groupings(b);
      var y :| y in b && GroupingOf(y) == GroupingOf(a[i]);
      var j :| 0 <= j < |b| && b[j] == y;
      assert item in Elements(y.attached);
    }
  }

  lemma SameAttachments(a: seq<Group>, b: seq<Group>)
    requires Groupings(a) == Groupings(b)
    ensures Attachments(a) == Attachments(b)
  {
    forall item: ItemId
      ensures item in Attachments(a) <==> item in Attachments(b)
      ensures item in Attachments(a) ==> Attachments(a)[item] == Attachments(b)[item]
    {
      AttachedWithin(a, b, item);
      AttachedWithin(b, a, item);
      AttachmentsAre(a, item);
      AttachmentsAre(b, item);
    }
  }

  /** An active group's rule is what its id is mapped to. */
  lemma RuleOf(groups: seq<Group>, group: Group)
    requires DistinctIds(groups, (group: Group) => group.id) && group in groups && !group.archived
    ensures group.id in RulesOf(groups) && RulesOf(groups)[group.id] == group.rule
  {
    var id, keep := (group: Group) => group.id, (group: Group) => !group.archived;
    var active := Filter(groups, keep);
    assert group in active;
    FilterDistinct(groups, keep, id);
    SameById(active, id, group, Index(active, id)[group.id]);
  }

  lemma RulesWithin(a: seq<Group>, b: seq<Group>)
    requires Groupings(a) <= Groupings(b) && DistinctIds(b, (group: Group) => group.id)
    ensures forall id :: id in RulesOf(a) ==> id in RulesOf(b) && RulesOf(a)[id] == RulesOf(b)[id]
  {
    forall id | id in RulesOf(a) ensures id in RulesOf(b) && RulesOf(a)[id] == RulesOf(b)[id] {
      var group := Index(Filter(a, (group: Group) => !group.archived), (group: Group) => group.id)[id];
      assert GroupingOf(group) in Groupings(b);
      var y :| y in b && GroupingOf(y) == GroupingOf(group);
      RuleOf(b, y);
    }
  }

  lemma SameRules(a: seq<Group>, b: seq<Group>)
    requires Groupings(a) == Groupings(b)
    requires DistinctIds(a, (group: Group) => group.id) && DistinctIds(b, (group: Group) => group.id)
    ensures RulesOf(a) == RulesOf(b)
  {
    RulesWithin(a, b);
    RulesWithin(b, a);
  }

  lemma SameCourses(a: seq<Course>, b: seq<Course>)
    requires Elements(a) == Elements(b)
    requires DistinctIds(a, (course: Course) => course.id) && DistinctIds(b, (course: Course) => course.id)
    ensures CoursesOf(a) == CoursesOf(b)
  {
    var id, keep := (course: Course) => course.id, (course: Course) => !course.archived;
    SameMembers(a, b);
    FilterDistinct(a, keep, id);
    FilterDistinct(b, keep, id);
    IndexReordered(Filter(a, keep), Filter(b, keep), id);
  }

  // --- The whole book ----------------------------------------------------------------------------

  lemma SameIndex<T(!new)>(a: seq<T>, b: seq<T>, id: T -> nat)
    requires Elements(a) == Elements(b) && DistinctIds(a, id) && DistinctIds(b, id)
    ensures Index(a, id) == Index(b, id)
  {
    SameMembers(a, b);
    IndexReordered(a, b, id);
  }

  /** However the same authoring is listed, it compiles to the same book, or is refused for the same reason. */
  lemma CompilesTheSame(a: Authoring, b: Authoring, root: MenuId)
    requires Proper(a) && Proper(b) && SameAuthoring(a, b)
    ensures Compiled(a, root) == Compiled(b, root)
  {
    SameIndex(a.items, b.items, (item: Item) => item.id);
    SameAttachments(a.groups, b.groups);
    SameRules(a.groups, b.groups);
    SameCourses(a.courses, b.courses);
    assert ContextOf(a) == ContextOf(b);
    SameIndex(a.menus, b.menus, (menu: Menu) => menu.id);
    var chain := ChainOf(Index(a.menus, (menu: Menu) => menu.id), root);
    if chain.Ok? {
      SameOffers(chain.value, a.placements, b.placements);
    }
  }
}

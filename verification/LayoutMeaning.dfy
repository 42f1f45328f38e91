/** What a compiled layout says: every usable button once, in its own slot, and in what order. */
module LayoutMeaning {
  import opened Outcomes
  import opened Lists
  import opened Grouping
  import opened Catalog
  import opened Layouts

  // --- Where a button appears --------------------------------------------------------------------

  /** A button in a book: its channel, its category, its sub-category if any, and what is shown. */
  datatype Spot = Spot(channel: SalesChannel, category: CategoryId, sub: Option<SubcategoryId>, button: DisplayButton)

  function SpotOf(button: Button): Spot {
    Spot(ChannelOf(button), button.category, button.sub, ShownButton(button))
  }

  function In(channel: SalesChannel, category: CategoryId, sub: Option<SubcategoryId>): DisplayButton -> Spot {
    (button: DisplayButton) => Spot(channel, category, sub, button)
  }

  function SubSpots(channel: SalesChannel, category: CategoryId): DisplaySubcategory -> multiset<Spot> {
    (sub: DisplaySubcategory) => Tally(sub.buttons, In(channel, category, Some(sub.id)))
  }

  function CategorySpots(channel: SalesChannel): DisplayCategory -> multiset<Spot> {
    (category: DisplayCategory) =>
      Tally(category.buttons, In(channel, category.id, None)) + TallyOver(category.subs, SubSpots(channel, category.id))
  }

  function RowSpots(row: (SalesChannel, Plan)): multiset<Spot> {
    TallyOver(row.1, CategorySpots(row.0))
  }

  /** Every button a book shows, with where it shows it. */
  function Spots(book: LayoutBook): multiset<Spot> {
    TallyOver(book, RowSpots)
  }

  // --- Conservation ------------------------------------------------------------------------------

  lemma {:induction false} ShownSpots(group: seq<Button>, channel: SalesChannel, category: CategoryId,
                                      sub: Option<SubcategoryId>)
    requires forall button :: button in group ==> SpotOf(button) == In(channel, category, sub)(ShownButton(button))
    ensures Tally(Shown(group), In(channel, category, sub)) == Tally(group, SpotOf)
  {
    if group != [] {
      var shorter := group[..|group| - 1];
      ShownSpots(shorter, channel, category, sub);
      assert Shown(group)[..|group| - 1] == Shown(shorter);
      assert group[|group| - 1] in group;
    }
  }

  /** Tallies over two lists that match term by term agree. */
  lemma {:induction false} TallyMatched<J, K, P>(left: seq<J>, of: J -> multiset<P>, right: seq<K>,
                                                 under: K -> multiset<P>)
    requires |left| == |right| && forall i :: 0 <= i < |left| ==> of(left[i]) == under(right[i])
    ensures TallyOver(left, of) == TallyOver(right, under)
  {
    if left != [] {
      TallyMatched(left[..|left| - 1], of, right[..|right| - 1], under);
    }
  }

  lemma {:induction false} FilterTwice<T(!new)>(list: seq<T>, first: T -> bool, second: T -> bool, both: T -> bool)
    requires forall x :: x in list ==> (both(x) <==> first(x) && second(x))
    ensures Filter(Filter(list, first), second) == Filter(list, both)
  {
    if list != [] {
      var shorter, last := list[..|list| - 1], list[|list| - 1];
      assert list == shorter + [last];
      FilterTwice(shorter, first, second, both);
      FilterStep(shorter, last, first);
      FilterStep(shorter, last, both);
      if first(last) { FilterStep(Filter(shorter, first), last, second); }
    }
  }

  /** All the group's buttons are on this channel under this category. */
  ghost predicate Together(group: seq<Button>, channel: SalesChannel, category: CategoryId) {
    forall button :: button in group ==> ChannelOf(button) == channel && button.category == category
  }

  /** A list shown in groups, each group's spots being its own elements', shows that list. */
  lemma GroupedConserves<J>(list: seq<Button>, key: Button -> nat, order: seq<nat>, groups: seq<J>,
                            spots: J -> multiset<Spot>)
    requires order == FirstSeen(list, key) && |groups| == |order|
    requires forall i :: 0 <= i < |order| ==> spots(groups[i]) == Under(list, key, SpotOf)(order[i])
    ensures TallyOver(groups, spots) == Tally(list, SpotOf)
  {
    TallyMatched(groups, spots, order, Under(list, key, SpotOf));
    Partitioned(list, key, SpotOf, order);
  }

  lemma NestedInSub(group: seq<Button>, sub: SubcategoryId)
    ensures Filter(Nested(group), Has(SubKey, sub)) == InSub(group, sub)
  {
    assert forall button :: Has(SubKey, sub)(button) <==> SubKey(button) == sub;
    assert forall button :: Has(SubOf, Some(sub))(button) <==> button.sub == Some(sub);
    FilterTwice(group, IsNested, Has(SubKey, sub), Has(SubOf, Some(sub)));
  }

  lemma SubConserves(t: Taxonomy, group: seq<Button>, channel: SalesChannel, category: CategoryId, sub: SubcategoryId)
    requires Together(group, channel, category)
    ensures SubSpots(channel, category)(SubNamed(t, sub, InSub(group, sub))) ==
            Under(Nested(group), SubKey, SpotOf)(sub)
  {
    NestedInSub(group, sub);
    forall button ensures button in InSub(group, sub) <==> button in group && button.sub == Some(sub) {
      GroupsAre(group, button);
    }
    ShownSpots(InSub(group, sub), channel, category, Some(sub));
  }

  lemma SubsConserve(t: Taxonomy, group: seq<Button>, channel: SalesChannel, category: CategoryId)
    requires Together(group, channel, category)
    ensures TallyOver(SubsOf(t, FirstSeen(Nested(group), SubKey), group), SubSpots(channel, category)) ==
            Tally(Nested(group), SpotOf)
  {
    var order := FirstSeen(Nested(group), SubKey);
    var subs, spots := SubsOf(t, order, group), SubSpots(channel, category);
    forall i | 0 <= i < |order| ensures spots(subs[i]) == Under(Nested(group), SubKey, SpotOf)(order[i]) {
      SubConserves(t, group, channel, category, order[i]);
    }
    GroupedConserves(Nested(group), SubKey, order, subs, spots);
  }

  lemma DirectConserves(group: seq<Button>, channel: SalesChannel, category: CategoryId)
    requires Together(group, channel, category)
    ensures Tally(Shown(Direct(group)), In(channel, category, None)) == Tally(Direct(group), SpotOf)
  {
    forall button ensures button in Direct(group) <==> button in group && button.sub.None? { GroupsAre(group, button); }
    ShownSpots(Direct(group), channel, category, None);
  }

  lemma DirectOrNested(group: seq<Button>)
    ensures Tally(group, SpotOf) == Tally(Direct(group), SpotOf) + Tally(Nested(group), SpotOf)
  {
    var all := (button: Button) => true;
    forall button ensures Has(SubOf, None)(button) == (SubOf(button) == None) { }
    TallySplit(group, SpotOf, Has(SubOf, None), IsNested, all);
    FilterAll(group, all);
  }

  lemma CategoryConserves(t: Taxonomy, group: seq<Button>, channel: SalesChannel, category: CategoryId)
    requires Together(group, channel, category)
    ensures CategorySpots(channel)(CategoryOf(t, category, group)) == Tally(group, SpotOf)
  {
    SubsConserve(t, group, channel, category);
    DirectConserves(group, channel, category);
    DirectOrNested(group);
  }

  lemma GroupConserves(t: Taxonomy, sorted: seq<Button>, channel: SalesChannel, category: CategoryId)
    requires forall button :: button in sorted ==> ChannelOf(button) == channel
    ensures CategorySpots(channel)(CategoryOf(t, category, InCategory(sorted, category))) ==
            Under(sorted, CategoryKey, SpotOf)(category)
  {
    forall button ensures button in InCategory(sorted, category) <==> button in sorted && button.category == category {
      GroupsAre(sorted, button);
    }
    CategoryConserves(t, InCategory(sorted, category), channel, category);
  }

  lemma SortedConserves(t: Taxonomy, sorted: seq<Button>, channel: SalesChannel)
    requires forall button :: button in sorted ==> ChannelOf(button) == channel
    ensures TallyOver(CategoriesOf(t, FirstSeen(sorted, CategoryKey), sorted), CategorySpots(channel)) ==
            Tally(sorted, SpotOf)
  {
    var order := FirstSeen(sorted, CategoryKey);
    var plan, spots := CategoriesOf(t, order, sorted), CategorySpots(channel);
    forall i | 0 <= i < |order| ensures spots(plan[i]) == Under(sorted, CategoryKey, SpotOf)(order[i]) {
      GroupConserves(t, sorted, channel, order[i]);
    }
    GroupedConserves(sorted, CategoryKey, order, plan, spots);
  }

  lemma PlanConserves(t: Taxonomy, buttons: seq<Button>, channel: SalesChannel)
    requires forall button :: button in buttons ==> ChannelOf(button) == channel
    ensures TallyOver(PlanOf(t, buttons), CategorySpots(channel)) == Tally(buttons, SpotOf)
  {
    var sorted := StableSort(buttons, ButtonLeq);
    forall button | button in sorted ensures ChannelOf(button) == channel { SortedMembers(buttons, ButtonLeq, button); }
    SortedConserves(t, sorted, channel);
    TallySorted(buttons, ButtonLeq, SpotOf);
  }

  lemma {:induction false} RowsConserve(buttonsOn: SalesChannel -> seq<Button>, planOf: seq<Button> -> Plan,
                                        of: SalesChannel -> multiset<Spot>, channels: seq<SalesChannel>)
    requires forall channel :: RowSpots((channel, planOf(buttonsOn(channel)))) == of(channel)
    requires forall channel :: buttonsOn(channel) == [] ==> of(channel) == multiset{}
    ensures TallyOver(BookFor(buttonsOn, planOf, channels), RowSpots) == TallyOver(channels, of)
  {
    if channels != [] {
      var shorter, last := channels[..|channels| - 1], channels[|channels| - 1];
      RowsConserve(buttonsOn, planOf, of, shorter);
      var earlier := BookFor(buttonsOn, planOf, shorter);
      assert (earlier + [(last, planOf(buttonsOn(last)))])[..|earlier|] == earlier;
    }
  }

  lemma ChannelConserves(t: Taxonomy, buttons: seq<Button>, channel: SalesChannel)
    ensures RowSpots((channel, PlanBy(t)(OnEach(t, buttons)(channel)))) ==
            Under(Filter(buttons, UsableIn(t)), ChannelOf, SpotOf)(channel)
  {
    PlanConserves(t, ButtonsOn(t, buttons, channel), channel);
    FilterTwice(buttons, UsableIn(t), Has(ChannelOf, channel), UsableOn(t, channel));
  }

  lemma NothingOn(t: Taxonomy, buttons: seq<Button>, channel: SalesChannel)
    requires OnEach(t, buttons)(channel) == []
    ensures Under(Filter(buttons, UsableIn(t)), ChannelOf, SpotOf)(channel) == multiset{}
  {
    ChannelConserves(t, buttons, channel);
    PlanConserves(t, [], channel);
  }

  lemma ChannelsConserve(t: Taxonomy, buttons: seq<Button>)
    ensures Spots(BookOf(t, buttons)) == TallyOver(CHANNELS, Under(Filter(buttons, UsableIn(t)), ChannelOf, SpotOf))
  {
    var of := Under(Filter(buttons, UsableIn(t)), ChannelOf, SpotOf);
    var buttonsOn, planOf := OnEach(t, buttons), PlanBy(t);
    forall channel ensures RowSpots((channel, planOf(buttonsOn(channel)))) == of(channel) {
      ChannelConserves(t, buttons, channel);
    }
    forall channel | buttonsOn(channel) == [] ensures of(channel) == multiset{} { NothingOn(t, buttons, channel); }
    RowsConserve(buttonsOn, planOf, of, CHANNELS);
  }

  lemma ByChannel(usable: seq<Button>)
    requires forall button :: button in usable ==> Sellable(button.channel).Some?
    ensures TallyOver(CHANNELS, Under(usable, ChannelOf, SpotOf)) == Tally(usable, SpotOf)
  {
    forall button | button in usable ensures ChannelOf(button) in CHANNELS { SellableChannels(ChannelOf(button)); }
    Partitioned(usable, ChannelOf, SpotOf, CHANNELS);
  }

  /** The compiled layout shows every usable button exactly once, in its own channel, category and
      sub-category, and nothing else. */
  lemma LayoutConserves(t: Taxonomy, buttons: seq<Button>)
    ensures Spots(BookOf(t, buttons)) == Tally(Filter(buttons, UsableIn(t)), SpotOf)
  {
    ChannelsConserve(t, buttons);
    ByChannel(Filter(buttons, UsableIn(t)));
  }

  // --- Order -------------------------------------------------------------------------------------

  /** What a category of one channel's plan shows: in each slot the slot's own buttons by sort then item,
      those that tie in the order authored; under each sub-category that has a button, once. */
  ghost predicate CategoryShows(buttons: seq<Button>, category: DisplayCategory) {
    var group := InCategory(buttons, category.id);
    && category.buttons == Shown(StableSort(Direct(group), ButtonLeq))
    && (forall i :: 0 <= i < |category.subs| ==>
          category.subs[i].buttons == Shown(StableSort(InSub(group, category.subs[i].id), ButtonLeq)))
  }

  lemma CategorySlots(t: Taxonomy, buttons: seq<Button>, category: CategoryId)
    ensures CategoryShows(buttons, CategoryOf(t, category, InCategory(StableSort(buttons, ButtonLeq), category)))
  {
    ButtonOrder();
    var group := InCategory(buttons, category);
    FilterSorted(buttons, ButtonLeq, Has(CategoryKey, category));
    var sorted := InCategory(StableSort(buttons, ButtonLeq), category);
    assert sorted == StableSort(group, ButtonLeq);
    FilterSorted(group, ButtonLeq, Has(SubOf, None));
    var order := FirstSeen(Nested(sorted), SubKey);
    forall i | 0 <= i < |order| ensures InSub(sorted, order[i]) == StableSort(InSub(group, order[i]), ButtonLeq) {
      FilterSorted(group, ButtonLeq, Has(SubOf, Some(order[i])));
    }
  }

  /** Every slot of a plan shows its own buttons in order. */
  lemma SlotsInOrder(t: Taxonomy, buttons: seq<Button>)
    ensures forall i :: 0 <= i < |PlanOf(t, buttons)| ==> CategoryShows(buttons, PlanOf(t, buttons)[i])
  {
    var order := FirstSeen(StableSort(buttons, ButtonLeq), CategoryKey);
    forall i | 0 <= i < |order| ensures CategoryShows(buttons, PlanOf(t, buttons)[i]) {
      CategorySlots(t, buttons, order[i]);
    }
  }

  /** Some button of category `earlier` comes no later, by sort then item, than any of category `later`. */
  ghost predicate CategoryLeads(buttons: seq<Button>, earlier: CategoryId, later: CategoryId) {
    exists first :: Leads(buttons, CategoryKey, ButtonLeq, first, earlier, later)
  }

  ghost predicate SubLeads(group: seq<Button>, earlier: SubcategoryId, later: SubcategoryId) {
    exists first :: Leads(group, SubKey, ButtonLeq, first, earlier, later)
  }

  lemma LeadsUnsorted(buttons: seq<Button>, key: Button -> nat, first: Button, earlier: nat, later: nat)
    requires Leads(StableSort(buttons, ButtonLeq), key, ButtonLeq, first, earlier, later)
    ensures Leads(buttons, key, ButtonLeq, first, earlier, later)
  {
    forall x ensures x in StableSort(buttons, ButtonLeq) <==> x in buttons { SortedMembers(buttons, ButtonLeq, x); }
  }

  ghost predicate ListsCategory(plan: Plan, id: CategoryId) {
    exists i :: 0 <= i < |plan| && plan[i].id == id
  }

  ghost predicate HasCategory(buttons: seq<Button>, id: CategoryId) {
    exists button :: button in buttons && button.category == id
  }

  lemma CategoryListed(t: Taxonomy, buttons: seq<Button>, id: CategoryId)
    ensures ListsCategory(PlanOf(t, buttons), id) <==> HasCategory(buttons, id)
  {
    hide FirstSeen, StableSort, InCategory, CategoryOf;
    var sorted, plan := StableSort(buttons, ButtonLeq), PlanOf(t, buttons);
    var order := FirstSeen(sorted, CategoryKey);
    forall i | 0 <= i < |plan| ensures plan[i].id == order[i] {
      CategoryNamed(t, order[i], InCategory(sorted, order[i]));
    }
    if i :| 0 <= i < |plan| && plan[i].id == id {
      assert order[i] in order;
      var button :| button in sorted && CategoryKey(button) == id;
      SortedMembers(buttons, ButtonLeq, button);
    }
    if button :| button in buttons && button.category == id {
      SortedMembers(buttons, ButtonLeq, button);
      assert CategoryKey(button) in order;
      var i :| 0 <= i < |order| && order[i] == id;
      assert plan[i].id == id;
    }
  }

  lemma CategoryNamed(t: Taxonomy, category: CategoryId, group: seq<Button>)
    ensures CategoryOf(t, category, group).id == category
  {
  }

  /** A plan's categories are exactly those of its buttons, each once, in the order of their first buttons. */
  ghost predicate CategoriesOrdered(buttons: seq<Button>, plan: Plan) {
    && (forall i, j :: 0 <= i < j < |plan| ==>
         plan[i].id != plan[j].id && CategoryLeads(buttons, plan[i].id, plan[j].id))
    && forall id :: ListsCategory(plan, id) <==> HasCategory(buttons, id)
  }

  lemma CategoriesInOrder(t: Taxonomy, buttons: seq<Button>)
    ensures CategoriesOrdered(buttons, PlanOf(t, buttons))
  {
    hide ListsCategory, HasCategory;
    var sorted, plan := StableSort(buttons, ButtonLeq), PlanOf(t, buttons);
    var order := FirstSeen(sorted, CategoryKey);
    ButtonOrder();
    StableSortSorts(buttons, ButtonLeq);
    forall i, j | 0 <= i < j < |plan|
      ensures plan[i].id != plan[j].id && CategoryLeads(buttons, plan[i].id, plan[j].id)
    {
      var first := FirstSeenLeads(sorted, CategoryKey, ButtonLeq, i, j);
      LeadsUnsorted(buttons, CategoryKey, first, order[i], order[j]);
      assert order[i] != order[j];
    }
    forall id ensures ListsCategory(plan, id) <==> HasCategory(buttons, id) { CategoryListed(t, buttons, id); }
  }

  lemma {:induction false} FilterKeepsSorted(list: seq<Button>, keep: Button -> bool)
    requires Sorted(list, ButtonLeq)
    ensures Sorted(Filter(list, keep), ButtonLeq)
  {
    if list != [] {
      var shorter, last := list[..|list| - 1], list[|list| - 1];
      FilterKeepsSorted(shorter, keep);
      var kept := Filter(shorter, keep);
      forall i | 0 <= i < |kept| ensures ButtonLeq(kept[i], last) {
        assert kept[i] in shorter;
        var j :| 0 <= j < |shorter| && shorter[j] == kept[i];
        assert ButtonLeq(list[j], list[|list| - 1]);
      }
    }
  }

  ghost predicate ListsSub(subs: seq<DisplaySubcategory>, id: SubcategoryId) {
    exists i :: 0 <= i < |subs| && subs[i].id == id
  }

  ghost predicate HasSub(group: seq<Button>, id: SubcategoryId) {
    exists button :: button in group && button.sub == Some(id)
  }

  /** Sub-categories are exactly those of the group's buttons, each once, in the order of their first buttons. */
  ghost predicate SubsOrdered(group: seq<Button>, subs: seq<DisplaySubcategory>) {
    && (forall i, j :: 0 <= i < j < |subs| ==>
         subs[i].id != subs[j].id && SubLeads(Nested(group), subs[i].id, subs[j].id))
    && forall id :: ListsSub(subs, id) <==> HasSub(group, id)
  }

  lemma SubListed(t: Taxonomy, category: CategoryId, group: seq<Button>, id: SubcategoryId)
    ensures ListsSub(CategoryOf(t, category, group).subs, id) <==> HasSub(group, id)
  {
    hide FirstSeen;
    var subs, order := CategoryOf(t, category, group).subs, FirstSeen(Nested(group), SubKey);
    assert forall i :: 0 <= i < |order| ==> subs[i].id == order[i];
    if i :| 0 <= i < |subs| && subs[i].id == id {
      assert order[i] in order;
      var button :| button in Nested(group) && SubKey(button) == id;
      assert button in group && button.sub == Some(id);
    }
    if button :| button in group && button.sub == Some(id) {
      assert button in Nested(group) && SubKey(button) in order;
      var i :| 0 <= i < |order| && order[i] == id;
      assert subs[i].id == id;
    }
  }

  lemma SubsInOrder(t: Taxonomy, category: CategoryId, group: seq<Button>)
    requires Sorted(group, ButtonLeq)
    ensures SubsOrdered(group, CategoryOf(t, category, group).subs)
  {
    hide ListsSub, HasSub;
    var subs := CategoryOf(t, category, group).subs;
    var order := FirstSeen(Nested(group), SubKey);
    FilterKeepsSorted(group, IsNested);
    forall i, j | 0 <= i < j < |subs|
      ensures subs[i].id != subs[j].id && SubLeads(Nested(group), subs[i].id, subs[j].id)
    {
      var first := FirstSeenLeads(Nested(group), SubKey, ButtonLeq, i, j);
      assert order[i] != order[j];
    }
    forall id ensures ListsSub(subs, id) <==> HasSub(group, id) { SubListed(t, category, group, id); }
  }

  /** So are the sub-categories of every category of a plan. */
  lemma PlanSubsInOrder(t: Taxonomy, buttons: seq<Button>)
    ensures var plan := PlanOf(t, buttons);
            forall i :: 0 <= i < |plan| ==>
                SubsOrdered(StableSort(InCategory(buttons, plan[i].id), ButtonLeq), plan[i].subs)
  {
    var sorted, plan := StableSort(buttons, ButtonLeq), PlanOf(t, buttons);
    var order := FirstSeen(sorted, CategoryKey);
    ButtonOrder();
    forall i | 0 <= i < |plan|
      ensures SubsOrdered(StableSort(InCategory(buttons, plan[i].id), ButtonLeq), plan[i].subs)
    {
      FilterSorted(buttons, ButtonLeq, Has(CategoryKey, order[i]));
      StableSortSorts(InCategory(buttons, order[i]), ButtonLeq);
      SubsInOrder(t, order[i], InCategory(sorted, order[i]));
    }
  }

  lemma {:induction false} RowsFor(buttonsOn: SalesChannel -> seq<Button>, planOf: seq<Button> -> Plan,
                                   channels: seq<SalesChannel>)
    ensures var book := BookFor(buttonsOn, planOf, channels);
            && seq(|book|, k requires 0 <= k < |book| => book[k].0) ==
                 Filter(channels, (channel: SalesChannel) => buttonsOn(channel) != [])
            && forall k :: 0 <= k < |book| ==> book[k].1 == planOf(buttonsOn(book[k].0))
  {
    if channels != [] {
      RowsFor(buttonsOn, planOf, channels[..|channels| - 1]);
    }
  }

  /** A plan shows `buttons` in order: its categories, their sub-categories, and the buttons of every slot. */
  ghost predicate InDisplayOrder(buttons: seq<Button>, plan: Plan) {
    && CategoriesOrdered(buttons, plan)
    && forall i :: 0 <= i < |plan| ==>
         && SubsOrdered(StableSort(InCategory(buttons, plan[i].id), ButtonLeq), plan[i].subs)
         && CategoryShows(buttons, plan[i])
  }

  lemma PlanInDisplayOrder(t: Taxonomy, buttons: seq<Button>)
    ensures InDisplayOrder(buttons, PlanOf(t, buttons))
  {
    hide PlanOf, CategoriesOrdered, SubsOrdered, CategoryShows;
    CategoriesInOrder(t, buttons);
    PlanSubsInOrder(t, buttons);
    SlotsInOrder(t, buttons);
  }

  lemma {:induction false} FilterAlike<T(!new)>(list: seq<T>, keep: T -> bool, same: T -> bool)
    requires forall i :: 0 <= i < |list| ==> keep(list[i]) == same(list[i])
    ensures Filter(list, keep) == Filter(list, same)
  {
    if list != [] {
      FilterAlike(list[..|list| - 1], keep, same);
    }
  }

  /** The compiled book has a row for exactly the channels with a usable button, in wire order, and each shows
      the channel's usable buttons in order. */
  lemma LayoutRows(t: Taxonomy, buttons: seq<Button>)
    ensures var book := BookOf(t, buttons);
            && seq(|book|, k requires 0 <= k < |book| => book[k].0) ==
                 Filter(CHANNELS, (channel: SalesChannel) => ButtonsOn(t, buttons, channel) != [])
            && forall k :: 0 <= k < |book| ==> InDisplayOrder(ButtonsOn(t, buttons, book[k].0), book[k].1)
  {
    hide InDisplayOrder, PlanOf, ButtonsOn;
    RowsFor(OnEach(t, buttons), PlanBy(t), CHANNELS);
    var book := BookOf(t, buttons);
    FilterAlike(CHANNELS, (channel: SalesChannel) => OnEach(t, buttons)(channel) != [],
                (channel: SalesChannel) => ButtonsOn(t, buttons, channel) != []);
    forall k | 0 <= k < |book| ensures InDisplayOrder(ButtonsOn(t, buttons, book[k].0), book[k].1) {
      PlanInDisplayOrder(t, ButtonsOn(t, buttons, book[k].0));
    }
  }
}

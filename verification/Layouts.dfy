/** The layout compiler: buttons grouped by channel, display category and sub-category. */
module Layouts {
  import opened Outcomes
  import opened Lists
  import opened Grouping
  import opened Catalog

  type CategoryId = nat
  type SubcategoryId = nat

  datatype GridPosition = GridPosition(row: nat, column: nat)

  // --- Authoring ----------------------------------------------------------------------------------------------------

  datatype Category = Category(id: CategoryId, name: string, archived: bool)

  datatype Subcategory = Subcategory(id: SubcategoryId, category: CategoryId, name: string, archived: bool)

  datatype Button = Button(channel: OpenChannel, category: CategoryId, sub: Option<SubcategoryId>, item: ItemId,
                           caption: string, position: Option<GridPosition>, sort: int)

  // --- The compiled book --------------------------------------------------------------------------------------------

  datatype DisplayButton = DisplayButton(item: ItemId, caption: string, position: Option<GridPosition>)

  datatype DisplaySubcategory = DisplaySubcategory(id: SubcategoryId, name: string, buttons: seq<DisplayButton>)

  datatype DisplayCategory = DisplayCategory(id: CategoryId, name: string, buttons: seq<DisplayButton>,
                                             subs: seq<DisplaySubcategory>)

  type Plan = seq<DisplayCategory>

  type LayoutBook = seq<(SalesChannel, Plan)>

  // --- What is usable -----------------------------------------------------------------------------------------------

  /** The active categories and sub-categories. */
  datatype Taxonomy = Taxonomy(categories: map<CategoryId, Category>, subs: map<SubcategoryId, Subcategory>)

  function TaxonomyOf(categories: seq<Category>, subs: seq<Subcategory>): Taxonomy {
    Taxonomy(Index(Filter(categories, (category: Category) => !category.archived), (category: Category) => category.id),
             Index(Filter(subs, (sub: Subcategory) => !sub.archived), (sub: Subcategory) => sub.id))
  }

  /** The button is on a channel sold on, under an active category, and if under a sub-category then one
      that is active and of that category. */
  predicate Usable(t: Taxonomy, button: Button) {
    && Sellable(button.channel).Some?
    && button.category in t.categories
    && (button.sub.Some? ==> button.sub.value in t.subs && t.subs[button.sub.value].category == button.category)
  }

  function ChannelOf(button: Button): SalesChannel {
    if Sellable(button.channel).Some? then Sellable(button.channel).value else Unspecified
  }

  function UsableIn(t: Taxonomy): Button -> bool {
    (button: Button) => Usable(t, button)
  }

  function UsableOn(t: Taxonomy, channel: SalesChannel): Button -> bool {
    (button: Button) => Usable(t, button) && ChannelOf(button) == channel
  }

  function ButtonsOn(t: Taxonomy, buttons: seq<Button>, channel: SalesChannel): seq<Button> {
    Filter(buttons, UsableOn(t, channel))
  }

  // --- One channel's plan -------------------------------------------------------------------------------------------

  predicate ButtonLeq(a: Button, b: Button) {
    a.sort < b.sort || (a.sort == b.sort && a.item <= b.item)
  }

  lemma ButtonOrder()
    ensures TotalPreorder(ButtonLeq)
  {
  }

  function ShownButton(button: Button): DisplayButton {
    DisplayButton(button.item, button.caption, button.position)
  }

  function Shown(buttons: seq<Button>): (shown: seq<DisplayButton>)
    ensures |shown| == |buttons| && forall i :: 0 <= i < |buttons| ==> shown[i] == ShownButton(buttons[i])
  {
    seq(|buttons|, i requires 0 <= i < |buttons| => ShownButton(buttons[i]))
  }

  function CategoryKey(button: Button): CategoryId {
    button.category
  }

  function SubKey(button: Button): SubcategoryId {
    if button.sub.Some? then button.sub.value else 0
  }

  function SubOf(button: Button): Option<SubcategoryId> {
    button.sub
  }

  predicate IsNested(button: Button) {
    button.sub.Some?
  }

  function Direct(group: seq<Button>): seq<Button> {
    Filter(group, Has(SubOf, None))
  }

  function Nested(group: seq<Button>): seq<Button> {
    Filter(group, IsNested)
  }

  function InSub(group: seq<Button>, sub: SubcategoryId): seq<Button> {
    Filter(group, Has(SubOf, Some(sub)))
  }

  function InCategory(buttons: seq<Button>, category: CategoryId): seq<Button> {
    Filter(buttons, Has(CategoryKey, category))
  }

  lemma GroupsAre(group: seq<Button>, button: Button)
    ensures button in Direct(group) <==> button in group && button.sub.None?
    ensures forall sub: SubcategoryId :: button in InSub(group, sub) <==> button in group && button.sub == Some(sub)
    ensures forall category: CategoryId :: button in InCategory(group, category) <==>
            button in group && button.category == category
  {
    assert Has(SubOf, None)(button) == (SubOf(button) == None);
    forall sub: SubcategoryId ensures Has(SubOf, Some(sub))(button) == (SubOf(button) == Some(sub)) { }
    assert forall category: CategoryId :: Has(CategoryKey, category)(button) <==> button.category == category;
  }

  function SubNamed(t: Taxonomy, sub: SubcategoryId, buttons: seq<Button>): DisplaySubcategory {
    DisplaySubcategory(sub, if sub in t.subs then t.subs[sub].name else "", Shown(buttons))
  }

  function SubsOf(t: Taxonomy, order: seq<SubcategoryId>, group: seq<Button>): (subs: seq<DisplaySubcategory>)
    ensures |subs| == |order| && forall i :: 0 <= i < |order| ==>
            subs[i] == SubNamed(t, order[i], InSub(group, order[i]))
  {
    seq(|order|, i requires 0 <= i < |order| => SubNamed(t, order[i], InSub(group, order[i])))
  }

  /** A category with its buttons: those directly under it, then its sub-categories by first button. */
  function CategoryOf(t: Taxonomy, category: CategoryId, group: seq<Button>): DisplayCategory {
    DisplayCategory(category, if category in t.categories then t.categories[category].name else "",
                    Shown(Direct(group)), SubsOf(t, FirstSeen(Nested(group), SubKey), group))
  }

  function CategoriesOf(t: Taxonomy, order: seq<CategoryId>, sorted: seq<Button>): (plan: Plan)
    ensures |plan| == |order| && forall i :: 0 <= i < |order| ==>
            plan[i] == CategoryOf(t, order[i], InCategory(sorted, order[i]))
  {
    seq(|order|, i requires 0 <= i < |order| => CategoryOf(t, order[i], InCategory(sorted, order[i])))
  }

  /** The buttons by sort then item, under their categories by first button. */
  function PlanOf(t: Taxonomy, buttons: seq<Button>): Plan {
    var sorted := StableSort(buttons, ButtonLeq);
    CategoriesOf(t, FirstSeen(sorted, CategoryKey), sorted)
  }

  // --- The book ----------------------------------------------------------------------------------

  function BookFor(buttonsOn: SalesChannel -> seq<Button>, planOf: seq<Button> -> Plan,
                   channels: seq<SalesChannel>): LayoutBook {
    if channels == [] then []
    else
      var earlier, last := BookFor(buttonsOn, planOf, channels[..|channels| - 1]), channels[|channels| - 1];
      if buttonsOn(last) == [] then earlier else earlier + [(last, planOf(buttonsOn(last)))]
  }

  function OnEach(t: Taxonomy, buttons: seq<Button>): SalesChannel -> seq<Button> {
    (channel: SalesChannel) => ButtonsOn(t, buttons, channel)
  }

  function PlanBy(t: Taxonomy): seq<Button> -> Plan {
    (group: seq<Button>) => PlanOf(t, group)
  }

  function BookOf(t: Taxonomy, buttons: seq<Button>): LayoutBook {
    BookFor(OnEach(t, buttons), PlanBy(t), CHANNELS)
  }

  // --- The compiler's loops -----------------------------------------------------------------------------------------

  function At(byChannel: map<SalesChannel, seq<Button>>, channel: SalesChannel): seq<Button> {
    if channel in byChannel then byChannel[channel] else []
  }

  ghost predicate Holds(t: Taxonomy, buttons: seq<Button>, byChannel: map<SalesChannel, seq<Button>>) {
    && (forall channel :: channel in byChannel ==> byChannel[channel] != [])
    && forall channel :: At(byChannel, channel) == ButtonsOn(t, buttons, channel)
  }

  lemma HoldsStep(t: Taxonomy, buttons: seq<Button>, button: Button, before: map<SalesChannel, seq<Button>>,
                  after: map<SalesChannel, seq<Button>>)
    requires Holds(t, buttons, before)
    requires after == if !Usable(t, button) then before
                      else before[ChannelOf(button) := At(before, ChannelOf(button)) + [button]]
    ensures Holds(t, buttons + [button], after)
  {
    forall channel ensures At(after, channel) == ButtonsOn(t, buttons + [button], channel) {
      FilterStep(buttons, button, UsableOn(t, channel));
      assert At(before, channel) == ButtonsOn(t, buttons, channel);
    }
  }

  /** The channels' buttons with one more, if it is usable. */
  method Place(t: Taxonomy, button: Button, before: map<SalesChannel, seq<Button>>)
    returns (after: map<SalesChannel, seq<Button>>)
    ensures after == if !Usable(t, button) then before
                     else before[ChannelOf(button) := At(before, ChannelOf(button)) + [button]]
  {
    if button.channel.Unrecognised? || button.channel.channel == Unspecified {
      return before;
    }
    if button.category !in t.categories {
      return before;
    }
    if button.sub.Some? && (button.sub.value !in t.subs || t.subs[button.sub.value].category != button.category) {
      return before;
    }
    var channel := button.channel.channel;
    return before[channel := At(before, channel) + [button]];
  }

  /** The usable buttons of each channel, in the order authored. */
  method PlaceableButtons(t: Taxonomy, buttons: seq<Button>) returns (byChannel: map<SalesChannel, seq<Button>>)
    ensures Holds(t, buttons, byChannel)
  {
    byChannel := map[];
    for i := 0 to |buttons|
      invariant Holds(t, buttons[..i], byChannel)
    {
      var after := Place(t, buttons[i], byChannel);
      HoldsStep(t, buttons[..i], buttons[i], byChannel, after);
      assert buttons[..i + 1] == buttons[..i] + [buttons[i]];
      byChannel := after;
    }
    assert buttons[..|buttons|] == buttons;
  }

  /** The categories of buttons, by first button. */
  method CategoryOrder(sorted: seq<Button>) returns (order: seq<CategoryId>)
    ensures order == FirstSeen(sorted, CategoryKey)
  {
    order := [];
    for i := 0 to |sorted|
      invariant order == FirstSeen(sorted[..i], CategoryKey)
    {
      assert sorted[..i + 1][..i] == sorted[..i];
      if sorted[i].category !in order {
        order := order + [sorted[i].category];
      }
    }
    assert sorted[..|sorted|] == sorted;
  }

  /** The sub-categories of a category's buttons, by first button. */
  method SubcategoryOrder(group: seq<Button>) returns (order: seq<SubcategoryId>)
    ensures order == FirstSeen(Nested(group), SubKey)
  {
    order := [];
    for i := 0 to |group|
      invariant order == FirstSeen(Nested(group[..i]), SubKey)
    {
      assert group[..i + 1] == group[..i] + [group[i]];
      FilterStep(group[..i], group[i], IsNested);
      if group[i].sub.Some? {
        assert (Nested(group[..i]) + [group[i]])[..|Nested(group[..i])|] == Nested(group[..i]);
        if group[i].sub.value !in order {
          order := order + [group[i].sub.value];
        }
      }
    }
    assert group[..|group|] == group;
  }

  method DisplayCategoryOf(t: Taxonomy, id: CategoryId, group: seq<Button>) returns (shown: DisplayCategory)
    requires id in t.categories && forall button :: button in group ==> Usable(t, button)
    ensures shown == CategoryOf(t, id, group)
  {
    hide Direct, InSub, Shown, Filter;
    var order := SubcategoryOrder(group);
    var subs := [];
    for i := 0 to |order|
      invariant subs == SubsOf(t, order[..i], group)
    {
      assert order[i] in order;
      if order[i] in t.subs {
        subs := subs + [DisplaySubcategory(order[i], t.subs[order[i]].name, Shown(InSub(group, order[i])))];
      }
    }
    assert order[..|order|] == order;
    shown := DisplayCategory(id, t.categories[id].name, Shown(Direct(group)), subs);
  }

  lemma CategoriesStep(t: Taxonomy, order: seq<CategoryId>, last: CategoryId, sorted: seq<Button>)
    ensures CategoriesOf(t, order + [last], sorted) ==
            CategoriesOf(t, order, sorted) + [CategoryOf(t, last, InCategory(sorted, last))]
  {
    hide CategoryOf, InCategory;
  }

  lemma SortedUsable(t: Taxonomy, buttons: seq<Button>)
    requires forall button :: button in buttons ==> Usable(t, button)
    ensures forall button :: button in StableSort(buttons, ButtonLeq) ==> Usable(t, button)
  {
    hide Usable, StableSort;
    forall button | button in StableSort(buttons, ButtonLeq) ensures Usable(t, button) {
      SortedMembers(buttons, ButtonLeq, button);
    }
  }

  method DisplayPlan(t: Taxonomy, buttons: seq<Button>) returns (plan: Plan)
    requires forall button :: button in buttons ==> Usable(t, button)
    ensures plan == PlanOf(t, buttons)
  {
    SortedUsable(t, buttons);
    var sorted := StableSort(buttons, ButtonLeq);
    plan := PlanSorted(t, sorted);
  }

  method PlanSorted(t: Taxonomy, sorted: seq<Button>) returns (plan: Plan)
    requires forall button :: button in sorted ==> Usable(t, button)
    ensures plan == CategoriesOf(t, FirstSeen(sorted, CategoryKey), sorted)
  {
    hide CategoryOf, FirstSeen, Filter;
    var order := CategoryOrder(sorted);
    plan := [];
    for i := 0 to |order|
      invariant plan == CategoriesOf(t, order[..i], sorted)
    {
      assert order[i] in order && order[..i + 1] == order[..i] + [order[i]];
      CategoriesStep(t, order[..i], order[i], sorted);
      if order[i] in t.categories {
        var shown := DisplayCategoryOf(t, order[i], InCategory(sorted, order[i]));
        plan := plan + [shown];
      }
    }
    assert order[..|order|] == order;
  }

  method PlanEach(t: Taxonomy, byChannel: map<SalesChannel, seq<Button>>, ghost buttonsOn: SalesChannel -> seq<Button>,
                  ghost planOf: seq<Button> -> Plan)
    returns (book: LayoutBook)
    requires forall channel :: At(byChannel, channel) == buttonsOn(channel)
    requires forall channel :: channel in byChannel ==> byChannel[channel] != []
    requires forall channel, button :: button in buttonsOn(channel) ==> Usable(t, button)
    requires forall group :: planOf(group) == PlanOf(t, group)
    ensures book == BookFor(buttonsOn, planOf, CHANNELS)
  {
    hide PlanOf, Usable;
    book := [];
    for i := 0 to |CHANNELS|
      invariant book == BookFor(buttonsOn, planOf, CHANNELS[..i])
    {
      var channel := CHANNELS[i];
      assert CHANNELS[..i + 1][..i] == CHANNELS[..i];
      assert At(byChannel, channel) == buttonsOn(channel);
      if channel in byChannel {
        var plan := DisplayPlan(t, byChannel[channel]);
        assert plan == planOf(buttonsOn(channel));
        book := book + [(channel, plan)];
      }
    }
    assert CHANNELS[..|CHANNELS|] == CHANNELS;
  }

  /** Compiling the layout answers the book the usable buttons make. */
  method CompileLayoutBook(categories: seq<Category>, subs: seq<Subcategory>, buttons: seq<Button>)
    returns (book: LayoutBook)
    ensures book == BookOf(TaxonomyOf(categories, subs), buttons)
  {
    var t := TaxonomyOf(categories, subs);
    var byChannel := PlaceableButtons(t, buttons);
    book := PlanEach(t, byChannel, OnEach(t, buttons), PlanBy(t));
  }
}

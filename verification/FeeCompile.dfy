/** The rule a store is sent: its item categories compiled into the items they hold. */
module FeeCompile {
  import opened Outcomes
  import opened Ordered
  import opened FeeRules

  // --- The items each category holds ------------------------------------------------------------------------------

  datatype CatalogItem = CatalogItem(id: ItemId, category: Option<CategoryId>, active: bool)

  type CategoryItems = map<CategoryId, set<ItemId>>

  function Of(categories: CategoryItems, category: CategoryId): set<ItemId> {
    if category in categories then categories[category] else {}
  }

  /** An active item of the catalog is in this category. */
  predicate InCategory(catalog: seq<CatalogItem>, category: CategoryId, item: ItemId) {
    CatalogItem(item, Some(category), true) in catalog
  }

  method FromCatalog(catalog: seq<CatalogItem>) returns (categories: CategoryItems)
    ensures forall category: CategoryId, item: ItemId :: item in Of(categories, category) <==>
            InCategory(catalog, category, item)
  {
    categories := map[];
    for i := 0 to |catalog|
      invariant forall category: CategoryId, item: ItemId :: item in Of(categories, category) <==>
          InCategory(catalog[..i], category, item)
    {
      var next := catalog[i];
      assert catalog[..i + 1] == catalog[..i] + [next];
      forall category: CategoryId, item: ItemId
        ensures InCategory(catalog[..i + 1], category, item) <==>
                InCategory(catalog[..i], category, item) || next == CatalogItem(item, Some(category), true)
      { }
      if next.active && next.category.Some? {
        ghost var before := categories;
        categories := categories[next.category.value := Of(categories, next.category.value) + {next.id}];
        assert forall category: CategoryId ::
            Of(categories, category) ==
            Of(before, category) + if category == next.category.value then {next.id} else {};
      }
    }
    assert catalog[..|catalog|] == catalog;
  }

  // --- Compiling a rule --------------------------------------------------------------------------

  /** Whether a published fee counts a line of `item`. */
  predicate CountsItem(fee: PublishedFee, item: ItemId) {
    match fee.counts
    case AllItems => true
    case Include => item in fee.items
    case Exclude => item !in fee.items
    case UnknownScope(_) => false
  }

  /** The rule names the item: itself, or by a category that holds it. */
  predicate Names(rule: FeeRule, categories: CategoryItems, item: ItemId) {
    item in rule.rule.items || exists i :: 0 <= i < |rule.categories| && item in Of(categories, rule.categories[i])
  }

  /** Whether the rule as authored counts a line of `item`. */
  predicate Counts(rule: FeeRule, categories: CategoryItems, item: ItemId) {
    match rule.rule.counts
    case AllItems => true
    case Include => Names(rule, categories, item)
    case Exclude => !Names(rule, categories, item)
    case UnknownScope(_) => false
  }

  method NamedItems(rule: FeeRule, categories: CategoryItems) returns (items: set<ItemId>)
    ensures forall item :: item in items <==> Names(rule, categories, item)
  {
    items := set item | item in rule.rule.items;
    for i := 0 to |rule.categories|
      invariant forall item :: item in items <==>
                  item in rule.rule.items || exists j :: 0 <= j < i && item in Of(categories, rule.categories[j])
    {
      items := items + Of(categories, rule.categories[i]);
    }
  }

  /** The compiled rule counts exactly the items the authored one does, of every item. What it lists is in
      id order, none twice; it never excludes an empty list; and nothing else of the rule changes. */
  method Compile(rule: FeeRule, categories: CategoryItems) returns (published: PublishedFee)
    ensures forall item :: CountsItem(published, item) <==> Counts(rule, categories, item)
    ensures rule.rule.counts.Include? || rule.rule.counts.Exclude? ==> Ascending(published.items, IdLeq)
    ensures !(published.counts.Exclude? && published.items == [])
    ensures published.counts == rule.rule.counts || (rule.rule.counts.Exclude? && published.counts.AllItems?)
    ensures published == rule.rule.(counts := published.counts, items := published.items)
    ensures !(rule.rule.counts.Include? || rule.rule.counts.Exclude?) ==> published == rule.rule
  {
    published := rule.rule;
    if rule.rule.counts.Include? || rule.rule.counts.Exclude? {
      var items := NamedItems(rule, categories);
      published := published.(items := Ids(items));
      assert forall item :: item in published.items <==> Names(rule, categories, item);
      if published.items == [] && published.counts.Exclude? {
        published := published.(counts := AllItems);
      }
    }
  }

  /** Compiled against the catalog, a rule counts an item by category exactly when it is active and in one
      of the categories named. */
  lemma CountsByCatalog(rule: FeeRule, catalog: seq<CatalogItem>, categories: CategoryItems, item: ItemId)
    requires forall category: CategoryId, held: ItemId :: held in Of(categories, category) <==>
             InCategory(catalog, category, held)
    ensures Names(rule, categories, item) <==>
            || item in rule.rule.items
            || exists i :: 0 <= i < |rule.categories| && InCategory(catalog, rule.categories[i], item)
  {
    if Names(rule, categories, item) && item !in rule.rule.items {
      var i :| 0 <= i < |rule.categories| && item in Of(categories, rule.categories[i]);
      assert InCategory(catalog, rule.categories[i], item);
    }
    if i :| 0 <= i < |rule.categories| && InCategory(catalog, rule.categories[i], item) {
      assert item in Of(categories, rule.categories[i]);
    }
  }
}

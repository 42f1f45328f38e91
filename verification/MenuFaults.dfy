/** A menu checked against the store it is published to: its prices' currency, and its items' tax rates. */
module MenuFaults {
  import opened Outcomes
  import opened Ordered
  import opened Catalog

  type ClassId = nat

  // --- What the store holds ---------------------------------------------------------------------------------------

  datatype RateRow = RateRow(class_: ClassId, channel: OpenChannel, rate: nat)

  /** The rate for a class on a channel: a partial map. */
  function RateFor(rates: seq<RateRow>, class_: ClassId, channel: SalesChannel): Option<nat> {
    if rates == [] then None
    else if rates[0].class_ == class_ && rates[0].channel == Known(channel) then Some(rates[0].rate)
    else RateFor(rates[1..], class_, channel)
  }

  datatype MenuRow = MenuRow(channel: OpenChannel, catalog: ChannelCatalog)

  datatype PublishedMenu = PublishedMenu(rows: seq<MenuRow>, fallback: ChannelCatalog)

  datatype StoreFacts = StoreFacts(currency: Option<string>, rates: Option<seq<RateRow>>, menu: Option<PublishedMenu>)

  // --- Faults -------------------------------------------------------------------------------------------------------

  datatype StoreFault = CurrencyMismatch | TaxClassNotRated

  datatype MenuFault = MenuFault(item: ItemId, name: string, fault: StoreFault)

  predicate FaultLeq(a: MenuFault, b: MenuFault) {
    || a.item < b.item
    || (a.item == b.item && a.name != b.name && TextLeq(a.name, b.name))
    || (a.item == b.item && a.name == b.name && (a.fault.CurrencyMismatch? || b.fault.TaxClassNotRated?))
  }

  lemma FaultOrder()
    ensures TotalOrder(FaultLeq)
  {
    TextOrder();
  }

  /** The channels a sale is made on among those named. */
  function KnownOf(channels: seq<OpenChannel>): set<SalesChannel> {
    set i | 0 <= i < |channels| && Sellable(channels[i]).Some? :: Sellable(channels[i]).value
  }

  function Own(menu: PublishedMenu): set<SalesChannel> {
    KnownOf(seq(|menu.rows|, i requires 0 <= i < |menu.rows| => menu.rows[i].channel))
  }

  function Rated(rates: Option<seq<RateRow>>): set<SalesChannel> {
    if rates.None? then {} else KnownOf(seq(|rates.value|, i requires 0 <= i < |rates.value| => rates.value[i].channel))
  }

  predicate Mispriced(currency: Option<string>, entry: Entry) {
    currency.Some? && entry.price.currency != currency.value
  }

  predicate Unrated(rates: Option<seq<RateRow>>, channels: set<SalesChannel>, entry: Entry) {
    rates.Some? && exists channel :: channel in channels && RateFor(rates.value, entry.taxClass, channel).None?
  }

  function EntryFaults(facts: StoreFacts, channels: set<SalesChannel>, entry: Entry): set<MenuFault> {
    (if Mispriced(facts.currency, entry) then {MenuFault(entry.item, entry.name, CurrencyMismatch)} else {}) +
    (if Unrated(facts.rates, channels, entry) then {MenuFault(entry.item, entry.name, TaxClassNotRated)} else {})
  }

  ghost predicate FaultAmong(facts: StoreFacts, channels: set<SalesChannel>, entries: seq<Entry>, fault: MenuFault) {
    exists i :: 0 <= i < |entries| && fault in EntryFaults(facts, channels, entries[i])
  }

  /** A fault of the menu: of an entry of a channel's row on that channel, or of an entry of the fallback on
      the rated channels that have no row. */
  ghost predicate FaultOf(facts: StoreFacts, menu: PublishedMenu, fault: MenuFault) {
    || (exists k :: 0 <= k < |menu.rows|
         && FaultAmong(facts, KnownOf([menu.rows[k].channel]), menu.rows[k].catalog.entries, fault))
    || FaultAmong(facts, Rated(facts.rates) - Own(menu), menu.fallback.entries, fault)
  }

  method CatalogFaults(facts: StoreFacts, channels: set<SalesChannel>, entries: seq<Entry>, before: set<MenuFault>)
    returns (faults: set<MenuFault>)
    ensures forall fault :: fault in faults <==> fault in before || FaultAmong(facts, channels, entries, fault)
  {
    faults := before;
    for i := 0 to |entries|
      invariant forall fault :: fault in faults <==>
                  fault in before || exists j :: 0 <= j < i && fault in EntryFaults(facts, channels, entries[j])
    {
      var entry := entries[i];
      ghost var soFar := faults;
      if Mispriced(facts.currency, entry) {
        faults := faults + {MenuFault(entry.item, entry.name, CurrencyMismatch)};
      }
      if Unrated(facts.rates, channels, entry) {
        faults := faults + {MenuFault(entry.item, entry.name, TaxClassNotRated)};
      }
      assert faults == soFar + EntryFaults(facts, channels, entry);
    }
  }

  /** What is wrong with the store's menu: each item and fault once, in order; nothing without a menu. */
  method Faults(facts: StoreFacts) returns (faults: seq<MenuFault>)
    ensures facts.menu.None? ==> faults == []
    ensures facts.menu.Some? ==> forall fault :: fault in faults <==> FaultOf(facts, facts.menu.value, fault)
    ensures Ascending(faults, FaultLeq)
  {
    FaultOrder();
    if facts.menu.None? {
      return [];
    }
    var found := FaultSet(facts, facts.menu.value);
    faults := Listing(found, FaultLeq);
  }

  method FaultSet(facts: StoreFacts, menu: PublishedMenu) returns (found: set<MenuFault>)
    ensures forall fault :: fault in found <==> FaultOf(facts, menu, fault)
  {
    found := {};
    for k := 0 to |menu.rows|
      invariant forall fault :: fault in found <==>
                  exists j :: 0 <= j < k
                      && FaultAmong(facts, KnownOf([menu.rows[j].channel]), menu.rows[j].catalog.entries, fault)
    {
      found := CatalogFaults(facts, KnownOf([menu.rows[k].channel]), menu.rows[k].catalog.entries, found);
    }
    found := CatalogFaults(facts, Rated(facts.rates) - Own(menu), menu.fallback.entries, found);
  }

  // --- When there are none ----------------------------------------------------------------------------------------

  ghost predicate PricedIn(currency: string, entries: seq<Entry>) {
    forall i :: 0 <= i < |entries| ==> entries[i].price.currency == currency
  }

  ghost predicate RatedOn(rates: seq<RateRow>, entries: seq<Entry>, channel: SalesChannel) {
    forall i :: 0 <= i < |entries| ==> RateFor(rates, entries[i].taxClass, channel).Some?
  }

  /** Every entry in any catalog is priced in the currency the store bills in, if it has one. */
  ghost predicate CurrencyAgrees(facts: StoreFacts, menu: PublishedMenu) {
    facts.currency.Some? ==>
      && (forall k :: 0 <= k < |menu.rows| ==> PricedIn(facts.currency.value, menu.rows[k].catalog.entries))
      && PricedIn(facts.currency.value, menu.fallback.entries)
  }

  /** Each row's entries are rated on its channel, and the fallback's on every rated channel without a row, if
      the store has rates. */
  ghost predicate RowsRated(facts: StoreFacts, menu: PublishedMenu) {
    facts.rates.Some? ==>
      && (forall k :: 0 <= k < |menu.rows| && Sellable(menu.rows[k].channel).Some? ==>
            RatedOn(facts.rates.value, menu.rows[k].catalog.entries, Sellable(menu.rows[k].channel).value))
      && (forall channel :: channel in Rated(facts.rates) && channel !in Own(menu) ==>
            RatedOn(facts.rates.value, menu.fallback.entries, channel))
  }

  lemma NoneAmong(facts: StoreFacts, channels: set<SalesChannel>, entries: seq<Entry>)
    ensures (forall fault :: !FaultAmong(facts, channels, entries, fault)) <==>
            && (facts.currency.Some? ==> PricedIn(facts.currency.value, entries))
            && (facts.rates.Some? ==> forall channel :: channel in channels ==>
                 RatedOn(facts.rates.value, entries, channel))
  {
    if i :| 0 <= i < |entries| && EntryFaults(facts, channels, entries[i]) != {} {
      var fault :| fault in EntryFaults(facts, channels, entries[i]);
      assert FaultAmong(facts, channels, entries, fault);
    }
    if i :| 0 <= i < |entries| && Mispriced(facts.currency, entries[i]) {
      assert MenuFault(entries[i].item, entries[i].name, CurrencyMismatch) in EntryFaults(facts, channels, entries[i]);
    }
    if i :| 0 <= i < |entries| && Unrated(facts.rates, channels, entries[i]) {
      assert MenuFault(entries[i].item, entries[i].name, TaxClassNotRated) in EntryFaults(facts, channels, entries[i]);
    }
  }

  /** A row is clean: priced in the store's currency, and rated on its channel. */
  ghost predicate CleanRow(facts: StoreFacts, row: MenuRow) {
    && (facts.currency.Some? ==> PricedIn(facts.currency.value, row.catalog.entries))
    && (facts.rates.Some? && Sellable(row.channel).Some? ==>
         RatedOn(facts.rates.value, row.catalog.entries, Sellable(row.channel).value))
  }

  ghost predicate NoFaultAmong(facts: StoreFacts, channels: set<SalesChannel>, entries: seq<Entry>) {
    forall fault :: !FaultAmong(facts, channels, entries, fault)
  }

  lemma CleanRowExactly(facts: StoreFacts, row: MenuRow)
    ensures NoFaultAmong(facts, KnownOf([row.channel]), row.catalog.entries) <==> CleanRow(facts, row)
  {
    NoneAmong(facts, KnownOf([row.channel]), row.catalog.entries);
    OneKnown(row.channel);
  }

  lemma NoFaultsByPart(facts: StoreFacts, menu: PublishedMenu)
    ensures (forall fault :: !FaultOf(facts, menu, fault)) <==>
            && (forall k :: 0 <= k < |menu.rows| ==>
                 NoFaultAmong(facts, KnownOf([menu.rows[k].channel]), menu.rows[k].catalog.entries))
            && NoFaultAmong(facts, Rated(facts.rates) - Own(menu), menu.fallback.entries)
  {
    if forall fault :: !FaultOf(facts, menu, fault) {
      forall k, fault | 0 <= k < |menu.rows|
        ensures !FaultAmong(facts, KnownOf([menu.rows[k].channel]), menu.rows[k].catalog.entries, fault)
      {
        assert !FaultOf(facts, menu, fault);
      }
      forall fault ensures !FaultAmong(facts, Rated(facts.rates) - Own(menu), menu.fallback.entries, fault) {
        assert !FaultOf(facts, menu, fault);
      }
    }
  }

  /** There is no fault exactly when every price is in the store's currency and every row and the fallback
      are rated where they are sold. */
  lemma NoFaultsExactly(facts: StoreFacts, menu: PublishedMenu)
    ensures (forall fault :: !FaultOf(facts, menu, fault)) <==> CurrencyAgrees(facts, menu) && RowsRated(facts, menu)
  {
    NoFaultsByPart(facts, menu);
    forall k | 0 <= k < |menu.rows|
      ensures NoFaultAmong(facts, KnownOf([menu.rows[k].channel]), menu.rows[k].catalog.entries) <==>
              CleanRow(facts, menu.rows[k])
    {
      CleanRowExactly(facts, menu.rows[k]);
    }
    NoneAmong(facts, Rated(facts.rates) - Own(menu), menu.fallback.entries);
  }

  lemma OneKnown(channel: OpenChannel)
    ensures KnownOf([channel]) == if Sellable(channel).Some? then {Sellable(channel).value} else {}
  {
    if Sellable(channel).Some? { assert Sellable([channel][0]).value in KnownOf([channel]); }
  }

  // --- What a channel sells from ----------------------------------------------------------------------------------

  /** The catalog a channel sells from: its first row, else the fallback. */
  function CatalogFor(rows: seq<MenuRow>, fallback: ChannelCatalog, channel: SalesChannel): ChannelCatalog {
    if rows == [] then fallback
    else if rows[0].channel == Known(channel) then rows[0].catalog
    else CatalogFor(rows[1..], fallback, channel)
  }

  ghost predicate FirstRow(rows: seq<MenuRow>, channel: SalesChannel, k: nat) {
    k < |rows| && rows[k].channel == Known(channel) && forall j :: 0 <= j < k ==> rows[j].channel != Known(channel)
  }

  lemma {:induction false} SellsFrom(rows: seq<MenuRow>, fallback: ChannelCatalog, channel: SalesChannel)
    ensures || (&& CatalogFor(rows, fallback, channel) == fallback
                && forall k :: 0 <= k < |rows| ==> rows[k].channel != Known(channel))
            || exists k: nat :: FirstRow(rows, channel, k) && CatalogFor(rows, fallback, channel) == rows[k].catalog
  {
    if rows == [] {
    } else if rows[0].channel == Known(channel) {
      assert FirstRow(rows, channel, 0);
    } else {
      SellsFrom(rows[1..], fallback, channel);
      if k: nat :| FirstRow(rows[1..], channel, k) && CatalogFor(rows[1..], fallback, channel) == rows[1..][k].catalog {
        forall j | 0 <= j < k + 1 ensures rows[j].channel != Known(channel) {
          if j > 0 { assert rows[j] == rows[1..][j - 1]; }
        }
        assert rows[k + 1] == rows[1..][k];
        assert FirstRow(rows, channel, k + 1);
      } else {
        assert forall k :: 0 < k < |rows| ==> rows[k] == rows[1..][k - 1];
      }
    }
  }

  /** On every channel that has a row or is rated, what the channel sells from is rated there. */
  ghost predicate SoldRated(facts: StoreFacts, menu: PublishedMenu) {
    facts.rates.Some? ==>
      forall channel :: channel in Own(menu) + Rated(facts.rates) ==>
        RatedOn(facts.rates.value, CatalogFor(menu.rows, menu.fallback, channel).entries, channel)
  }

  /** Another row of the same channel comes before row `k`. */
  predicate Hidden(rows: seq<MenuRow>, k: nat)
    requires k < |rows|
  {
    exists j :: 0 <= j < k && rows[j].channel == rows[k].channel
  }

  /** A row that another row of its channel hides is rated too. */
  ghost predicate HiddenRated(facts: StoreFacts, menu: PublishedMenu) {
    facts.rates.Some? ==>
      forall k :: 0 <= k < |menu.rows| && Hidden(menu.rows, k) && Sellable(menu.rows[k].channel).Some? ==>
        RatedOn(facts.rates.value, menu.rows[k].catalog.entries, Sellable(menu.rows[k].channel).value)
  }

  lemma OwnAre(menu: PublishedMenu, channel: SalesChannel)
    ensures channel in Own(menu) <==>
            channel != Unspecified && exists k :: 0 <= k < |menu.rows| && menu.rows[k].channel == Known(channel)
  {
    var channels := seq(|menu.rows|, i requires 0 <= i < |menu.rows| => menu.rows[i].channel);
    if channel in Own(menu) {
      var i :| 0 <= i < |channels| && Sellable(channels[i]).Some? && Sellable(channels[i]).value == channel;
      assert menu.rows[i].channel == Known(channel);
    }
    if channel != Unspecified {
      if k :| 0 <= k < |menu.rows| && menu.rows[k].channel == Known(channel) {
        assert Sellable(channels[k]).value in KnownOf(channels);
      }
    }
  }

  lemma RatedSellable(rates: Option<seq<RateRow>>)
    ensures Unspecified !in Rated(rates)
  {
  }

  /** A menu without faults sells nothing its store has no rate for. */
  lemma RowsRatedIsSound(facts: StoreFacts, menu: PublishedMenu)
    requires RowsRated(facts, menu)
    ensures SoldRated(facts, menu)
  {
    if facts.rates.Some? {
      forall channel | channel in Own(menu) + Rated(facts.rates)
        ensures RatedOn(facts.rates.value, CatalogFor(menu.rows, menu.fallback, channel).entries, channel)
      {
        OwnAre(menu, channel);
        RatedSellable(facts.rates);
        SellsFrom(menu.rows, menu.fallback, channel);
      }
    }
  }

  lemma RowRated(facts: StoreFacts, menu: PublishedMenu, k: nat)
    requires SoldRated(facts, menu) && HiddenRated(facts, menu) && facts.rates.Some? && k < |menu.rows|
             && Sellable(menu.rows[k].channel).Some?
    ensures RatedOn(facts.rates.value, menu.rows[k].catalog.entries, Sellable(menu.rows[k].channel).value)
  {
    var channel := Sellable(menu.rows[k].channel).value;
    if !Hidden(menu.rows, k) {
      OwnAre(menu, channel);
      SellsFrom(menu.rows, menu.fallback, channel);
      var first: nat :| FirstRow(menu.rows, channel, first)
          && CatalogFor(menu.rows, menu.fallback, channel) == menu.rows[first].catalog;
      assert first == k;
    }
  }

  /** The rates found wanting are exactly those of what some channel sells, and of rows another row of the same
      channel hides. Where no channel has two rows, it is exactly what the channels sell. */
  lemma RowsRatedExactly(facts: StoreFacts, menu: PublishedMenu)
    ensures RowsRated(facts, menu) <==> SoldRated(facts, menu) && HiddenRated(facts, menu)
  {
    if RowsRated(facts, menu) { RowsRatedIsSound(facts, menu); }
    if SoldRated(facts, menu) && HiddenRated(facts, menu) && facts.rates.Some? {
      forall k | 0 <= k < |menu.rows| && Sellable(menu.rows[k].channel).Some?
        ensures RatedOn(facts.rates.value, menu.rows[k].catalog.entries, Sellable(menu.rows[k].channel).value)
      {
        RowRated(facts, menu, k);
      }
      forall channel | channel in Rated(facts.rates) && channel !in Own(menu)
        ensures RatedOn(facts.rates.value, menu.fallback.entries, channel)
      {
        OwnAre(menu, channel);
        RatedSellable(facts.rates);
        SellsFrom(menu.rows, menu.fallback, channel);
      }
    }
  }

  const NOTHING := ChannelCatalog([], [], [])
  const UNRATED := Entry(0, "", map[], Money("VND", 0), 0, true, [], None)

  /** A menu whose dine-in row, which sells nothing, hides another with an unrated entry. */
  const HIDING := PublishedMenu([MenuRow(Known(DineIn), NOTHING),
                                 MenuRow(Known(DineIn), ChannelCatalog([UNRATED], [], []))], NOTHING)

  /** A hidden row is the one false alarm: here the till sells only what is rated and priced in its currency,
      and a fault is found. */
  lemma HiddenRowFaulted()
    ensures var facts := StoreFacts(Some("VND"), Some([]), Some(HIDING));
            && SoldRated(facts, HIDING) && CurrencyAgrees(facts, HIDING)
            && FaultOf(facts, HIDING, MenuFault(0, "", TaxClassNotRated))
  {
    var facts := StoreFacts(Some("VND"), Some([]), Some(HIDING));
    forall channel ensures CatalogFor(HIDING.rows, HIDING.fallback, channel) == NOTHING {
      SellsFrom(HIDING.rows, HIDING.fallback, channel);
    }
    OneKnown(Known(DineIn));
    assert RateFor([], 0, DineIn).None?;
    assert Unrated(facts.rates, KnownOf([HIDING.rows[1].channel]), UNRATED);
    assert HIDING.rows[1].catalog.entries[0] == UNRATED;
    assert FaultAmong(facts, KnownOf([HIDING.rows[1].channel]), HIDING.rows[1].catalog.entries,
        MenuFault(0, "", TaxClassNotRated));
  }
}

/** Fee rules: the store that keeps them by tenant and slot, and the rule each fee runs at a store. */
module FeeRules {
  import opened Outcomes
  import opened Ordered

  type FeeId = nat
  type ItemId = nat
  type CategoryId = nat

  datatype Scope = Nowhere | Tenant | Brand | Store

  /** Which lines a fee counts: a scope this build knows, or the token of one it does not. */
  datatype FeeItems = AllItems | Include | Exclude | UnknownScope(token: string)

  datatype PublishedFee = PublishedFee(fee: FeeId, code: string, active: bool, counts: FeeItems, items: seq<ItemId>)

  datatype FeeRule = FeeRule(scope: Scope, scopeId: string, rule: PublishedFee, categories: seq<CategoryId>)

  /** Where a rule sits. */
  datatype Slot = Slot(scope: Scope, scopeId: string, fee: FeeId)

  /** Where a store sits. */
  datatype Placement = Placement(tenant: string, brand: Option<string>, store: string)

  function SlotOf(rule: FeeRule): Slot {
    Slot(rule.scope, rule.scopeId, rule.rule.fee)
  }

  function Specificity(scope: Scope): nat {
    match scope
    case Nowhere => 0
    case Tenant => 1
    case Brand => 2
    case Store => 3
  }

  predicate SlotReaches(slot: Slot, p: Placement) {
    match slot.scope
    case Tenant => slot.scopeId == p.tenant
    case Brand => p.brand == Some(slot.scopeId)
    case Store => slot.scopeId == p.store
    case Nowhere => false
  }

  predicate Reaches(rule: FeeRule, p: Placement) {
    SlotReaches(SlotOf(rule), p)
  }

  // --- The rules by tenant and slot -------------------------------------------------------------------------------

  const IN_MEMORY_RULES_PER_TENANT := 4096
  const IN_MEMORY_TENANTS := 1024

  type Rules = map<Slot, FeeRule>
  type Rows = map<string, Rules>

  function RulesFor(rows: Rows, tenant: string): Rules {
    if tenant in rows then rows[tenant] else map[]
  }

  /** Each rule sits in its own slot, at a scope a rule is written at. */
  ghost predicate Slotted(rules: Rules) {
    forall slot :: slot in rules ==> SlotOf(rules[slot]) == slot && slot.scope != Nowhere
  }

  ghost predicate ValidTenant(rules: Rules) {
    rules != map[] && |rules| <= IN_MEMORY_RULES_PER_TENANT && Slotted(rules)
  }

  /** Within bounds, every rule in its slot, and no tenant kept without a rule. */
  ghost predicate ValidRows(rows: Rows) {
    |rows| <= IN_MEMORY_TENANTS && forall tenant :: tenant in rows ==> ValidTenant(rows[tenant])
  }

  datatype Op = Put(tenant: string, rule: FeeRule) | Delete(tenant: string, slot: Slot)

  predicate Accepts(rows: Rows, tenant: string, rule: FeeRule) {
    && rule.scope != Nowhere
    && (tenant in rows || |rows| < IN_MEMORY_TENANTS)
    && (SlotOf(rule) in RulesFor(rows, tenant) || |RulesFor(rows, tenant)| < IN_MEMORY_RULES_PER_TENANT)
  }

  /** The rows after one write. A refused put changes nothing; a tenant's last rule takes the tenant with it. */
  function Applied(rows: Rows, op: Op): Rows {
    match op
    case Put(tenant, rule) =>
      if Accepts(rows, tenant, rule) then rows[tenant := RulesFor(rows, tenant)[SlotOf(rule) := rule]] else rows
    case Delete(tenant, slot) =>
      var left := RulesFor(rows, tenant) - {slot};
      if left == map[] then rows - {tenant} else rows[tenant := left]
  }

  function Run(rows: Rows, ops: seq<Op>): Rows {
    if ops == [] then rows else Applied(Run(rows, ops[..|ops| - 1]), ops[|ops| - 1])
  }

  lemma KeysAfterUpdate<K, V>(m: map<K, V>, k: K, v: V)
    ensures |m[k := v]| == |m| + if k in m then 0 else 1
  {
    assert m[k := v].Keys == m.Keys + {k};
    if k in m { assert m.Keys + {k} == m.Keys; }
  }

  lemma KeysAfterRemoval<K, V>(m: map<K, V>, k: K)
    ensures |m - {k}| <= |m|
  {
    assert (m - {k}).Keys == m.Keys - {k};
  }

  lemma TenantAfterPut(rules: Rules, rule: FeeRule)
    requires rules == map[] || ValidTenant(rules)
    requires rule.scope != Nowhere && (SlotOf(rule) in rules || |rules| < IN_MEMORY_RULES_PER_TENANT)
    ensures ValidTenant(rules[SlotOf(rule) := rule])
  {
    KeysAfterUpdate(rules, SlotOf(rule), rule);
    assert SlotOf(rule) in rules[SlotOf(rule) := rule];
  }

  lemma TenantAfterDelete(rules: Rules, slot: Slot)
    requires ValidTenant(rules)
    ensures rules - {slot} == map[] || ValidTenant(rules - {slot})
  {
    KeysAfterRemoval(rules, slot);
  }

  lemma RowsAfterSet(rows: Rows, tenant: string, rules: Rules)
    requires ValidRows(rows) && ValidTenant(rules) && (tenant in rows || |rows| < IN_MEMORY_TENANTS)
    ensures ValidRows(rows[tenant := rules])
  {
    KeysAfterUpdate(rows, tenant, rules);
    var after := rows[tenant := rules];
    forall other | other in after ensures ValidTenant(after[other]) { }
  }

  lemma RowsAfterDrop(rows: Rows, tenant: string)
    requires ValidRows(rows)
    ensures ValidRows(rows - {tenant})
  {
    KeysAfterRemoval(rows, tenant);
    var after := rows - {tenant};
    forall other | other in after ensures ValidTenant(after[other]) { }
  }

  lemma PutValid(rows: Rows, tenant: string, rule: FeeRule)
    requires ValidRows(rows) && Accepts(rows, tenant, rule)
    ensures ValidRows(rows[tenant := RulesFor(rows, tenant)[SlotOf(rule) := rule]])
  {
    TenantAfterPut(RulesFor(rows, tenant), rule);
    RowsAfterSet(rows, tenant, RulesFor(rows, tenant)[SlotOf(rule) := rule]);
  }

  lemma DeleteValid(rows: Rows, tenant: string, slot: Slot)
    requires ValidRows(rows) && RulesFor(rows, tenant) - {slot} != map[]
    ensures ValidRows(rows[tenant := RulesFor(rows, tenant) - {slot}])
  {
    TenantAfterDelete(rows[tenant], slot);
    RowsAfterSet(rows, tenant, rows[tenant] - {slot});
  }

  lemma AppliedValid(rows: Rows, op: Op)
    requires ValidRows(rows)
    ensures ValidRows(Applied(rows, op))
  {
    match op
    case Put(tenant, rule) =>
      if Accepts(rows, tenant, rule) { PutValid(rows, tenant, rule); }
    case Delete(tenant, slot) =>
      RowsAfterDrop(rows, tenant);
      if RulesFor(rows, tenant) - {slot} != map[] { DeleteValid(rows, tenant, slot); }
  }

  /** Over any run of writes the rows stay within bounds, slotted, and without an empty tenant. */
  lemma {:induction false} RunValid(rows: Rows, ops: seq<Op>)
    requires ValidRows(rows)
    ensures ValidRows(Run(rows, ops))
  {
    if ops != [] {
      RunValid(rows, ops[..|ops| - 1]);
      AppliedValid(Run(rows, ops[..|ops| - 1]), ops[|ops| - 1]);
    }
  }

  /** The order rules are listed in: by scope token, scope id and fee id. */
  function ScopeRank(scope: Scope): nat {
    match scope
    case Brand => 0
    case Store => 1
    case Tenant => 2
    case Nowhere => 3
  }

  predicate SlotLeq(a: Slot, b: Slot) {
    || ScopeRank(a.scope) < ScopeRank(b.scope)
    || (a.scope == b.scope && a.scopeId != b.scopeId && TextLeq(a.scopeId, b.scopeId))
    || (a.scope == b.scope && a.scopeId == b.scopeId && a.fee <= b.fee)
  }

  lemma SlotOrder()
    ensures TotalOrder(SlotLeq)
  {
    TextOrder();
  }

  /** A tenant's rules as a list: each once. */
  ghost predicate ListsRules(list: seq<FeeRule>, rules: Rules) {
    && (forall rule :: rule in list ==> SlotOf(rule) in rules && rules[SlotOf(rule)] == rule)
    && forall slot :: slot in rules ==> rules[slot] in list
  }

  /** No rule comes after another in a list unless its slot does. */
  ghost predicate InSlotOrder(list: seq<FeeRule>) {
    forall i, j :: 0 <= i < j < |list| ==>
        SlotLeq(SlotOf(list[i]), SlotOf(list[j])) && SlotOf(list[i]) != SlotOf(list[j])
  }

  lemma ListedInOrder(rules: Rules, slots: seq<Slot>, list: seq<FeeRule>)
    requires Slotted(rules) && Ascending(slots, SlotLeq) && forall slot :: slot in slots <==> slot in rules
    requires |list| == |slots| && forall i :: 0 <= i < |slots| ==> slots[i] in rules && list[i] == rules[slots[i]]
    ensures ListsRules(list, rules) && InSlotOrder(list)
  {
    forall slot | slot in rules ensures rules[slot] in list {
      assert slot in slots;
      var i :| 0 <= i < |slots| && slots[i] == slot;
      assert list[i] == rules[slot];
    }
  }

  class InMemoryFeeRules {
    var rows: Rows

    ghost predicate Valid()
      reads this
    {
      ValidRows(rows)
    }

    constructor ()
      ensures Valid() && rows == map[]
    {
      rows := map[];
    }

    method List(tenant: string) returns (list: seq<FeeRule>)
      requires Valid()
      ensures ListsRules(list, RulesFor(rows, tenant)) && InSlotOrder(list)
    {
      var rules := RulesFor(rows, tenant);
      list := Listed(rules);
    }

    static method Listed(rules: Rules) returns (list: seq<FeeRule>)
      requires Slotted(rules)
      ensures ListsRules(list, rules) && InSlotOrder(list)
    {
      SlotOrder();
      hide *;
      var slots := Listing(rules.Keys, SlotLeq);
      assert forall i :: 0 <= i < |slots| ==> slots[i] in slots;
      list := seq(|slots|, i requires 0 <= i < |slots| => rules[slots[i]]);
      ListedInOrder(rules, slots, list);
    }

    method Put(tenant: string, rule: FeeRule) returns (stored: bool)
      requires Valid()
      modifies this
      ensures Valid() && rows == Applied(old(rows), Op.Put(tenant, rule))
      ensures stored <==> Accepts(old(rows), tenant, rule)
      ensures !stored ==> rows == old(rows)
    {
      AppliedValid(rows, Op.Put(tenant, rule));
      if rule.scope == Nowhere {
        return false;
      }
      if tenant !in rows && |rows| >= IN_MEMORY_TENANTS {
        return false;
      }
      var rules := RulesFor(rows, tenant);
      if SlotOf(rule) !in rules && |rules| >= IN_MEMORY_RULES_PER_TENANT {
        return false;
      }
      rows := rows[tenant := rules[SlotOf(rule) := rule]];
      return true;
    }

    method Delete(tenant: string, slot: Slot) returns (removed: bool)
      requires Valid()
      modifies this
      ensures Valid() && rows == Applied(old(rows), Op.Delete(tenant, slot))
      ensures removed <==> slot in RulesFor(old(rows), tenant)
    {
      AppliedValid(rows, Op.Delete(tenant, slot));
      var after;
      after, removed := Without(rows, tenant, slot);
      rows := after;
    }

    static method Without(rows: Rows, tenant: string, slot: Slot) returns (after: Rows, removed: bool)
      ensures after == Applied(rows, Op.Delete(tenant, slot))
      ensures removed <==> slot in RulesFor(rows, tenant)
    {
      if tenant !in rows {
        NothingToDelete(rows, tenant, slot);
        return rows, false;
      }
      removed := slot in rows[tenant];
      var left := rows[tenant] - {slot};
      after := if left == map[] then rows - {tenant} else rows[tenant := left];
    }
  }

  lemma NothingToDelete(rows: Rows, tenant: string, slot: Slot)
    ensures tenant !in rows ==> Applied(rows, Op.Delete(tenant, slot)) == rows
  {
    if tenant !in rows {
      assert RulesFor(rows, tenant) - {slot} == map[];
      assert rows - {tenant} == rows;
    }
  }

  // --- The rule a store runs --------------------------------------------------------------------------------------

  /** Whether `rule` takes over from the rule held for its fee. */
  predicate TakesOver(rule: FeeRule, held: Option<FeeRule>, p: Placement) {
    Reaches(rule, p) && (held.None? || Specificity(rule.scope) > Specificity(held.value.scope))
  }

  /** The most specific rule of the list that reaches the store, the first of equals. */
  function Winner(rules: seq<FeeRule>, p: Placement, fee: FeeId): Option<FeeRule> {
    if rules == [] then None
    else
      var held, last := Winner(rules[..|rules| - 1], p, fee), rules[|rules| - 1];
      if last.rule.fee == fee && TakesOver(last, held, p) then Some(last) else held
  }

  ghost predicate HoldsWinners(chosen: map<FeeId, FeeRule>, rules: seq<FeeRule>, p: Placement) {
    && (forall fee: FeeId :: fee in chosen <==> Winner(rules, p, fee).Some?)
    && forall fee: FeeId :: fee in chosen ==> Winner(rules, p, fee) == Some(chosen[fee])
  }

  /** The list holds, in fee-id order, each reaching fee's winner once. */
  ghost predicate ListsWinners(resolved: seq<FeeRule>, rules: seq<FeeRule>, p: Placement) {
    && (forall i :: 0 <= i < |resolved| ==> Winner(rules, p, resolved[i].rule.fee) == Some(resolved[i]))
    && (forall i, j :: 0 <= i < j < |resolved| ==> resolved[i].rule.fee < resolved[j].rule.fee)
    && forall fee: FeeId :: Winner(rules, p, fee).Some? ==>
         exists i :: 0 <= i < |resolved| && resolved[i].rule.fee == fee
  }

  lemma {:induction false} WinnerNamed(rules: seq<FeeRule>, p: Placement, fee: FeeId)
    ensures var winner := Winner(rules, p, fee);
            winner.Some? ==> winner.value in rules && winner.value.rule.fee == fee && Reaches(winner.value, p)
  {
    if rules != [] {
      WinnerNamed(rules[..|rules| - 1], p, fee);
    }
  }

  /** The rules a store runs, by fee id. */
  method ResolveForStore(rules: seq<FeeRule>, p: Placement) returns (resolved: seq<FeeRule>)
    ensures ListsWinners(resolved, rules, p)
  {
    var chosen: map<FeeId, FeeRule> := map[];
    for i := 0 to |rules|
      invariant HoldsWinners(chosen, rules[..i], p)
    {
      var rule := rules[i];
      assert rules[..i + 1][..i] == rules[..i];
      var held := if rule.rule.fee in chosen then Some(chosen[rule.rule.fee]) else None;
      assert held == Winner(rules[..i], p, rule.rule.fee);
      if Reaches(rule, p) && (held.None? || Specificity(rule.scope) > Specificity(held.value.scope)) {
        chosen := chosen[rule.rule.fee := rule];
      }
    }
    assert rules[..|rules|] == rules;
    resolved := InFeeOrder(chosen, rules, p);
  }

  lemma ListedInFeeOrder(chosen: map<FeeId, FeeRule>, rules: seq<FeeRule>, p: Placement, fees: seq<FeeId>,
                         resolved: seq<FeeRule>)
    requires HoldsWinners(chosen, rules, p) && Ascending(fees, IdLeq) && forall fee :: fee in fees <==> fee in chosen
    requires |resolved| == |fees| && forall i :: 0 <= i < |fees| ==> fees[i] in chosen && resolved[i] == chosen[fees[i]]
    ensures ListsWinners(resolved, rules, p)
  {
    hide Winner;
    forall i | 0 <= i < |fees| ensures resolved[i].rule.fee == fees[i] { WinnerNamed(rules, p, fees[i]); }
    forall i, j | 0 <= i < j < |fees| ensures fees[i] < fees[j] { assert IdLeq(fees[i], fees[j]); }
    forall fee: FeeId | Winner(rules, p, fee).Some?
      ensures exists i :: 0 <= i < |resolved| && resolved[i].rule.fee == fee
    {
      assert fee in fees;
      var i :| 0 <= i < |fees| && fees[i] == fee;
      assert resolved[i].rule.fee == fee;
    }
  }

  method InFeeOrder(chosen: map<FeeId, FeeRule>, ghost rules: seq<FeeRule>, ghost p: Placement)
    returns (resolved: seq<FeeRule>)
    requires HoldsWinners(chosen, rules, p)
    ensures ListsWinners(resolved, rules, p)
  {
    hide *;
    var fees := Ids(chosen.Keys);
    assert forall i :: 0 <= i < |fees| ==> fees[i] in fees;
    resolved := seq(|fees|, i requires 0 <= i < |fees| => chosen[fees[i]]);
    ListedInFeeOrder(chosen, rules, p, fees, resolved);
  }

  // --- What that rule is ------------------------------------------------------------------------------------------

  function Lookup(rules: Rules, slot: Slot): Option<FeeRule> {
    if slot in rules then Some(rules[slot]) else None
  }

  /** The rule of the store's brand, else of its tenant. */
  function Inherited(rules: Rules, p: Placement, fee: FeeId): Option<FeeRule> {
    var brand := if p.brand.Some? then Lookup(rules, Slot(Brand, p.brand.value, fee)) else None;
    if brand.Some? then brand else Lookup(rules, Slot(Tenant, p.tenant, fee))
  }

  /** The rule a store runs for a fee: its own, else its brand's, else its tenant's. */
  function Chosen(rules: Rules, p: Placement, fee: FeeId): Option<FeeRule> {
    var own := Lookup(rules, Slot(Store, p.store, fee));
    if own.Some? then own else Inherited(rules, p, fee)
  }

  lemma {:induction false} WinnerBeats(rules: seq<FeeRule>, p: Placement, rule: FeeRule)
    requires rule in rules && Reaches(rule, p)
    ensures Winner(rules, p, rule.rule.fee).Some?
    ensures Specificity(rule.scope) <= Specificity(Winner(rules, p, rule.rule.fee).value.scope)
  {
    if rule in rules[..|rules| - 1] {
      WinnerBeats(rules[..|rules| - 1], p, rule);
    } else {
      assert rule == rules[|rules| - 1];
    }
  }

  /** Whatever order a tenant's rules are listed in, the rule a store runs is its own, else its brand's,
      else its tenant's. */
  lemma WinnerIsChosen(list: seq<FeeRule>, rules: Rules, p: Placement, fee: FeeId)
    requires Slotted(rules) && ListsRules(list, rules)
    ensures Winner(list, p, fee) == Chosen(rules, p, fee)
  {
    var winner, chosen := Winner(list, p, fee), Chosen(rules, p, fee);
    WinnerNamed(list, p, fee);
    if chosen.Some? {
      assert SlotOf(chosen.value) in rules && chosen.value in list && Reaches(chosen.value, p)
          && chosen.value.rule.fee == fee;
      WinnerBeats(list, p, chosen.value);
    }
  }

  function FeesOf(resolved: seq<FeeRule>): (fees: seq<FeeId>)
    ensures |fees| == |resolved| && forall i :: 0 <= i < |fees| ==> fees[i] == resolved[i].rule.fee
  {
    seq(|resolved|, i requires 0 <= i < |resolved| => resolved[i].rule.fee)
  }

  lemma FeesWithin(a: seq<FeeRule>, left: seq<FeeRule>, b: seq<FeeRule>, right: seq<FeeRule>, p: Placement, fee: FeeId)
    requires ListsWinners(left, a, p) && ListsWinners(right, b, p) && Winner(a, p, fee) == Winner(b, p, fee)
    ensures fee in FeesOf(left) ==> fee in FeesOf(right)
  {
    if fee in FeesOf(left) {
      var i :| 0 <= i < |left| && FeesOf(left)[i] == fee;
      var j :| 0 <= j < |right| && right[j].rule.fee == fee;
      assert FeesOf(right)[j] == fee;
    }
  }

  /** Two listings of one tenant's rules resolve to the same list. */
  lemma ResolvesTheSame(a: seq<FeeRule>, b: seq<FeeRule>, rules: Rules, p: Placement, left: seq<FeeRule>,
                        right: seq<FeeRule>)
    requires Slotted(rules) && ListsRules(a, rules) && ListsRules(b, rules)
    requires ListsWinners(left, a, p) && ListsWinners(right, b, p)
    ensures left == right
  {
    forall fee: FeeId
      ensures Winner(a, p, fee) == Winner(b, p, fee) && (fee in FeesOf(left) <==> fee in FeesOf(right))
    {
      WinnerIsChosen(a, rules, p, fee);
      WinnerIsChosen(b, rules, p, fee);
      FeesWithin(a, left, b, right, p, fee);
      FeesWithin(b, right, a, left, p, fee);
    }
    IdOrder();
    ListingUnique(FeesOf(left), FeesOf(right), IdLeq);
    forall i | 0 <= i < |left| ensures left[i] == right[i] {
      assert FeesOf(left)[i] == FeesOf(right)[i];
    }
  }

  /** A write to one slot changes what a store runs for a fee only if it is that fee's slot and reaches
      the store. */
  lemma WritesStayLocal(rows: Rows, op: Op, tenant: string, p: Placement, fee: FeeId)
    requires var slot := if op.Put? then SlotOf(op.rule) else op.slot;
             op.tenant != tenant || slot.fee != fee || !SlotReaches(slot, p)
    ensures Chosen(RulesFor(Applied(rows, op), tenant), p, fee) == Chosen(RulesFor(rows, tenant), p, fee)
  {
    var before, after := RulesFor(rows, tenant), RulesFor(Applied(rows, op), tenant);
    var slot := if op.Put? then SlotOf(op.rule) else op.slot;
    assert forall other :: other != slot || op.tenant != tenant ==> Lookup(after, other) == Lookup(before, other);
  }

  /** So over any run of writes, a fee none of them touches runs as before. */
  lemma {:induction false} RunStaysLocal(rows: Rows, ops: seq<Op>, tenant: string, p: Placement, fee: FeeId)
    requires forall i :: 0 <= i < |ops| ==>
               var slot := if ops[i].Put? then SlotOf(ops[i].rule) else ops[i].slot;
               ops[i].tenant != tenant || slot.fee != fee || !SlotReaches(slot, p)
    ensures Chosen(RulesFor(Run(rows, ops), tenant), p, fee) == Chosen(RulesFor(rows, tenant), p, fee)
  {
    if ops != [] {
      RunStaysLocal(rows, ops[..|ops| - 1], tenant, p, fee);
      WritesStayLocal(Run(rows, ops[..|ops| - 1]), ops[|ops| - 1], tenant, p, fee);
    }
  }

  /** After any run of writes, what a store resolves, from any listing of its tenant's rules, is each fee's
      own, brand's or tenant's rule: once, in fee order, and for exactly the fees that have one. */
  lemma RunResolves(ops: seq<Op>, tenant: string, p: Placement, list: seq<FeeRule>, resolved: seq<FeeRule>)
    requires ListsRules(list, RulesFor(Run(map[], ops), tenant)) && ListsWinners(resolved, list, p)
    ensures forall i :: 0 <= i < |resolved| ==>
              Chosen(RulesFor(Run(map[], ops), tenant), p, resolved[i].rule.fee) == Some(resolved[i])
    ensures forall i, j :: 0 <= i < j < |resolved| ==> resolved[i].rule.fee < resolved[j].rule.fee
    ensures forall fee: FeeId :: Chosen(RulesFor(Run(map[], ops), tenant), p, fee).Some? ==>
              exists i :: 0 <= i < |resolved| && resolved[i].rule.fee == fee
  {
    RunValid(map[], ops);
    var rules := RulesFor(Run(map[], ops), tenant);
    assert Slotted(rules);
    hide Run, Chosen, Winner, Slotted;
    forall fee: FeeId ensures Winner(list, p, fee) == Chosen(rules, p, fee) { WinnerIsChosen(list, rules, p, fee); }
  }

  /** The rows after a rule is put and its slot deleted again. */
  function PutThenDeleted(rows: Rows, tenant: string, rule: FeeRule): Rows {
    Applied(Applied(rows, Op.Put(tenant, rule)), Op.Delete(tenant, SlotOf(rule)))
  }

  lemma SlotAlone(rows: Rows, tenant: string, rule: FeeRule, other: Slot)
    requires Accepts(rows, tenant, rule)
    ensures Lookup(RulesFor(Applied(rows, Op.Put(tenant, rule)), tenant), other) ==
            if other == SlotOf(rule) then Some(rule) else Lookup(RulesFor(rows, tenant), other)
    ensures Lookup(RulesFor(PutThenDeleted(rows, tenant, rule), tenant), other) ==
            if other == SlotOf(rule) then None else Lookup(RulesFor(rows, tenant), other)
  {
  }

  /** A store's rule stored runs there; deleted, the store is handed back its brand's or its tenant's. */
  lemma StoreRuleOverridesThenHandsBack(rows: Rows, tenant: string, rule: FeeRule, p: Placement)
    requires rule.scope == Store && rule.scopeId == p.store && Accepts(rows, tenant, rule)
    ensures Chosen(RulesFor(Applied(rows, Op.Put(tenant, rule)), tenant), p, rule.rule.fee) == Some(rule)
    ensures Chosen(RulesFor(PutThenDeleted(rows, tenant, rule), tenant), p, rule.rule.fee)
            == Inherited(RulesFor(rows, tenant), p, rule.rule.fee)
  {
    hide Applied, PutThenDeleted, RulesFor, Lookup;
    forall other { SlotAlone(rows, tenant, rule, other); }
  }

  /** A brand's rule stored runs at every store of the brand without its own; deleted, each of them is handed back
      its tenant's, and a store with its own rule runs that throughout. */
  lemma BrandRuleOverridesThenHandsBack(rows: Rows, tenant: string, rule: FeeRule, p: Placement)
    requires rule.scope == Brand && p.brand == Some(rule.scopeId) && Accepts(rows, tenant, rule)
    ensures var own := Lookup(RulesFor(rows, tenant), Slot(Store, p.store, rule.rule.fee));
            && Chosen(RulesFor(Applied(rows, Op.Put(tenant, rule)), tenant), p, rule.rule.fee)
               == (if own.Some? then own else Some(rule))
            && Chosen(RulesFor(PutThenDeleted(rows, tenant, rule), tenant), p, rule.rule.fee)
               == (if own.Some? then own else Lookup(RulesFor(rows, tenant), Slot(Tenant, p.tenant, rule.rule.fee)))
  {
    hide Applied, PutThenDeleted, RulesFor, Lookup;
    forall other { SlotAlone(rows, tenant, rule, other); }
  }
}

/**
 The kitchen display: optimistic updates of order items, the batch sent when the socket is down,
 and the three columns.
 */
module Kitchen {
  import opened Text

  datatype ItemStatus = WaitingItem | PreparingItem | ReadyItem

  datatype OrderStatus = Pending | Confirmed | Preparing | Ready | Completed | Cancelled

  datatype Item = Item(id: string, status: ItemStatus)

  datatype Order = Order(id: string, status: OrderStatus, items: seq<Item>)

  datatype Stage = WaitingStage | PreparingStage | ReadyStage

  /** Statuses as the server spells them; DONE is an old name for READY, anything unknown is WAITING. */
  function NormalizeItemStatus(status: string): ItemStatus {
    var s := ToUpper(Trim(status));
    if s == "DONE" || s == "READY" then ReadyItem
    else if s == "PREPARING" then PreparingItem
    else WaitingItem
  }

  function Spelled(status: ItemStatus): string {
    match status
    case WaitingItem => "WAITING"
    case PreparingItem => "PREPARING"
    case ReadyItem => "READY"
  }

  lemma UpperCaseStays(s: string)
    requires forall i :: 0 <= i < |s| ==> !('a' <= s[i] <= 'z')
    ensures ToUpper(s) == s
  {
  }

  /** Every status survives its spelling. */
  lemma SpellingReadsBack(status: ItemStatus)
    ensures NormalizeItemStatus(Spelled(status)) == status
  {
    hide ToUpper, Trim;
    UpperCaseStays(Spelled(status));
  }

  lemma UpperCaseWord(word: string)
    requires word in {"DONE", "READY", "PREPARING"}
    ensures forall i :: 0 <= i < |word| ==> !('a' <= word[i] <= 'z')
  {
  }

  /** Exactly which texts are read as which status, outer blanks and case aside. */
  lemma StatusReadIff(status: string)
    ensures var s := Trim(status);
            && (NormalizeItemStatus(status) == ReadyItem <==>
                  MatchesIgnoringCase(s, "DONE") || MatchesIgnoringCase(s, "READY"))
            && (NormalizeItemStatus(status) == PreparingItem <==> MatchesIgnoringCase(s, "PREPARING"))
  {
    hide ToUpper, Trim, MatchesIgnoringCase;
    var s := Trim(status);
    forall word | word in {"DONE", "READY", "PREPARING"} ensures ToUpper(s) == word <==> MatchesIgnoringCase(s, word) {
      UpperCaseWord(word);
      ToUpperIff(s, word);
    }
    assert "DONE" in {"DONE", "READY", "PREPARING"} && "READY" in {"DONE", "READY", "PREPARING"};
    assert |"PREPARING"| == 9;
  }

  predicate AllReady(items: seq<Item>) {
    forall i :: 0 <= i < |items| ==> items[i].status == ReadyItem
  }

  predicate AnyPreparing(items: seq<Item>) {
    exists i :: 0 <= i < |items| && items[i].status == PreparingItem
  }

  function OrderKdsStage(o: Order): Stage {
    if o.status == Ready then ReadyStage
    else if o.status == Preparing || AnyPreparing(o.items) then PreparingStage
    else WaitingStage
  }

  /** The column of an order: a READY order is done whatever its items; any other is in preparation as
      soon as it or one of its items is. */
  lemma StageIff(o: Order)
    ensures OrderKdsStage(o) == ReadyStage <==> o.status == Ready
    ensures OrderKdsStage(o) == PreparingStage <==>
      o.status == Preparing
      || (o.status != Ready && exists i :: 0 <= i < |o.items| && o.items[i].status == PreparingItem)
  {
  }

  // ----- the optimistic update -----

  /** The new status of the matching items: PREPARING or READY. */
  type Target = s: ItemStatus | s != WaitingItem witness ReadyItem

  function MarkItems(items: seq<Item>, p: Item -> bool, target: Target): (r: seq<Item>)
    ensures |r| == |items|
    ensures forall i :: 0 <= i < |items| ==> r[i] == if p(items[i]) then items[i].(status := target) else items[i]
  {
    seq(|items|, i requires 0 <= i < |items| => if p(items[i]) then items[i].(status := target) else items[i])
  }

  function MarkOrder(o: Order, p: Item -> bool, target: Target): Order {
    var items := MarkItems(o.items, p, target);
    var status := if items != [] && AllReady(items) then Ready
                  else if AnyPreparing(items) then Preparing
                  else o.status;
    Order(o.id, status, items)
  }

  function ApplyLocalItemStatus(orders: seq<Order>, orderId: string, p: Item -> bool, target: Target): (r: seq<Order>)
    ensures |r| == |orders|
    ensures forall i :: 0 <= i < |orders| ==>
      r[i] == if orders[i].id == orderId then MarkOrder(orders[i], p, target) else orders[i]
  {
    seq(|orders|, i requires 0 <= i < |orders| =>
      if orders[i].id == orderId then MarkOrder(orders[i], p, target) else orders[i])
  }

  /** A READY order has only READY items. */
  ghost predicate Consistent(orders: seq<Order>) {
    forall i :: 0 <= i < |orders| && orders[i].status == Ready ==> AllReady(orders[i].items)
  }

  /** Every local update keeps this, whichever items it marks, and leaves the other orders alone. */
  lemma LocalUpdateConsistent(orders: seq<Order>, orderId: string, p: Item -> bool, target: Target)
    requires Consistent(orders)
    ensures var after := ApplyLocalItemStatus(orders, orderId, p, target);
            && Consistent(after)
            && forall i :: 0 <= i < |orders| && orders[i].id != orderId ==> after[i] == orders[i]
  {
    var after := ApplyLocalItemStatus(orders, orderId, p, target);
    forall i | 0 <= i < |after| && after[i].status == Ready ensures AllReady(after[i].items) {
      if orders[i].id == orderId { MarkedReady(orders[i], p, target); }
    }
  }

  /** When an update leaves an order READY: all its items are READY, and there are some or it was
      READY before. */
  lemma MarkedReady(o: Order, p: Item -> bool, target: Target)
    requires o.status == Ready ==> AllReady(o.items)
    ensures MarkOrder(o, p, target).status == Ready <==>
      AllReady(MarkOrder(o, p, target).items) && (o.items != [] || o.status == Ready)
  {
    var after := MarkOrder(o, p, target);
    if o.items != [] && !AllReady(after.items) && o.status == Ready {
      var i :| 0 <= i < |after.items| && after.items[i].status != ReadyItem;
      assert o.items[i].status == ReadyItem;
      assert AnyPreparing(after.items);
    }
  }

  /** An update marks exactly the matching items, and the order becomes READY when all of its items
      are, PREPARING when some item is, and otherwise stays as it was. */
  lemma MarkedOrder(o: Order, p: Item -> bool, target: Target)
    ensures var after := MarkOrder(o, p, target);
            && after.id == o.id && |after.items| == |o.items|
            && (forall i :: 0 <= i < |o.items| ==>
                  after.items[i] == if p(o.items[i]) then Item(o.items[i].id, target) else o.items[i])
            && (o.items != [] && (forall i :: 0 <= i < |o.items| ==> after.items[i].status == ReadyItem) ==>
                  after.status == Ready)
            && ((exists i :: 0 <= i < |o.items| && after.items[i].status == PreparingItem) ==>
                  after.status == Preparing)
            && ((forall i :: 0 <= i < |o.items| ==> after.items[i].status == WaitingItem) ==>
                  after.status == o.status)
            && (after.status == o.status || after.status == Ready || after.status == Preparing)
  {
    var after := MarkOrder(o, p, target);
    if o.items != [] && forall i :: 0 <= i < |o.items| ==> after.items[i].status == WaitingItem {
      assert after.items[0].status == WaitingItem;
    }
  }

  // ----- the guarded steps of the page -----

  datatype KdsStep =
    | StartItem(orderId: string, itemId: string)
    | CompleteItem(orderId: string, itemId: string)
    | StartOrder(orderId: string)
    | CompleteOrder(orderId: string)

  function ById(itemId: string): Item -> bool { (item: Item) => item.id == itemId }

  function IsWaiting(): Item -> bool { (item: Item) => item.status == WaitingItem }

  function NotReady(): Item -> bool { (item: Item) => item.status != ReadyItem }

  /** When the page offers the step: the buttons depend on the status of the item or the order. */
  ghost predicate Enabled(orders: seq<Order>, step: KdsStep) {
    forall i :: 0 <= i < |orders| && orders[i].id == step.orderId ==>
      match step
      case StartItem(_, itemId) => ItemsHave(orders[i].items, itemId, WaitingItem)
      case CompleteItem(_, itemId) => ItemsHave(orders[i].items, itemId, PreparingItem)
      case StartOrder(_) => OrderKdsStage(orders[i]) == WaitingStage
      case CompleteOrder(_) => orders[i].status == Ready && AllReady(orders[i].items)
  }

  ghost predicate ItemsHave(items: seq<Item>, itemId: string, status: ItemStatus) {
    forall i :: 0 <= i < |items| && items[i].id == itemId ==> items[i].status == status
  }

  function Matches(step: KdsStep): Item -> bool {
    match step
    case StartItem(_, itemId) => ById(itemId)
    case CompleteItem(_, itemId) => ById(itemId)
    case StartOrder(_) => IsWaiting()
    case CompleteOrder(_) => NotReady()
  }

  function TargetOf(step: KdsStep): Target {
    if step.StartItem? || step.StartOrder? then PreparingItem else ReadyItem
  }

  function Perform(orders: seq<Order>, step: KdsStep): seq<Order> {
    ApplyLocalItemStatus(orders, step.orderId, Matches(step), TargetOf(step))
  }

  /** What each step does to each item of each order. */
  lemma StepMarks(orders: seq<Order>, step: KdsStep, n: nat, i: nat)
    requires n < |orders| && i < |orders[n].items|
    ensures var before, after := orders[n].items[i], Perform(orders, step)[n];
            && |after.items| == |orders[n].items| && after.items[i].id == before.id
            && var to := match step
               case StartItem(_, itemId) => if before.id == itemId then PreparingItem else before.status
               case CompleteItem(_, itemId) => if before.id == itemId then ReadyItem else before.status
               case StartOrder(_) => if before.status == WaitingItem then PreparingItem else before.status
               case CompleteOrder(_) => ReadyItem;
               after.items[i].status == if orders[n].id == step.orderId then to else before.status
  {
  }

  // ----- progress -----

  function Rank(s: ItemStatus): nat {
    match s case WaitingItem => 0 case PreparingItem => 1 case ReadyItem => 2
  }

  function ItemRank(items: seq<Item>): nat {
    if items == [] then 0 else ItemRank(items[..|items| - 1]) + Rank(items[|items| - 1].status)
  }

  function TotalRank(orders: seq<Order>): nat {
    if orders == [] then 0 else TotalRank(orders[..|orders| - 1]) + ItemRank(orders[|orders| - 1].items)
  }

  function ItemCount(orders: seq<Order>): nat {
    if orders == [] then 0 else ItemCount(orders[..|orders| - 1]) + |orders[|orders| - 1].items|
  }

  /** The items of an order keep their ids and places, and no rank falls. */
  ghost predicate Advances(a: seq<Item>, b: seq<Item>) {
    |a| == |b| && forall i :: 0 <= i < |a| ==> a[i].id == b[i].id && Rank(a[i].status) <= Rank(b[i].status)
  }

  lemma {:induction false} ItemRankAdvances(a: seq<Item>, b: seq<Item>)
    requires Advances(a, b)
    ensures ItemRank(a) <= ItemRank(b)
    ensures a != b ==> ItemRank(a) < ItemRank(b)
    ensures ItemRank(b) <= 2 * |b|
  {
    if a != [] {
      var n := |a| - 1;
      ItemRankAdvances(a[..n], b[..n]);
      assert a == a[..n] + [a[n]] && b == b[..n] + [b[n]];
    }
  }

  lemma GuardedStepAdvances(orders: seq<Order>, step: KdsStep)
    requires Enabled(orders, step)
    ensures forall i :: 0 <= i < |orders| ==>
      Advances(orders[i].items, Perform(orders, step)[i].items) && Perform(orders, step)[i].id == orders[i].id
  {
  }

  lemma {:induction false} TotalRankAdvances(a: seq<Order>, b: seq<Order>)
    requires |a| == |b| && forall i :: 0 <= i < |a| ==> Advances(a[i].items, b[i].items)
    ensures TotalRank(a) <= TotalRank(b) <= 2 * ItemCount(b) && ItemCount(a) == ItemCount(b)
    ensures (exists i :: 0 <= i < |a| && a[i].items != b[i].items) ==> TotalRank(a) < TotalRank(b)
  {
    if a != [] {
      var n := |a| - 1;
      var fa, fb := a[..n], b[..n];
      assert forall i :: 0 <= i < n ==> fa[i] == a[i] && fb[i] == b[i];
      TotalRankAdvances(fa, fb);
      assert Advances(a[n].items, b[n].items);
      ItemRankAdvances(a[n].items, b[n].items);
    }
  }

  /** The step changes some item. */
  ghost predicate Effective(orders: seq<Order>, step: KdsStep) {
    exists i :: 0 <= i < |orders| && Perform(orders, step)[i].items != orders[i].items
  }

  function Run(orders: seq<Order>, steps: seq<KdsStep>): seq<Order> {
    if steps == [] then orders else Perform(Run(orders, steps[..|steps| - 1]), steps[|steps| - 1])
  }

  ghost predicate GuardedRun(orders: seq<Order>, steps: seq<KdsStep>) {
    forall n :: 0 <= n < |steps| ==> Enabled(Run(orders, steps[..n]), steps[n])
  }

  function CountEffective(flags: seq<bool>): nat {
    if flags == [] then 0 else CountEffective(flags[..|flags| - 1]) + if flags[|flags| - 1] then 1 else 0
  }

  ghost function EffectiveFlags(orders: seq<Order>, steps: seq<KdsStep>): (flags: seq<bool>)
    ensures |flags| == |steps|
  {
    seq(|steps|, n requires 0 <= n < |steps| => Effective(Run(orders, steps[..n]), steps[n]))
  }

  /**
   In a run of guarded steps the items only move forward, so at most two steps per item have an
   effect, however long the run is; consistency holds throughout.
   */
  lemma {:induction false} RunsProgress(orders: seq<Order>, steps: seq<KdsStep>)
    requires GuardedRun(orders, steps)
    ensures ItemCount(Run(orders, steps)) == ItemCount(orders)
    ensures TotalRank(orders) + CountEffective(EffectiveFlags(orders, steps)) <= TotalRank(Run(orders, steps))
    ensures CountEffective(EffectiveFlags(orders, steps)) <= 2 * ItemCount(orders)
    ensures Consistent(orders) ==> Consistent(Run(orders, steps))
  {
    hide Perform, Advances, Enabled, Consistent, GuardedRun, EffectiveFlags, Effective, TotalRank, ItemCount;
    if steps == [] {
      RankBound(orders);
    } else {
      var n := |steps| - 1;
      GuardedFront(orders, steps);
      RunsProgress(orders, steps[..n]);
      FlagsGrow(orders, steps);
      StepProgress(Run(orders, steps[..n]), steps[n]);
    }
  }

  lemma GuardedFront(orders: seq<Order>, steps: seq<KdsStep>)
    requires GuardedRun(orders, steps) && steps != []
    ensures var n := |steps| - 1; GuardedRun(orders, steps[..n]) && Enabled(Run(orders, steps[..n]), steps[n])
  {
    hide Run, Enabled;
    var front := steps[..|steps| - 1];
    assert forall k :: 0 <= k < |front| ==> front[..k] == steps[..k] && front[k] == steps[k];
  }

  lemma FlagsGrow(orders: seq<Order>, steps: seq<KdsStep>)
    requires steps != []
    ensures var n, flags := |steps| - 1, EffectiveFlags(orders, steps);
            flags[..n] == EffectiveFlags(orders, steps[..n]) && flags[n] == Effective(Run(orders, steps[..n]), steps[n])
  {
    hide Run, Effective;
    var front := steps[..|steps| - 1];
    assert forall k :: 0 <= k < |front| ==> front[..k] == steps[..k] && front[k] == steps[k];
  }

  lemma StepProgress(orders: seq<Order>, step: KdsStep)
    requires Enabled(orders, step)
    ensures var after := Perform(orders, step);
            && ItemCount(after) == ItemCount(orders)
            && TotalRank(orders) + (if Effective(orders, step) then 1 else 0) <= TotalRank(after)
            && TotalRank(after) <= 2 * ItemCount(orders)
            && (Consistent(orders) ==> Consistent(after))
  {
    GuardedStepAdvances(orders, step);
    TotalRankAdvances(orders, Perform(orders, step));
    if Consistent(orders) { LocalUpdateConsistent(orders, step.orderId, Matches(step), TargetOf(step)); }
  }

  lemma RankBound(orders: seq<Order>)
    ensures TotalRank(orders) <= 2 * ItemCount(orders)
  {
    TotalRankAdvances(orders, orders);
  }

  /** An unguarded update can move an item back, so the guards are needed. */
  lemma UnguardedCanRegress(orderId: string, itemId: string)
    ensures var before := [Order(orderId, Ready, [Item(itemId, ReadyItem)])];
            var after := Perform(before, StartItem(orderId, itemId));
            TotalRank(after) < TotalRank(before) && after[0].status == Preparing
  {
    var before := [Order(orderId, Ready, [Item(itemId, ReadyItem)])];
    var after := Perform(before, StartItem(orderId, itemId));
    assert after[0].items == [Item(itemId, PreparingItem)];
    assert AnyPreparing(after[0].items) by { assert after[0].items[0].status == PreparingItem; }
    assert after == [after[0]];
    assert [Item(itemId, ReadyItem)][..0] == [] && [Item(itemId, PreparingItem)][..0] == [];
    assert before[..0] == [] && after[..0] == [];
  }

  /** `completeOrder` asks for an order that is READY with READY items, so it never changes anything. */
  lemma CompleteOrderChangesNothing(orders: seq<Order>, orderId: string)
    requires Enabled(orders, CompleteOrder(orderId))
    ensures Perform(orders, CompleteOrder(orderId)) == orders
    ensures forall i :: 0 <= i < |orders| && orders[i].id == orderId ==> Batch(orders[i], ReadyItem) == []
  {
    var after := Perform(orders, CompleteOrder(orderId));
    forall i | 0 <= i < |orders| ensures after[i] == orders[i] {
      if orders[i].id == orderId {
        assert after[i].items == orders[i].items;
      }
    }
    forall i | 0 <= i < |orders| && orders[i].id == orderId ensures Batch(orders[i], ReadyItem) == [] {
      NothingToSend(orders[i].items);
    }
  }

  // ----- the batch sent over REST -----

  datatype Update = Update(itemId: string, status: ItemStatus)

  predicate Sends(item: Item, target: Target) {
    if target == PreparingItem then item.status == WaitingItem else item.status != ReadyItem
  }

  function BatchOf(items: seq<Item>, target: Target): seq<Update> {
    if items == [] then []
    else BatchOf(items[..|items| - 1], target) +
         if Sends(items[|items| - 1], target) then [Update(items[|items| - 1].id, target)] else []
  }

  function Batch(order: Order, target: Target): seq<Update> { BatchOf(order.items, target) }

  lemma {:induction false} NothingToSend(items: seq<Item>)
    requires AllReady(items)
    ensures BatchOf(items, ReadyItem) == []
  {
    if items != [] { NothingToSend(items[..|items| - 1]); }
  }

  /** The items an update changed, in order. */
  function ChangedItems(before: seq<Item>, after: seq<Item>): seq<Update>
    requires |before| == |after|
  {
    if before == [] then []
    else
      var n := |before| - 1;
      ChangedItems(before[..n], after[..n]) +
      if before[n] != after[n] then [Update(after[n].id, after[n].status)] else []
  }

  /** The items the local update of the whole order marks. */
  function WholeOrder(target: Target): Item -> bool {
    if target == PreparingItem then IsWaiting() else NotReady()
  }

  /** The batch names exactly the items the local update changes, with their new status, in order. */
  lemma {:induction false} BatchIsLocalChange(items: seq<Item>, target: Target)
    ensures BatchOf(items, target) == ChangedItems(items, MarkItems(items, WholeOrder(target), target))
  {
    if items != [] {
      var n := |items| - 1;
      BatchIsLocalChange(items[..n], target);
      assert MarkItems(items, WholeOrder(target), target)[..n] == MarkItems(items[..n], WholeOrder(target), target);
    }
  }

  /** What a server does with a batch: set the status of every named item. */
  function Patched(items: seq<Item>, updates: seq<Update>): (r: seq<Item>)
    ensures |r| == |items|
  {
    seq(|items|, i requires 0 <= i < |items| => items[i].(status := LastStatus(items[i], updates)))
  }

  function LastStatus(item: Item, updates: seq<Update>): ItemStatus {
    if updates == [] then item.status
    else if updates[|updates| - 1].itemId == item.id then updates[|updates| - 1].status
    else LastStatus(item, updates[..|updates| - 1])
  }

  ghost predicate DistinctItems(items: seq<Item>) {
    forall i, j :: 0 <= i < j < |items| ==> items[i].id != items[j].id
  }

  lemma {:induction false} BatchStatus(items: seq<Item>, target: Target, item: Item)
    ensures LastStatus(item, BatchOf(items, target)) ==
      if exists i :: 0 <= i < |items| && items[i].id == item.id && Sends(items[i], target) then target else item.status
  {
    if items != [] {
      var n := |items| - 1;
      var front := items[..n];
      assert forall i :: 0 <= i < n ==> front[i] == items[i];
      BatchStatus(front, target, item);
      if Sends(items[n], target) {
        assert BatchOf(items, target)[..|BatchOf(front, target)|] == BatchOf(front, target);
      } else {
        assert BatchOf(items, target) == BatchOf(front, target);
      }
    }
  }

  /** Sending the batch and updating locally come to the same items. */
  lemma BatchAgreesWithLocal(items: seq<Item>, target: Target)
    requires DistinctItems(items)
    ensures Patched(items, BatchOf(items, target)) == MarkItems(items, WholeOrder(target), target)
  {
    var patched, marked := Patched(items, BatchOf(items, target)), MarkItems(items, WholeOrder(target), target);
    forall i | 0 <= i < |items| ensures patched[i] == marked[i] {
      BatchStatus(items, target, items[i]);
      assert WholeOrder(target)(items[i]) == Sends(items[i], target);
    }
  }

  // ----- the columns -----

  function OfStage(orders: seq<Order>, stage: Stage): seq<Order> {
    if orders == [] then []
    else OfStage(orders[..|orders| - 1], stage) +
         if OrderKdsStage(orders[|orders| - 1]) == stage then [orders[|orders| - 1]] else []
  }

  method KdsColumns(orders: seq<Order>) returns (waiting: seq<Order>, preparing: seq<Order>, ready: seq<Order>)
    ensures waiting == OfStage(orders, WaitingStage)
    ensures preparing == OfStage(orders, PreparingStage)
    ensures ready == OfStage(orders, ReadyStage)
  {
    waiting, preparing, ready := [], [], [];
    for i := 0 to |orders|
      invariant waiting == OfStage(orders[..i], WaitingStage)
      invariant preparing == OfStage(orders[..i], PreparingStage)
      invariant ready == OfStage(orders[..i], ReadyStage)
    {
      assert orders[..i + 1][..i] == orders[..i];
      match OrderKdsStage(orders[i]) {
        case WaitingStage => waiting := waiting + [orders[i]];
        case PreparingStage => preparing := preparing + [orders[i]];
        case ReadyStage => ready := ready + [orders[i]];
      }
    }
    assert orders[..|orders|] == orders;
  }

  /** Positions of the orders a column shows. */
  function Positions(orders: seq<Order>, stage: Stage): seq<nat> {
    if orders == [] then []
    else Positions(orders[..|orders| - 1], stage) +
         if OrderKdsStage(orders[|orders| - 1]) == stage then [|orders| - 1] else []
  }

  /** A column shows exactly the orders of its stage, once each and in their relative order. */
  lemma {:induction false} ColumnPositions(orders: seq<Order>, stage: Stage)
    ensures var c, p := OfStage(orders, stage), Positions(orders, stage);
            && |c| == |p|
            && (forall i :: 0 <= i < |p| ==> p[i] < |orders| && c[i] == orders[p[i]])
            && (forall i, j :: 0 <= i < j < |p| ==> p[i] < p[j])
            && (forall n :: 0 <= n < |orders| ==> (n in p <==> OrderKdsStage(orders[n]) == stage))
  {
    hide OrderKdsStage, OfStage, Positions;
    ColumnGrows(orders, stage);
    if orders != [] {
      var n := |orders| - 1;
      var front := orders[..n];
      var p, before := Positions(orders, stage), Positions(front, stage);
      ColumnPositions(front, stage);
      forall m | 0 <= m < |orders| ensures m in p <==> OrderKdsStage(orders[m]) == stage {
        if m < n {
          assert front[m] == orders[m];
          assert m in p <==> m in before;
        } else {
          assert n !in before;
        }
      }
    }
  }

  lemma ColumnGrows(orders: seq<Order>, stage: Stage)
    ensures orders == [] ==> OfStage(orders, stage) == [] && Positions(orders, stage) == []
    ensures orders != [] ==>
      var n := |orders| - 1;
      if OrderKdsStage(orders[n]) == stage then
        && OfStage(orders, stage) == OfStage(orders[..n], stage) + [orders[n]]
        && Positions(orders, stage) == Positions(orders[..n], stage) + [n]
      else
        && OfStage(orders, stage) == OfStage(orders[..n], stage)
        && Positions(orders, stage) == Positions(orders[..n], stage)
  {
    hide OrderKdsStage;
  }

  lemma ColumnStep(orders: seq<Order>, stage: Stage)
    requires orders != []
    ensures var last := orders[|orders| - 1];
            multiset(OfStage(orders, stage)) == multiset(OfStage(orders[..|orders| - 1], stage)) +
              if OrderKdsStage(last) == stage then multiset{last} else multiset{}
  {
  }

  lemma NoColumns()
    ensures forall stage :: OfStage([], stage) == []
  {
  }

  /** The three columns together are all orders. */
  lemma {:induction false} ColumnsPartition(orders: seq<Order>)
    ensures multiset(OfStage(orders, WaitingStage)) + multiset(OfStage(orders, PreparingStage))
          + multiset(OfStage(orders, ReadyStage)) == multiset(orders)
  {
    hide OrderKdsStage, OfStage;
    NoColumns();
    if orders != [] {
      var n := |orders| - 1;
      ColumnsPartition(orders[..n]);
      ColumnStep(orders, WaitingStage);
      ColumnStep(orders, PreparingStage);
      ColumnStep(orders, ReadyStage);
      assert orders == orders[..n] + [orders[n]];
      match OrderKdsStage(orders[n]) case WaitingStage => case PreparingStage => case ReadyStage =>
    }
  }
}

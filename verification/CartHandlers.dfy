/**
 The cart handlers of the customer page, each a step on the session (cart, drafts, menu), and
 what every run of them keeps.
 */
module CartHandlers {
  import opened Numbers
  import opened Text
  import opened OrderedDict
  import opened Selections
  import opened Cart
  import opened Storage
  import opened Reconcile

  datatype Draft = Draft(note: string, selections: CartSelections)

  datatype Session = Session(cart: CartMap, drafts: map<string, Draft>, menu: Menu)

  datatype OrderItem = OrderItem(menuItemId: string, quantity: int, note: string, selections: CartSelections)

  datatype Action =
    | Increase(item: string)
    | Decrease(item: string)
    | IncreaseLine(key: LineKey)
    | DecreaseLine(key: LineKey)
    | RemoveLine(key: LineKey)
    | AddCustomized(item: string, chosen: CartSelections, note: string, quantity: int)
    | UpdateSelection(item: string, group: string, value: SelectionValue)
    | UpdateNote(item: string, note: string)
    | LoadMenu(menu: Menu)
    | DropUnavailable(ids: set<string>)
    | EditOrder(ordered: seq<OrderItem>, pending: bool, paid: bool)
    | LoadSnapshot(items: seq<SnapshotItem>)
    | LoadRecord(source: seq<SourceEntry>)
    | Clear

  // ----- drafts -----

  function DefaultSelections(groups: seq<Group>): CartSelections {
    if groups == [] then map[]
    else
      var g := groups[|groups| - 1];
      DefaultSelections(groups[..|groups| - 1])[g.id := if g.kind == Multi then Many([]) else One(DefaultValue(g))]
  }

  function DraftFor(s: Session, item: string): Draft {
    var known := LookupItem(s.menu, item);
    if item in s.drafts then
      Draft(s.drafts[item].note, SanitizeSelectionsForMenuItem(known, s.drafts[item].selections))
    else
      Draft("", NormalizeSelections(if known.Some? then DefaultSelections(known.value.customizations) else map[]))
  }

  function BranchIdOf(menu: Menu, item: string): string {
    if item in menu then menu[item].branchMenuItemId else ""
  }

  // ----- handlers on the cart -----

  function IncreaseCart(s: Session, item: string): CartMap {
    var draft := DraftFor(s, item);
    var selections := NormalizeSelections(draft.selections);
    var key := BuildCartLineKey(item, selections, draft.note);
    Put(s.cart, key,
      CartItem(BranchIdOf(s.menu, item), item, Held(s.cart, key) + 1, draft.note, selections))
  }

  function IncreaseLineCart(cart: CartMap, key: LineKey): CartMap {
    match Find(cart, key)
    case None => cart
    case Some(line) => Put(cart, key, line.(quantity := line.quantity + 1))
  }

  function DecreaseLineCart(cart: CartMap, key: LineKey): CartMap {
    match Find(cart, key)
    case None => cart
    case Some(line) => if line.quantity <= 1 then cart else Put(cart, key, line.(quantity := line.quantity - 1))
  }

  /** The first line of an item in cart order. */
  function FirstLineOf(cart: CartMap, item: string): (r: Option<Line>)
    ensures r.Some? ==> r.value in cart && r.value.value.menuItemId == item && r.value.value.quantity > 0
    ensures r.None? ==> forall i :: 0 <= i < |cart| ==>
      !(cart[i].value.menuItemId == item && cart[i].value.quantity > 0)
  {
    if cart == [] then None
    else if cart[0].value.menuItemId == item && cart[0].value.quantity > 0 then Some(cart[0])
    else
      assert cart == [cart[0]] + cart[1..];
      FirstLineOf(cart[1..], item)
  }

  /** The line `decrease` acts on: the one matching the draft, otherwise the first of the item. */
  function DecreaseTarget(s: Session, item: string): Option<Line> {
    var draft := DraftFor(s, item);
    var preferred := BuildCartLineKey(item, draft.selections, draft.note);
    match Find(s.cart, preferred)
    case Some(line) => Some(Entry(preferred, line))
    case None => FirstLineOf(s.cart, item)
  }

  function DecreaseCart(s: Session, item: string): CartMap {
    match DecreaseTarget(s, item)
    case None => s.cart
    case Some(e) =>
      if e.value.quantity <= 1 then Remove(s.cart, e.key)
      else Put(s.cart, e.key, e.value.(quantity := e.value.quantity - 1))
  }

  /** Some single group has no non-blank choice. */
  predicate MissingRequired(groups: seq<Group>, chosen: CartSelections) {
    exists i :: 0 <= i < |groups| && groups[i].kind == Single && Trim(AsText(Lookup(chosen, groups[i].id))) == ""
  }

  function AddedKey(s: Session, item: string, chosen: CartSelections, note: string): LineKey {
    BuildCartLineKey(item, SanitizeSelectionsForMenuItem(LookupItem(s.menu, item), chosen), note)
  }

  predicate Accepts(s: Session, item: string, chosen: CartSelections) {
    item in s.menu && !MissingRequired(s.menu[item].customizations, chosen)
  }

  function AddCustomizedItem(s: Session, item: string, chosen: CartSelections, note: string, quantity: int): Session {
    if !Accepts(s, item, chosen) then s
    else
      var selections := SanitizeSelectionsForMenuItem(Some(s.menu[item]), chosen);
      var key := BuildCartLineKey(item, selections, note);
      s.(cart := Put(s.cart, key,
           CartItem(s.menu[item].branchMenuItemId, item, Held(s.cart, key) + Max(1, quantity), note, selections)),
         drafts := s.drafts[item := Draft(note, selections)])
  }

  function LoadMenuStep(s: Session, menu: Menu): Session {
    if menu == map[] then s.(menu := menu)
    else
      Session(Rebuilt(s.cart, menu),
        map item | item in s.drafts && Trim(item) in menu ::
          Draft(s.drafts[item].note, SanitizeSelectionsForMenuItem(Some(menu[Trim(item)]), s.drafts[item].selections)),
        menu)
  }

  function KeepAvailable(cart: CartMap, ids: set<string>): CartMap {
    if cart == [] then []
    else
      var last := cart[|cart| - 1];
      KeepAvailable(cart[..|cart| - 1], ids) + if Trim(last.value.menuItemId) in ids then [] else [last]
  }

  function OrderLine(item: OrderItem): (r: seq<Line>)
    ensures |r| == 1
  {
    var line := CartItem("", item.menuItemId, item.quantity, item.note, NormalizeSelections(item.selections));
    [Entry(KeyOf(line), line)]
  }

  function CartFromOrder(items: seq<OrderItem>): CartMap {
    Merge(Collect(items, OrderLine), KeepFirst)
  }

  function UpdateDraft(s: Session, item: string, d: Draft): Session {
    s.(drafts := s.drafts[item := d])
  }

  function Step(s: Session, a: Action): Session {
    match a
    case Increase(item) => s.(cart := IncreaseCart(s, item))
    case Decrease(item) => s.(cart := DecreaseCart(s, item))
    case IncreaseLine(key) => s.(cart := IncreaseLineCart(s.cart, key))
    case DecreaseLine(key) => s.(cart := DecreaseLineCart(s.cart, key))
    case RemoveLine(key) => s.(cart := Remove(s.cart, key))
    case AddCustomized(item, chosen, note, quantity) => AddCustomizedItem(s, item, chosen, note, quantity)
    case UpdateSelection(item, group, value) =>
      var d := DraftFor(s, item);
      UpdateDraft(s, item, d.(selections := d.selections[group := NormalizeSelectionValue(value)]))
    case UpdateNote(item, note) => UpdateDraft(s, item, DraftFor(s, item).(note := note))
    case LoadMenu(menu) => LoadMenuStep(s, menu)
    case DropUnavailable(ids) => s.(cart := KeepAvailable(s.cart, ids))
    case EditOrder(items, pending, paid) => if pending && !paid then s.(cart := CartFromOrder(items)) else s
    case LoadSnapshot(items) => s.(cart := RestoredFromSnapshot(items))
    case LoadRecord(source) => s.(cart := RestoredFromStorage(source))
    case Clear => s.(cart := [])
  }

  // ----- the invariant -----

  lemma PutGood(cart: CartMap, key: LineKey, line: CartItem)
    requires Good(cart) && GoodLine(Entry(key, line))
    ensures Good(Put(cart, key, line))
  {
  }

  lemma RemoveGood(cart: CartMap, key: LineKey)
    requires Good(cart)
    ensures Good(Remove(cart, key))
  {
    hide KeyOf, Canonical;
    var i, r := IndexOf(cart, key), Remove(cart, key);
    if i < |cart| {
      assert forall j :: 0 <= j < |r| ==> r[j] == if j < i then cart[j] else cart[j + 1];
    }
  }

  lemma FoundGood(cart: CartMap, key: LineKey)
    requires Good(cart) && Has(cart, key)
    ensures GoodLine(Entry(key, Find(cart, key).value))
  {
  }

  lemma KeyOfIncrease(s: Session, item: string, selections: CartSelections, note: string, branch: string, n: int)
    requires Canonical(selections) && n >= 1
    ensures GoodLine(Entry(BuildCartLineKey(item, selections, note), CartItem(branch, item, n, note, selections)))
  {
  }

  lemma HeldNonNegative(cart: CartMap, key: LineKey)
    requires Good(cart)
    ensures Held(cart, key) >= 0
    ensures Held(cart, key) > 0 <==> Has(cart, key)
  {
    if Has(cart, key) { FoundGood(cart, key); }
  }

  lemma TargetGood(s: Session, item: string)
    requires Good(s.cart) && DecreaseTarget(s, item).Some?
    ensures var e := DecreaseTarget(s, item).value;
            GoodLine(e) && Find(s.cart, e.key) == Some(e.value) && e.key.menuItemId == Trim(item)
  {
    var draft := DraftFor(s, item);
    var preferred := BuildCartLineKey(item, draft.selections, draft.note);
    if Has(s.cart, preferred) {
      FoundGood(s.cart, preferred);
    } else {
      var e := FirstLineOf(s.cart, item).value;
      var i :| 0 <= i < |s.cart| && s.cart[i] == e;
      assert e.key == KeyOf(e.value);
      assert IndexOf(s.cart, e.key) == i;
    }
  }

  lemma {:induction false} KeepAvailableSubset(cart: CartMap, ids: set<string>)
    ensures forall e :: e in KeepAvailable(cart, ids) ==> e in cart
  {
    if cart != [] {
      var front := cart[..|cart| - 1];
      KeepAvailableSubset(front, ids);
      assert cart == front + [cart[|cart| - 1]];
    }
  }

  lemma {:induction false} KeepAvailableGood(cart: CartMap, ids: set<string>)
    requires Good(cart)
    ensures Good(KeepAvailable(cart, ids))
  {
    hide KeyOf, Canonical, Trim;
    if cart != [] {
      var front, last := cart[..|cart| - 1], cart[|cart| - 1];
      assert forall j :: 0 <= j < |front| ==> front[j] == cart[j];
      KeepAvailableGood(front, ids);
      KeepAvailableSubset(front, ids);
      var before := KeepAvailable(front, ids);
      forall i | 0 <= i < |before| ensures before[i].key != last.key {
        assert before[i] in front;
      }
    }
  }

  lemma KeyOfItem(e: Line)
    requires e.key == KeyOf(e.value)
    ensures ForItem(Trim(e.value.menuItemId))(e.key)
    ensures forall m :: ForItem(m)(e.key) ==> m == Trim(e.value.menuItemId)
  {
  }

  lemma QuantityPush(lines: seq<Line>, e: Line, p: LineKey -> bool)
    ensures Quantity(lines + [e], p) == Quantity(lines, p) + if p(e.key) then e.value.quantity else 0
    ensures Quantity(lines + [], p) == Quantity(lines, p)
  {
    assert (lines + [e])[..|lines|] == lines;
    assert lines + [] == lines;
  }

  lemma {:induction false} KeepAvailableCount(cart: CartMap, ids: set<string>, m: string)
    requires Good(cart)
    ensures ItemCount(KeepAvailable(cart, ids), m) == if m in ids then 0 else ItemCount(cart, m)
  {
    hide KeyOf, Canonical, Trim, ForItem;
    if cart != [] {
      var front, last := cart[..|cart| - 1], cart[|cart| - 1];
      assert forall j :: 0 <= j < |front| ==> front[j] == cart[j];
      KeepAvailableCount(front, ids, m);
      QuantityPush(KeepAvailable(front, ids), last, ForItem(m));
      assert last.key == KeyOf(last.value);
      KeyOfItem(last);
    }
  }

  /** An order edit comes from the server; its items are taken to hold at least one of each. */
  ghost predicate Sane(a: Action) {
    a.EditOrder? ==> forall i :: 0 <= i < |a.ordered| ==> a.ordered[i].quantity >= 1
  }

  lemma StepKeepsGood(s: Session, a: Action)
    requires Good(s.cart) && Sane(a)
    ensures Good(Step(s, a).cart)
  {
    hide Good, Put, Remove, Find, FirstLineOf, BuildCartLineKey, NormalizeSelections, DraftFor, Rebuilt,
         RestoredFromSnapshot, RestoredFromStorage, KeepAvailable, SanitizeSelectionsForMenuItem, GoodLine, Merge;
    match a
    case Increase(item) => IncreaseGood(s, item);
    case Decrease(item) => DecreaseGood(s, item);
    case IncreaseLine(key) => LineStepsGood(s.cart, key);
    case DecreaseLine(key) => LineStepsGood(s.cart, key);
    case RemoveLine(key) => RemoveGood(s.cart, key);
    case AddCustomized(item, chosen, note, quantity) => AddGood(s, item, chosen, note, quantity);
    case UpdateSelection(_, _, _) =>
    case UpdateNote(_, _) =>
    case LoadMenu(menu) => RebuildGood(s.cart, menu);
    case DropUnavailable(ids) => KeepAvailableGood(s.cart, ids);
    case EditOrder(items, pending, paid) => OrderGood(items);
    case LoadSnapshot(items) => RestoredSnapshotGood(items);
    case LoadRecord(source) => RestoreConserves(source, LineKey("", map[], ""));
    case Clear => EmptyGood();
  }

  lemma EmptyGood()
    ensures Good([])
  {
  }

  lemma IncreaseGood(s: Session, item: string)
    requires Good(s.cart)
    ensures Good(IncreaseCart(s, item))
  {
    var draft := DraftFor(s, item);
    var selections := NormalizeSelections(draft.selections);
    var key := BuildCartLineKey(item, selections, draft.note);
    HeldNonNegative(s.cart, key);
    KeyOfIncrease(s, item, selections, draft.note, BranchIdOf(s.menu, item), Held(s.cart, key) + 1);
    PutGood(s.cart, key, CartItem(BranchIdOf(s.menu, item), item, Held(s.cart, key) + 1, draft.note, selections));
  }

  lemma DecreaseGood(s: Session, item: string)
    requires Good(s.cart)
    ensures Good(DecreaseCart(s, item))
  {
    var target := DecreaseTarget(s, item);
    if target.Some? {
      var e := target.value;
      TargetGood(s, item);
      RemoveGood(s.cart, e.key);
      if e.value.quantity > 1 { PutGood(s.cart, e.key, e.value.(quantity := e.value.quantity - 1)); }
    }
  }

  lemma LineStepsGood(cart: CartMap, key: LineKey)
    requires Good(cart)
    ensures Good(IncreaseLineCart(cart, key)) && Good(DecreaseLineCart(cart, key))
  {
    if Has(cart, key) {
      var line := Find(cart, key).value;
      FoundGood(cart, key);
      PutGood(cart, key, line.(quantity := line.quantity + 1));
      if line.quantity > 1 { PutGood(cart, key, line.(quantity := line.quantity - 1)); }
    }
  }

  lemma ItemAccepted(s: Session, item: string, chosen: CartSelections)
    requires Accepts(s, item, chosen)
    ensures item in s.menu
  {
  }

  lemma AddGood(s: Session, item: string, chosen: CartSelections, note: string, quantity: int)
    requires Good(s.cart)
    ensures Good(AddCustomizedItem(s, item, chosen, note, quantity).cart)
  {
    hide SanitizeSelectionsForMenuItem, BuildCartLineKey, Accepts, Good, GoodLine, Find, Put;
    if Accepts(s, item, chosen) {
      ItemAccepted(s, item, chosen);
      var selections := SanitizeSelectionsForMenuItem(Some(s.menu[item]), chosen);
      var key := BuildCartLineKey(item, selections, note);
      var n := Held(s.cart, key) + Max(1, quantity);
      HeldNonNegative(s.cart, key);
      KeyOfIncrease(s, item, selections, note, s.menu[item].branchMenuItemId, n);
      PutGood(s.cart, key, CartItem(s.menu[item].branchMenuItemId, item, n, note, selections));
    }
  }

  lemma OrderGood(items: seq<OrderItem>)
    requires forall i :: 0 <= i < |items| ==> items[i].quantity >= 1
    ensures Good(CartFromOrder(items))
  {
    CollectKeeps(items, OrderLine, GoodLine);
    MergeGood(Collect(items, OrderLine), KeepFirst);
  }

  function Run(s: Session, actions: seq<Action>): Session {
    if actions == [] then s
    else Step(Run(s, actions[..|actions| - 1]), actions[|actions| - 1])
  }

  /** In every reachable state each key is the key of its own line, keys are distinct, selections
      are canonical and quantities at least one. */
  lemma {:induction false} ReachableCartsGood(menu: Menu, actions: seq<Action>)
    requires forall i :: 0 <= i < |actions| ==> Sane(actions[i])
    ensures Good(Run(Session([], map[], menu), actions).cart)
  {
    if actions != [] {
      ReachableCartsGood(menu, actions[..|actions| - 1]);
      StepKeepsGood(Run(Session([], map[], menu), actions[..|actions| - 1]), actions[|actions| - 1]);
    }
  }

  // ----- what the order edit needs -----

  /** The key of an order item. */
  function OrderKey(item: OrderItem): LineKey {
    BuildCartLineKey(item.menuItemId, item.selections, item.note)
  }

  /** What an order holds under one key, and of one item. */
  function OrderedUnder(items: seq<OrderItem>, k: LineKey): int {
    if items == [] then 0
    else
      var last := items[|items| - 1];
      OrderedUnder(items[..|items| - 1], k) + if OrderKey(last) == k then last.quantity else 0
  }

  function OrderedOf(items: seq<OrderItem>, m: string): int {
    if items == [] then 0
    else
      var last := items[|items| - 1];
      OrderedOf(items[..|items| - 1], m) + if Trim(last.menuItemId) == m then last.quantity else 0
  }

  lemma OrderLineOf(item: OrderItem)
    ensures var lines := OrderLine(item);
            && lines[0].key == OrderKey(item) && lines[0].key.menuItemId == Trim(item.menuItemId)
            && lines[0].value ==
                 CartItem("", item.menuItemId, item.quantity, item.note, OrderKey(item).selections)
  {
  }

  lemma {:induction false} OrderQuantities(items: seq<OrderItem>, k: LineKey, m: string)
    ensures Quantity(Collect(items, OrderLine), ForKey(k)) == OrderedUnder(items, k)
    ensures Quantity(Collect(items, OrderLine), ForItem(m)) == OrderedOf(items, m)
  {
    hide OrderLine, OrderKey, Trim;
    if items != [] {
      var front, last := items[..|items| - 1], items[|items| - 1];
      var line := OrderLine(last)[0];
      OrderQuantities(front, k, m);
      OrderLineOf(last);
      assert OrderLine(last) == [line];
      QuantityPush(Collect(front, OrderLine), line, ForKey(k));
      QuantityPush(Collect(front, OrderLine), line, ForItem(m));
    }
  }

  /** The whole line under a key of an edited order: the first item with that key supplies id and
      note, and all of them the quantity. */
  lemma OrderedLineIs(items: seq<OrderItem>, k: LineKey) returns (i: nat)
    requires Has(CartFromOrder(items), k)
    ensures i < |items| && OrderKey(items[i]) == k && forall j :: 0 <= j < i ==> OrderKey(items[j]) != k
    ensures Find(CartFromOrder(items), k) ==
      Some(CartItem("", items[i].menuItemId, OrderedUnder(items, k), items[i].note, k.selections))
  {
    hide Merge, Collect, OrderLine, OrderKey, Find, Quantity;
    var lines := Collect(items, OrderLine);
    MergeAt(lines, KeepFirst, k);
    HeldFound(Merge(lines, KeepFirst), k);
    i := PickFrom(items, OrderLine, k, KeepFirst);
    forall j | 0 <= j <= i ensures Yields(OrderLine, items[j], k) <==> OrderKey(items[j]) == k {
      OrderLineOf(items[j]);
    }
    OrderLineOf(items[i]);
    OrderQuantities(items, k, "");
  }

  function OrderKeys(items: seq<OrderItem>): seq<LineKey> {
    seq(|items|, i requires 0 <= i < |items| => OrderKey(items[i]))
  }

  /** The lines of an edited order stand in the order in which their keys first occur. */
  lemma OrderedLinesOrder(items: seq<OrderItem>)
    ensures Keys(CartFromOrder(items)) == FirstOccurrences(OrderKeys(items))
  {
    hide Merge, OrderLine, OrderKey;
    MergeKeys(Collect(items, OrderLine), KeepFirst);
    CollectedKeys(items);
  }

  lemma {:induction false} CollectedKeys(items: seq<OrderItem>)
    ensures Keys(Collect(items, OrderLine)) == OrderKeys(items)
  {
    hide OrderLine, OrderKey;
    if items != [] {
      var front, last := items[..|items| - 1], items[|items| - 1];
      CollectedKeys(front);
      OrderLineOf(last);
      assert Collect(items, OrderLine) == Collect(front, OrderLine) + [OrderLine(last)[0]];
      assert OrderKeys(items) == OrderKeys(front) + [OrderKey(last)];
    }
  }

  lemma OrderHasIff(items: seq<OrderItem>, k: LineKey)
    ensures Has(CartFromOrder(items), k) <==> exists i :: 0 <= i < |items| && OrderKey(items[i]) == k
    ensures Held(CartFromOrder(items), k) == OrderedUnder(items, k)
  {
    hide Merge, Collect, OrderLine, OrderKey, Find, Quantity;
    var lines, cart := Collect(items, OrderLine), CartFromOrder(items);
    MergeAt(lines, KeepFirst, k);
    HeldFound(cart, k);
    OrderQuantities(items, k, "");
    if Has(cart, k) {
      var i := OrderedLineIs(items, k);
    } else {
      NothingHeld(cart, k);
    }
    if i :| 0 <= i < |items| && OrderKey(items[i]) == k {
      OrderLineOf(items[i]);
      YieldedIsCollected(items, OrderLine, k, i);
    }
  }

  lemma NothingHeld(cart: CartMap, k: LineKey)
    ensures !Has(cart, k) ==> Held(cart, k) == 0
    ensures Find(cart, k).Some? ==> Held(cart, k) == Find(cart, k).value.quantity
  {
  }

  lemma OrderLinesKeyed(items: seq<OrderItem>)
    ensures var cart := CartFromOrder(items);
            WellKeyed(cart) && forall i :: 0 <= i < |cart| ==> Canonical(cart[i].value.selections)
  {
    var lines := Collect(items, OrderLine);
    var p := (e: Line) => e.key == KeyOf(e.value) && Canonical(e.value.selections);
    CollectKeeps(items, OrderLine, p);
    MergeKeeps(lines, KeepFirst, p);
    MergeKeys(lines, KeepFirst);
    assert forall i :: 0 <= i < |Merge(lines, KeepFirst)| ==> p(Merge(lines, KeepFirst)[i]);
  }

  /** Without any assumption on the order, editing it yields a good cart exactly when every key
      that occurs in it adds up to at least one. */
  lemma OrderCartGoodIff(items: seq<OrderItem>)
    ensures Good(CartFromOrder(items)) <==>
      forall i :: 0 <= i < |items| ==> OrderedUnder(items, OrderKey(items[i])) >= 1
  {
    hide OrderKey, Find, OrderedUnder, CartFromOrder;
    var cart := CartFromOrder(items);
    OrderLinesKeyed(items);
    forall k ensures Has(cart, k) <==> exists i :: 0 <= i < |items| && OrderKey(items[i]) == k
             ensures Has(cart, k) ==> Find(cart, k).Some? && Find(cart, k).value.quantity == OrderedUnder(items, k)
    {
      OrderHasIff(items, k);
      HeldFound(cart, k);
      NothingHeld(cart, k);
    }
    if Good(cart) {
      forall i | 0 <= i < |items| ensures OrderedUnder(items, OrderKey(items[i])) >= 1 {
        FoundGood(cart, OrderKey(items[i]));
      }
    }
    if forall i :: 0 <= i < |items| ==> OrderedUnder(items, OrderKey(items[i])) >= 1 {
      forall i | 0 <= i < |cart| ensures cart[i].value.quantity >= 1 {
        FoundAt(cart, i);
        assert Has(cart, cart[i].key);
      }
    }
  }

  lemma FoundAt(cart: CartMap, i: nat)
    requires Distinct(cart) && i < |cart|
    ensures Has(cart, cart[i].key) && Find(cart, cart[i].key) == Some(cart[i].value)
  {
    assert IndexOf(cart, cart[i].key) == i;
  }

  // ----- exact effects -----

  /** The line a single-line handler touches and by how much, nothing for the other handlers. */
  function Effect(s: Session, a: Action): Option<(LineKey, int)> {
    match a
    case Increase(item) =>
      Some((BuildCartLineKey(item, DraftFor(s, item).selections, DraftFor(s, item).note), 1))
    case Decrease(item) =>
      var e := DecreaseTarget(s, item);
      if e.Some? then Some((e.value.key, -1)) else None
    case IncreaseLine(key) => if Has(s.cart, key) then Some((key, 1)) else None
    case DecreaseLine(key) => if Held(s.cart, key) > 1 then Some((key, -1)) else None
    case RemoveLine(key) => Some((key, -Held(s.cart, key)))
    case AddCustomized(item, chosen, note, quantity) =>
      if Accepts(s, item, chosen) then Some((AddedKey(s, item, chosen, note), if quantity > 1 then quantity else 1))
      else None
    case _ => None
  }

  predicate SingleLine(a: Action) {
    a.Increase? || a.Decrease? || a.IncreaseLine? || a.DecreaseLine? || a.RemoveLine? || a.AddCustomized?
  }

  lemma FindRemove(d: CartMap, k: LineKey, o: LineKey)
    requires o != k
    ensures Find(Remove(d, k), o) == Find(d, o)
  {
    var i := IndexOf(d, k);
    if i < |d| {
      var r := Remove(d, k);
      var a, b := IndexOf(d, o), IndexOf(r, o);
      assert forall j :: 0 <= j < |r| ==> r[j] == if j < i then d[j] else d[j + 1];
      assert a < |d| ==> r[if a < i then a else a - 1].key == o;
      assert b < |r| ==> d[if b < i then b else b + 1].key == o;
    }
  }

  /** The new cart is the old one with one line stored, or with one line deleted. */
  ghost predicate Touches(before: CartMap, after: CartMap, key: LineKey, change: int) {
    || (exists line: CartItem :: line.quantity == Held(before, key) + change && after == Put(before, key, line))
    || (change == -Held(before, key) && after == Remove(before, key))
  }

  lemma HeldAfter(before: CartMap, key: LineKey, line: CartItem)
    requires Distinct(before)
    ensures Held(Put(before, key, line), key) == line.quantity && Held(Remove(before, key), key) == 0
  {
  }

  lemma TouchedEffect(before: CartMap, after: CartMap, key: LineKey, change: int)
    requires Distinct(before) && Touches(before, after, key, change)
    ensures Held(after, key) == Held(before, key) + change
    ensures forall o :: o != key ==> Find(after, o) == Find(before, o)
    ensures forall m :: ItemCount(after, m) == ItemCount(before, m) + if key.menuItemId == m then change else 0
  {
    hide Put, Remove, Find, IndexOf, Held, Distinct;
    if line: CartItem :| line.quantity == Held(before, key) + change && after == Put(before, key, line) {
      HeldAfter(before, key, line);
      forall o | o != key ensures Find(after, o) == Find(before, o) { FindPut(before, key, line, o); }
      forall m ensures ItemCount(after, m) == ItemCount(before, m) + if key.menuItemId == m then change else 0 {
        QuantityPut(before, key, line, ForItem(m));
      }
    } else {
      HeldAfter(before, key, CartItem("", "", 0, "", map[]));
      forall o | o != key ensures Find(after, o) == Find(before, o) { FindRemove(before, key, o); }
      forall m ensures ItemCount(after, m) == ItemCount(before, m) + if key.menuItemId == m then change else 0 {
        QuantityRemove(before, key, ForItem(m));
      }
    }
  }

  lemma SingleLineTouches(s: Session, a: Action)
    requires Good(s.cart) && SingleLine(a) && Effect(s, a).Some?
    ensures var (key, change) := Effect(s, a).value; Touches(s.cart, Step(s, a).cart, key, change)
  {
    hide Put, Remove, Find, FirstLineOf, NormalizeSelections, DraftFor, SanitizeSelectionsForMenuItem, Good, GoodLine;
    match a
    case Decrease(item) => TargetGood(s, item); TargetHeld(s, item);
    case IncreaseLine(key) => HeldFound(s.cart, key);
    case DecreaseLine(key) => HeldFound(s.cart, key);
    case _ =>
  }

  lemma GoodIsDistinct(cart: CartMap)
    requires Good(cart)
    ensures Distinct(cart)
  {
  }

  lemma HeldFound(cart: CartMap, key: LineKey)
    ensures Has(cart, key) <==> Find(cart, key).Some?
  {
  }

  lemma TargetHeld(s: Session, item: string)
    requires Good(s.cart) && DecreaseTarget(s, item).Some?
    ensures Held(s.cart, DecreaseTarget(s, item).value.key) == DecreaseTarget(s, item).value.value.quantity >= 1
  {
    TargetGood(s, item);
  }

  /**
   Every single-line handler changes the count of exactly one item by exactly the stated amount,
   leaves every other line as it was, and does nothing at all when it has no target.
   */
  lemma HandlerEffect(s: Session, a: Action)
    requires Good(s.cart) && SingleLine(a)
    ensures Effect(s, a).None? ==> Step(s, a).cart == s.cart
    ensures Effect(s, a).Some? ==>
      var (key, change) := Effect(s, a).value;
      && Held(Step(s, a).cart, key) == Held(s.cart, key) + change
      && (forall o :: o != key ==> Find(Step(s, a).cart, o) == Find(s.cart, o))
      && (forall m :: ItemCount(Step(s, a).cart, m) == ItemCount(s.cart, m) + if key.menuItemId == m then change else 0)
  {
    hide Put, Remove, FirstLineOf, NormalizeSelections, DraftFor, SanitizeSelectionsForMenuItem, Good, Quantity,
      Touches;
    if Effect(s, a).Some? {
      var (key, change) := Effect(s, a).value;
      SingleLineTouches(s, a);
      GoodIsDistinct(s.cart);
      TouchedEffect(s.cart, Step(s, a).cart, key, change);
    }
  }

  /** After customizing and adding an item, `increase` for it adds to the very same line. */
  lemma IncreaseRepeatsCustomized(s: Session, item: string, chosen: CartSelections, note: string, quantity: int)
    requires Accepts(s, item, chosen)
    ensures Effect(Step(s, AddCustomized(item, chosen, note, quantity)), Increase(item)) ==
      Some((AddedKey(s, item, chosen, note), 1))
  {
    SanitizeIdempotent(Some(s.menu[item]), chosen);
  }

  /** `decrease` right after `increase` of the same item takes back exactly what was added. */
  lemma DecreaseUndoesIncrease(s: Session, item: string, k: LineKey)
    requires Good(s.cart)
    ensures Held(Step(Step(s, Increase(item)), Decrease(item)).cart, k) == Held(s.cart, k)
  {
    hide Good, DraftFor, Put, Remove, BuildCartLineKey, NormalizeSelections, Held, Has;
    var t := Step(s, Increase(item));
    var key := Effect(s, Increase(item)).value.0;
    StepKeepsGood(s, Increase(item));
    HandlerEffect(s, Increase(item));
    HandlerEffect(t, Decrease(item));
    SameDraft(s, t, item);
    HeldNonNegative(s.cart, key);
    HeldNonNegative(t.cart, key);
    HeldFound(t.cart, key);
    assert Effect(t, Decrease(item)) == Some((key, -1));
    if k != key {
      SameHeld(s.cart, t.cart, k);
      SameHeld(t.cart, Step(t, Decrease(item)).cart, k);
    }
  }

  lemma SameDraft(s: Session, t: Session, item: string)
    requires s.drafts == t.drafts && s.menu == t.menu
    ensures DraftFor(s, item) == DraftFor(t, item)
  {
  }

  lemma SameHeld(a: CartMap, b: CartMap, k: LineKey)
    requires Find(a, k) == Find(b, k)
    ensures Held(a, k) == Held(b, k)
  {
  }

  /** For the handlers called with an item, the item counted is the trimmed one. */
  lemma EffectItem(s: Session, a: Action)
    requires Good(s.cart) && Effect(s, a).Some?
    ensures (a.Increase? || a.Decrease? || a.AddCustomized?) ==> Effect(s, a).value.0.menuItemId == Trim(a.item)
  {
    if a.Decrease? { TargetGood(s, a.item); }
  }

  /** `decrease` finds a line exactly when the draft's line or some line of the item is in the cart. */
  lemma DecreaseFindsIff(s: Session, item: string)
    requires Good(s.cart)
    ensures Effect(s, Decrease(item)).Some? <==>
      || Has(s.cart, BuildCartLineKey(item, DraftFor(s, item).selections, DraftFor(s, item).note))
      || exists i :: 0 <= i < |s.cart| && s.cart[i].value.menuItemId == item
  {
    if i :| 0 <= i < |s.cart| && s.cart[i].value.menuItemId == item {
      assert s.cart[i].value.quantity >= 1;
    }
  }

  /** The whole-cart handlers, item by item. */
  lemma BulkEffect(s: Session, a: Action, m: string)
    requires Good(s.cart)
    ensures a.DropUnavailable? ==> ItemCount(Step(s, a).cart, m) == if m in a.ids then 0 else ItemCount(s.cart, m)
    ensures a.LoadMenu? && a.menu != map[] ==>
      ItemCount(Step(s, a).cart, m) == if m in a.menu then ItemCount(s.cart, m) else 0
    ensures a.EditOrder? && a.pending && !a.paid ==> ItemCount(Step(s, a).cart, m) == OrderedOf(a.ordered, m)
    ensures a.Clear? ==> ItemCount(Step(s, a).cart, m) == 0
  {
    hide Good, Quantity, Merge, OrderedOf;
    match a
    case DropUnavailable(ids) => KeepAvailableCount(s.cart, ids, m);
    case LoadMenu(menu) =>
      RebuildConserves(s.cart, menu, m);
      GoodCount(s.cart, m);
    case EditOrder(items, pending, paid) =>
      MergeConserves(Collect(items, OrderLine), KeepFirst, ForItem(m));
      OrderQuantities(items, LineKey("", map[], ""), m);
    case Clear => EmptyCount(m);
    case _ =>
  }

  lemma EmptyCount(m: string)
    ensures ItemCount([], m) == 0
  {
  }

  /** The whole-cart handlers, line by line. */
  lemma BulkLines(s: Session, a: Action, k: LineKey)
    requires Good(s.cart)
    ensures a.DropUnavailable? ==> Find(Step(s, a).cart, k) == if k.menuItemId in a.ids then None else Find(s.cart, k)
    ensures a.LoadMenu? && a.menu != map[] ==> Held(Step(s, a).cart, k) == CountUnder(s.cart, a.menu, k)
    ensures a.LoadMenu? && a.menu == map[] ==> Step(s, a).cart == s.cart
    ensures a.EditOrder? && a.pending && !a.paid ==> Held(Step(s, a).cart, k) == OrderedUnder(a.ordered, k)
    ensures a.EditOrder? && (!a.pending || a.paid) ==> Step(s, a).cart == s.cart
    ensures a.LoadSnapshot? ==> Held(Step(s, a).cart, k) == ContributedItems(a.items, k)
    ensures a.LoadRecord? ==> Held(Step(s, a).cart, k) == Contributed(a.source, k)
    ensures a.Clear? ==> !Has(Step(s, a).cart, k)
  {
    hide Good, Quantity, Merge, OrderedUnder, CartFromOrder, KeepAvailable, RestoredFromSnapshot, RestoredFromStorage,
      Find, Rebuilt, CountUnder;
    match a
    case DropUnavailable(ids) => KeepAvailableFind(s.cart, ids, k);
    case LoadMenu(menu) => RebuiltHeld(s.cart, menu, k);
    case EditOrder(items, pending, paid) => OrderHasIff(items, k);
    case LoadSnapshot(items) => SnapshotConserves(items, k);
    case LoadRecord(source) => RestoreConserves(source, k);
    case _ =>
  }

  lemma {:induction false} KeepAvailableFind(cart: CartMap, ids: set<string>, k: LineKey)
    requires Good(cart)
    ensures Find(KeepAvailable(cart, ids), k) == if k.menuItemId in ids then None else Find(cart, k)
  {
    hide KeyOf, Canonical, Trim, Find;
    if cart == [] {
      FindInNothing(k);
    } else {
      var front, last := cart[..|cart| - 1], cart[|cart| - 1];
      assert forall j :: 0 <= j < |front| ==> front[j] == cart[j];
      KeepAvailableFind(front, ids, k);
      FindPush(front, last, k);
      FindPush(KeepAvailable(front, ids), last, k);
      assert last.key == KeyOf(last.value);
      KeyOfItem(last);
      assert cart == front + [last];
      assert KeepAvailable(front, ids) + [] == KeepAvailable(front, ids);
      if Find(front, k).Some? { FoundIn(front, k); }
    }
  }

  /** Dropping items leaves the other lines in their order: their old positions increase. */
  lemma {:induction false} KeepAvailableOrder(cart: CartMap, ids: set<string>) returns (at: seq<nat>)
    ensures |at| == |KeepAvailable(cart, ids)|
    ensures forall p :: 0 <= p < |at| ==> at[p] < |cart| && KeepAvailable(cart, ids)[p] == cart[at[p]]
    ensures forall p, q :: 0 <= p < q < |at| ==> at[p] < at[q]
  {
    hide Trim;
    at := [];
    if cart != [] {
      var n := |cart| - 1;
      var front := cart[..n];
      var before := KeepAvailableOrder(front, ids);
      assert forall p :: 0 <= p < |before| ==> front[before[p]] == cart[before[p]];
      if Trim(cart[n].value.menuItemId) in ids {
        at := before;
        assert KeepAvailable(cart, ids) == KeepAvailable(front, ids);
      } else {
        at := before + [n];
        assert KeepAvailable(cart, ids) == KeepAvailable(front, ids) + [cart[n]];
      }
    }
  }

  lemma FindInNothing(k: LineKey)
    ensures Find<LineKey, CartItem>([], k) == None
  {
  }

  lemma FindPush(d: CartMap, e: Line, k: LineKey)
    ensures Find(d + [e], k) == if Find(d, k).Some? then Find(d, k) else if e.key == k then Some(e.value) else None
  {
    var i, j := IndexOf(d, k), IndexOf(d + [e], k);
    assert i < |d| ==> (d + [e])[i].key == k;
    assert j < |d| ==> d[j].key == k;
    assert (d + [e])[|d|] == e;
  }

  lemma FoundIn(d: CartMap, k: LineKey)
    requires Find(d, k).Some?
    ensures exists i :: 0 <= i < |d| && d[i].key == k
  {
    assert d[IndexOf(d, k)].key == k;
  }

  lemma {:induction false} GoodCount(cart: CartMap, m: string)
    requires Good(cart)
    ensures CountOf(cart, m) == ItemCount(cart, m)
  {
    if cart != [] {
      GoodCount(cart[..|cart| - 1], m);
      assert cart[|cart| - 1].key == KeyOf(cart[|cart| - 1].value);
      assert cart[|cart| - 1].value.quantity >= 1;
    }
  }

  // ----- the line a handler leaves -----

  /**
   The stored line, whole. Adding stores the item as called, with the menu's branch id, the draft's or
   the dialog's note and the key's selections; the other steps change the quantity alone, and a line
   that would reach zero is gone.
   */
  lemma LineLeft(s: Session, a: Action)
    requires Good(s.cart) && SingleLine(a) && Effect(s, a).Some?
    ensures var (key, change) := Effect(s, a).value;
            var n, after := Held(s.cart, key) + change, Find(Step(s, a).cart, key);
            match a
            case Increase(item) =>
              var branch := if item in s.menu then s.menu[item].branchMenuItemId else "";
              after == Some(CartItem(branch, item, n, DraftFor(s, item).note, key.selections))
            case AddCustomized(item, _, note, _) =>
              item in s.menu
              && after == Some(CartItem(s.menu[item].branchMenuItemId, item, n, note, key.selections))
            case _ =>
              if n <= 0 then after == None
              else Find(s.cart, key).Some? && after == Some(Find(s.cart, key).value.(quantity := n))
  {
    hide Put, Remove, Find, FirstLineOf, NormalizeSelections, SanitizeSelectionsForMenuItem, Good, GoodLine, Canonical,
      DraftFor, Has, IndexOf, Accepts, Distinct, Trim;
    var key := Effect(s, a).value.0;
    GoodIsDistinct(s.cart);
    HeldFound(s.cart, key);
    HeldNonNegative(s.cart, key);
    NothingHeld(s.cart, key);
    FindRemoved(s.cart, key);
    match a
    case Increase(item) =>
      DraftCanonical(s, item);
    case AddCustomized(item, chosen, note, quantity) =>
      ItemAccepted(s, item, chosen);
      NormalizedTwice(SanitizeSelectionsForMenuItem(Some(s.menu[item]), chosen));
    case Decrease(item) =>
      TargetGood(s, item);
    case _ =>
  }

  lemma FindRemoved(cart: CartMap, key: LineKey)
    requires Distinct(cart)
    ensures Find(Remove(cart, key), key) == None
  {
    HeldFound(Remove(cart, key), key);
  }

  lemma DraftCanonical(s: Session, item: string)
    ensures Canonical(DraftFor(s, item).selections)
    ensures NormalizeSelections(DraftFor(s, item).selections) == DraftFor(s, item).selections
  {
  }

  lemma NormalizedTwice(s: CartSelections)
    requires Canonical(s)
    ensures NormalizeSelections(s) == s
  {
  }

  /** Lines keep their order; a new one goes to the end. */
  lemma LineOrder(s: Session, a: Action)
    requires Good(s.cart) && SingleLine(a) && Effect(s, a).Some?
    ensures var key, before, after := Effect(s, a).value.0, s.cart, Step(s, a).cart;
            var keys, i := Keys(before), IndexOf(before, key);
            Keys(after) ==
              if Has(before, key) && !Has(after, key) then keys[..i] + keys[i + 1..]
              else if !Has(before, key) && Has(after, key) then keys + [key]
              else keys
  {
    hide Put, Remove, Find, FirstLineOf, NormalizeSelections, DraftFor, SanitizeSelectionsForMenuItem, Good, GoodLine,
      Keys, IndexOf, Has;
    var key, change := Effect(s, a).value.0, Effect(s, a).value.1;
    GoodIsDistinct(s.cart);
    SingleLineTouches(s, a);
    if line: CartItem :| line.quantity == Held(s.cart, key) + change && Step(s, a).cart == Put(s.cart, key, line) {
      PutKeys(s.cart, key, line);
    } else {
      RemoveKeys(s.cart, key);
    }
  }

  lemma PutKeys(d: CartMap, k: LineKey, v: CartItem)
    ensures Keys(Put(d, k, v)) == if Has(d, k) then Keys(d) else Keys(d) + [k]
    ensures Has(Put(d, k, v), k)
  {
    HasIff(Put(d, k, v), k);
    assert Put(d, k, v)[IndexOf(d, k)].key == k;
  }

  lemma RemoveKeys(d: CartMap, k: LineKey)
    requires Distinct(d)
    ensures var i := IndexOf(d, k);
            Keys(Remove(d, k)) == if Has(d, k) then Keys(d)[..i] + Keys(d)[i + 1..] else Keys(d)
    ensures !Has(Remove(d, k), k)
  {
  }

  /** `decrease` takes the draft's line if it is in the cart, and otherwise the first line of the item. */
  lemma DecreaseTargetIs(s: Session, item: string) returns (i: nat)
    requires Good(s.cart) && Effect(s, Decrease(item)).Some?
    ensures var key, draft := Effect(s, Decrease(item)).value.0, DraftFor(s, item);
            var preferred := BuildCartLineKey(item, draft.selections, draft.note);
            && i < |s.cart| && s.cart[i].key == key
            && if Has(s.cart, preferred) then key == preferred
               else s.cart[i].value.menuItemId == item
                    && forall j :: 0 <= j < i ==> s.cart[j].value.menuItemId != item
  {
    hide DraftFor, BuildCartLineKey, Canonical;
    var draft := DraftFor(s, item);
    var preferred := BuildCartLineKey(item, draft.selections, draft.note);
    if Has(s.cart, preferred) {
      i := IndexOf(s.cart, preferred);
    } else {
      i := FirstLineIsFirst(s.cart, item);
    }
  }

  lemma {:induction false} FirstLineIsFirst(cart: CartMap, item: string) returns (i: nat)
    requires FirstLineOf(cart, item).Some?
    ensures i < |cart| && cart[i] == FirstLineOf(cart, item).value
    ensures forall j :: 0 <= j < i ==> !(cart[j].value.menuItemId == item && cart[j].value.quantity > 0)
  {
    if cart[0].value.menuItemId == item && cart[0].value.quantity > 0 {
      i := 0;
    } else {
      var rest := FirstLineIsFirst(cart[1..], item);
      i := rest + 1;
      assert forall j :: 0 < j <= i ==> cart[j] == cart[1..][j - 1];
    }
  }

  /** The dialog adds an item exactly when it is on the menu and every single group has a choice. */
  lemma AddsIff(s: Session, item: string, chosen: CartSelections, note: string, quantity: int)
    ensures var t := Step(s, AddCustomized(item, chosen, note, quantity));
            var complete := item in s.menu && forall i :: 0 <= i < |s.menu[item].customizations| ==>
              var g := s.menu[item].customizations[i]; g.kind == Single ==> Trim(AsText(Lookup(chosen, g.id))) != "";
            && (!complete ==> t == s)
            && (complete ==>
                  && item in t.drafts && t.drafts[item].note == note
                  && Effect(s, AddCustomized(item, chosen, note, quantity)).Some?)
  {
    hide SanitizeSelectionsForMenuItem, BuildCartLineKey, Put, Find, AsText, Trim;
  }

  // ----- drafts -----

  lemma {:induction false} DefaultSelectionsAt(groups: seq<Group>, k: string)
    ensures k in DefaultSelections(groups) <==> HasGroup(groups, k)
    ensures HasGroup(groups, k) ==>
      DefaultSelections(groups)[k] ==
        var g := LastGroup(groups, k);
        if g.kind == Multi then Many([]) else One(if g.options == [] then "" else g.options[0].value)
  {
    if groups != [] {
      var front := groups[..|groups| - 1];
      DefaultSelectionsAt(front, k);
      assert groups == front + [groups[|groups| - 1]];
      assert HasGroup(groups, k) <==> groups[|groups| - 1].id == k || HasGroup(front, k);
    }
  }

  /** The draft of an item that has none yet: the first option of every group, nothing for lists. */
  lemma FreshDraft(s: Session, item: string)
    requires item !in s.drafts
    ensures var d := DraftFor(s, item);
            && d.note == ""
            && (item !in s.menu ==> d.selections == map[])
            && (item in s.menu ==>
                  var groups := s.menu[item].customizations;
                  && (forall k :: k in d.selections <==> HasGroup(groups, k))
                  && forall k :: k in d.selections ==>
                       var g := LastGroup(groups, k);
                       d.selections[k] ==
                         if g.kind == Multi then Many([])
                         else One(if g.options == [] then "" else Trim(g.options[0].value)))
  {
    if item in s.menu {
      var groups := s.menu[item].customizations;
      var d := DraftFor(s, item);
      EmptyListNormal();
      forall k
        ensures k in d.selections <==> HasGroup(groups, k)
        ensures k in d.selections ==>
          var g := LastGroup(groups, k);
          d.selections[k] ==
            if g.kind == Multi then Many([]) else One(if g.options == [] then "" else Trim(g.options[0].value))
      {
        DefaultSelectionsAt(groups, k);
      }
    }
  }

  lemma EmptyListNormal()
    ensures NormalizeSelectionValue(Many([])) == Many([])
    ensures Trim("") == ""
  {
  }

  /** A draft is always repaired against its item. */
  lemma DraftRepaired(s: Session, item: string)
    ensures var d := DraftFor(s, item).selections;
            SanitizeSelectionsForMenuItem(LookupItem(s.menu, item), d) == d
  {
    hide DefaultSelections;
    if item in s.drafts {
      SanitizeIdempotent(LookupItem(s.menu, item), s.drafts[item].selections);
    } else if item in s.menu {
      FreshDraft(s, item);
      FreshDraftRepaired(s.menu[item], DraftFor(s, item).selections);
    }
  }

  lemma FreshDraftRepaired(m: MenuItem, d: CartSelections)
    requires forall k :: k in d <==> HasGroup(m.customizations, k)
    requires forall k :: k in d ==>
      var g := LastGroup(m.customizations, k);
      d[k] == if g.kind == Multi then Many([]) else One(if g.options == [] then "" else Trim(g.options[0].value))
    ensures SanitizeSelectionsForMenuItem(Some(m), d) == d
  {
    hide SanitizeSelectionsForMenuItem, RepairedTo;
    var r := SanitizeSelectionsForMenuItem(Some(m), d);
    SanitizedSelectionsPermitted(m, d);
    forall k | k in d ensures r[k] == d[k] {
      FreshValueRepaired(LastGroup(m.customizations, k), r[k]);
    }
    assert r.Keys == d.Keys;
  }

  lemma FreshValueRepaired(g: Group, v: SelectionValue)
    requires var first := if g.kind == Multi then Many([])
                          else One(if g.options == [] then "" else Trim(g.options[0].value));
             RepairedTo(g, Some(first), v)
    ensures v == if g.kind == Multi then Many([]) else One(if g.options == [] then "" else Trim(g.options[0].value))
  {
    if g.kind == Multi {
      assert forall y :: y !in v.texts;
      FirstMember(v.texts);
    }
  }

  /** Typing a note changes the item's note and nothing else, not even its selections. */
  lemma NoteTyped(s: Session, item: string, note: string)
    ensures var t := Step(s, UpdateNote(item, note));
            && t.cart == s.cart && t.menu == s.menu && t.drafts - {item} == s.drafts - {item}
            && DraftFor(t, item) == Draft(note, DraftFor(s, item).selections)
            && forall other :: other != item ==> DraftFor(t, other) == DraftFor(s, other)
  {
    hide SanitizeSelectionsForMenuItem, NormalizeSelections, DefaultSelections;
    DraftRepaired(s, item);
  }

  /** Choosing in a group changes the choice in that group, to what repair makes of the value, and
      neither the note nor the other groups. */
  lemma ChoiceMade(s: Session, item: string, group: string, value: SelectionValue)
    requires item in s.menu
    ensures var t, groups := Step(s, UpdateSelection(item, group, value)), s.menu[item].customizations;
            var before, after := DraftFor(s, item), DraftFor(t, item);
            && t.cart == s.cart && t.menu == s.menu && t.drafts - {item} == s.drafts - {item}
            && after.note == before.note
            && (forall k :: k in after.selections <==> HasGroup(groups, k))
            && (forall k :: k in after.selections && k != group ==>
                  k in before.selections && after.selections[k] == before.selections[k])
            && (group in after.selections ==>
                  RepairedTo(LastGroup(groups, group), Some(NormalizeSelectionValue(value)), after.selections[group]))
  {
    hide SanitizeSelectionsForMenuItem, NormalizeSelectionValue, NormalizeSelections, DefaultSelections, RepairedTo,
      HasGroup, LastGroup, Lookup;
    DraftRepaired(s, item);
    OneChoiceRepaired(s.menu[item], DraftFor(s, item).selections, group, NormalizeSelectionValue(value));
  }

  /** Repairing selections in which one choice was exchanged. */
  lemma OneChoiceRepaired(m: MenuItem, before: CartSelections, group: string, value: SelectionValue)
    requires SanitizeSelectionsForMenuItem(Some(m), before) == before
    ensures var groups, after := m.customizations, SanitizeSelectionsForMenuItem(Some(m), before[group := value]);
            && (forall k :: k in after <==> HasGroup(groups, k))
            && (forall k :: k in after && k != group ==> k in before && after[k] == before[k])
            && (group in after ==> RepairedTo(LastGroup(groups, group), Some(value), after[group]))
  {
    hide SanitizeSelectionsForMenuItem, RepairedTo, HasGroup;
    var chosen := before[group := value];
    SanitizedSelectionsPermitted(m, before);
    SanitizedSelectionsPermitted(m, chosen);
    forall k | HasGroup(m.customizations, k) && k != group
      ensures SanitizeSelectionsForMenuItem(Some(m), chosen)[k] == before[k]
    {
      SameRawSameRepair(m, before, chosen, k);
    }
  }

  /** Repair looks at one group at a time. */
  lemma SameRawSameRepair(m: MenuItem, s: CartSelections, t: CartSelections, k: string)
    requires HasGroup(m.customizations, k) && Lookup(s, k) == Lookup(t, k)
    ensures var a, b := SanitizeSelectionsForMenuItem(Some(m), s), SanitizeSelectionsForMenuItem(Some(m), t);
            k in a && k in b && a[k] == b[k]
  {
    SanitizeGroupsAt(m.customizations, s, k);
    SanitizeGroupsAt(m.customizations, t, k);
  }

  /** A new menu keeps the drafts of its items, notes as they are and selections repaired. */
  lemma DraftsAfterMenu(s: Session, menu: Menu, item: string)
    ensures var t := Step(s, LoadMenu(menu));
            && t.menu == menu
            && (menu == map[] ==> t.drafts == s.drafts)
            && (menu != map[] ==> (item in t.drafts <==> item in s.drafts && Trim(item) in menu))
            && (menu != map[] && item in t.drafts ==>
                  && item in s.drafts && t.drafts[item].note == s.drafts[item].note
                  && t.drafts[item].selections ==
                       SanitizeSelectionsForMenuItem(Some(menu[Trim(item)]), s.drafts[item].selections))
  {
    hide SanitizeSelectionsForMenuItem, Rebuilt;
  }

  /** No other step touches a draft or the menu, except that adding a customized item makes it the draft. */
  lemma DraftsKept(s: Session, a: Action)
    requires !a.UpdateNote? && !a.UpdateSelection? && !a.LoadMenu?
    ensures var t := Step(s, a);
            && t.menu == s.menu
            && if a.AddCustomized? then t.drafts - {a.item} == s.drafts - {a.item} else t.drafts == s.drafts
  {
    hide SanitizeSelectionsForMenuItem, BuildCartLineKey, Put, Find;
  }
}

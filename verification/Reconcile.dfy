/** Rebuilding the cart when a new menu arrives. */
module Reconcile {
  import opened Text
  import opened OrderedDict
  import opened Selections
  import opened Cart

  function NonNegative(n: int): nat { if n > 0 then n else 0 }

  function FirstNonEmpty(a: string, b: string): string { if a != "" then a else b }

  function RebuiltLine(line: CartItem, menu: Menu): (r: seq<Line>)
    ensures |r| <= 1
  {
    var menuItemId := Trim(line.menuItemId);
    if menuItemId !in menu then []
    else
      var item := menu[menuItemId];
      var selections := SanitizeSelectionsForMenuItem(Some(item), line.selections);
      [Entry(BuildCartLineKey(menuItemId, selections, line.note),
             CartItem(FirstNonEmpty(item.branchMenuItemId, line.branchMenuItemId), menuItemId,
                      NonNegative(line.quantity), line.note, selections))]
  }

  function Rebuilder(menu: Menu): Line -> seq<Line> {
    (e: Line) => RebuiltLine(e.value, menu)
  }

  function Rebuilt(cart: CartMap, menu: Menu): CartMap {
    Merge(Collect(cart, Rebuilder(menu)), KeepLast)
  }

  method Rebuild(prev: CartMap, menu: Menu) returns (rebuilt: CartMap)
    ensures rebuilt == Rebuilt(prev, menu)
  {
    hide Merge, Collect, Put, Find, SanitizeSelectionsForMenuItem, BuildCartLineKey, FirstNonEmpty, NonNegative;
    MergeCollectEmpty(prev, Rebuilder(menu), KeepLast);
    rebuilt := [];
    for i := 0 to |prev|
      invariant rebuilt == Rebuilt(prev[..i], menu)
    {
      MergeCollectStep(prev, i, Rebuilder(menu), KeepLast);
      var line := prev[i].value;
      var menuItemId := Trim(line.menuItemId);
      if menuItemId !in menu {
        continue;
      }
      var selections := SanitizeSelectionsForMenuItem(Some(menu[menuItemId]), line.selections);
      var lineKey := BuildCartLineKey(menuItemId, selections, line.note);
      var existing := Find(rebuilt, lineKey);
      var already := if existing.Some? then existing.value.quantity else 0;
      var stored := CartItem(FirstNonEmpty(menu[menuItemId].branchMenuItemId, line.branchMenuItemId), menuItemId,
                 already + NonNegative(line.quantity), line.note, selections);
      assert RebuiltLine(line, menu) == [Entry(lineKey, stored.(quantity := NonNegative(line.quantity)))];
      assert stored == Combined(existing, RebuiltLine(line, menu)[0].value, KeepLast);
      rebuilt := Put(rebuilt, lineKey, stored);
    }
  }

  /** Quantity of the lines of an item, by the trimmed id the line carries, negatives read as zero. */
  function CountOf(cart: CartMap, m: string): nat {
    if cart == [] then 0
    else
      var line := cart[|cart| - 1].value;
      CountOf(cart[..|cart| - 1], m) + if Trim(line.menuItemId) == m then NonNegative(line.quantity) else 0
  }

  lemma {:induction false} RebuiltLinesCount(cart: CartMap, menu: Menu, m: string)
    ensures Quantity(Collect(cart, Rebuilder(menu)), ForItem(m)) == if m in menu then CountOf(cart, m) else 0
  {
    if cart != [] {
      var front, last := cart[..|cart| - 1], cart[|cart| - 1];
      RebuiltLinesCount(front, menu, m);
      var f := Rebuilder(menu);
      QuantityConcat(Collect(front, f), f(last), ForItem(m));
      if Trim(last.value.menuItemId) in menu {
        assert f(last)[..0] == [];
      }
    }
  }

  /** Rebuilding keeps the total quantity of every item still on the menu and drops exactly the
      items that left it, whatever the old cart was. */
  lemma RebuildConserves(cart: CartMap, menu: Menu, m: string)
    ensures ItemCount(Rebuilt(cart, menu), m) == if m in menu then CountOf(cart, m) else 0
  {
    RebuiltLinesCount(cart, menu, m);
    MergeConserves(Collect(cart, Rebuilder(menu)), KeepLast, ForItem(m));
  }

  /** A line the rebuild has settled: known to the menu, repaired, and under its own key. */
  ghost predicate FitsMenu(e: Line, menu: Menu) {
    && e.value.menuItemId in menu
    && Trimmed(e.value.menuItemId)
    && e.key == KeyOf(e.value)
    && e.value.quantity >= 0
    && Canonical(e.value.selections)
    && SanitizeSelectionsForMenuItem(Some(menu[e.value.menuItemId]), e.value.selections) == e.value.selections
    && (menu[e.value.menuItemId].branchMenuItemId != "" ==>
          e.value.branchMenuItemId == menu[e.value.menuItemId].branchMenuItemId)
  }

  lemma RebuiltLineFits(line: CartItem, menu: Menu)
    requires RebuiltLine(line, menu) != []
    ensures FitsMenu(RebuiltLine(line, menu)[0], menu)
  {
    SanitizeIdempotent(Some(menu[Trim(line.menuItemId)]), line.selections);
  }

  lemma FittingLineStays(e: Line, menu: Menu)
    requires FitsMenu(e, menu)
    ensures RebuiltLine(e.value, menu) == [e]
  {
  }

  /** Every line of a rebuilt cart fits the menu and sits under its own key. */
  lemma RebuiltFits(cart: CartMap, menu: Menu)
    ensures WellKeyed(Rebuilt(cart, menu))
    ensures forall i :: 0 <= i < |Rebuilt(cart, menu)| ==> FitsMenu(Rebuilt(cart, menu)[i], menu)
  {
    var f, fits := Rebuilder(menu), (e: Line) => FitsMenu(e, menu);
    forall i, j | 0 <= i < |cart| && 0 <= j < |f(cart[i])| ensures fits(f(cart[i])[j]) {
      RebuiltLineFits(cart[i].value, menu);
    }
    CollectKeeps(cart, f, fits);
    MergeKeeps(Collect(cart, f), KeepLast, fits);
    MergeKeys(Collect(cart, f), KeepLast);
    assert forall i :: 0 <= i < |Rebuilt(cart, menu)| ==> fits(Rebuilt(cart, menu)[i]);
  }

  /** A rebuilt line is on the menu, and holds exactly one permitted value per group of its item. */
  lemma RebuiltSelectionsPermitted(cart: CartMap, menu: Menu, i: nat)
    requires i < |Rebuilt(cart, menu)|
    ensures var line := Rebuilt(cart, menu)[i].value;
      && line.menuItemId in menu
      && var groups := menu[line.menuItemId].customizations;
         && (forall g :: g in line.selections <==> HasGroup(groups, g))
         && (forall g :: g in line.selections ==> Permitted(LastGroup(groups, g), line.selections[g]))
  {
    RebuiltFits(cart, menu);
    var line := Rebuilt(cart, menu)[i].value;
    assert FitsMenu(Rebuilt(cart, menu)[i], menu);
    SanitizedSelectionsPermitted(menu[line.menuItemId], line.selections);
  }

  /** The line is on the menu and belongs under the key once its selections are repaired. */
  predicate Becomes(line: CartItem, menu: Menu, k: LineKey) {
    var id := Trim(line.menuItemId);
    id in menu && k == BuildCartLineKey(id, SanitizeSelectionsForMenuItem(Some(menu[id]), line.selections), line.note)
  }

  function CountUnder(cart: CartMap, menu: Menu, k: LineKey): nat {
    if cart == [] then 0
    else
      var line := cart[|cart| - 1].value;
      CountUnder(cart[..|cart| - 1], menu, k) +
      if Becomes(line, menu, k) && line.quantity > 0 then line.quantity else 0
  }

  lemma RebuiltLineUnder(e: Line, menu: Menu, k: LineKey)
    ensures Yields(Rebuilder(menu), e, k) <==> Becomes(e.value, menu, k)
    ensures Quantity(RebuiltLine(e.value, menu), ForKey(k)) ==
      if Becomes(e.value, menu, k) && e.value.quantity > 0 then e.value.quantity else 0
    ensures Becomes(e.value, menu, k) ==>
      var item, line := menu[Trim(e.value.menuItemId)], RebuiltLine(e.value, menu)[0].value;
      && line.branchMenuItemId ==
           (if item.branchMenuItemId != "" then item.branchMenuItemId else e.value.branchMenuItemId)
      && line.menuItemId == k.menuItemId && line.note == e.value.note && line.selections == k.selections
  {
    hide SanitizeSelectionsForMenuItem;
    if RebuiltLine(e.value, menu) != [] {
      assert RebuiltLine(e.value, menu)[..0] == [];
    }
  }

  lemma {:induction false} RebuiltQuantity(cart: CartMap, menu: Menu, k: LineKey)
    ensures Quantity(Collect(cart, Rebuilder(menu)), ForKey(k)) == CountUnder(cart, menu, k)
  {
    hide RebuiltLine, Becomes, ForKey;
    if cart != [] {
      var front, last := cart[..|cart| - 1], cart[|cart| - 1];
      RebuiltQuantity(front, menu, k);
      QuantityConcat(Collect(front, Rebuilder(menu)), RebuiltLine(last.value, menu), ForKey(k));
      RebuiltLineUnder(last, menu, k);
    }
  }

  /** Under every key the rebuilt cart holds the quantities of the old lines that belong there. */
  lemma RebuiltHeld(cart: CartMap, menu: Menu, k: LineKey)
    ensures Held(Rebuilt(cart, menu), k) == CountUnder(cart, menu, k)
  {
    hide Merge, Collect, Quantity;
    MergeConserves(Collect(cart, Rebuilder(menu)), KeepLast, ForKey(k));
    MergeKeys(Collect(cart, Rebuilder(menu)), KeepLast);
    QuantityAtKey(Rebuilt(cart, menu), k);
    RebuiltQuantity(cart, menu, k);
  }

  /**
   The whole rebuilt line under a key: it stems from the last old line that belongs there, whose note
   and repaired selections it has, with the menu's branch id if there is one, and it holds the
   quantities of all of them.
   */
  lemma RebuiltLineIs(cart: CartMap, menu: Menu, k: LineKey) returns (i: nat)
    requires Has(Rebuilt(cart, menu), k)
    ensures i < |cart| && Becomes(cart[i].value, menu, k)
    ensures forall j :: i < j < |cart| ==> !Becomes(cart[j].value, menu, k)
    ensures k.menuItemId in menu
    ensures var item, old' := menu[k.menuItemId], cart[i].value;
            && Find(Rebuilt(cart, menu), k) == Some(CartItem(
                 if item.branchMenuItemId != "" then item.branchMenuItemId else old'.branchMenuItemId,
                 k.menuItemId, CountUnder(cart, menu, k), old'.note, k.selections))
            && (forall g :: g in k.selections <==> HasGroup(item.customizations, g))
            && forall g :: g in k.selections ==>
                 RepairedTo(LastGroup(item.customizations, g), Lookup(old'.selections, g), k.selections[g])
  {
    hide Merge, Collect, RebuiltLine, Becomes, Find, Quantity, RepairedTo;
    var f := Rebuilder(menu);
    var lines := Collect(cart, f);
    MergeAt(lines, KeepLast, k);
    HasFound(Merge(lines, KeepLast), k);
    i := PickFrom(cart, f, k, KeepLast);
    forall j | i <= j < |cart| ensures Yields(f, cart[j], k) <==> Becomes(cart[j].value, menu, k) {
      RebuiltLineUnder(cart[j], menu, k);
    }
    RebuiltLineUnder(cart[i], menu, k);
    RebuiltQuantity(cart, menu, k);
    BecomesRepaired(cart[i].value, menu, k);
  }

  lemma HasFound(cart: CartMap, k: LineKey)
    ensures Has(cart, k) <==> Find(cart, k).Some?
  {
  }

  lemma BecomesRepaired(line: CartItem, menu: Menu, k: LineKey)
    requires Becomes(line, menu, k)
    ensures k.menuItemId in menu && k.menuItemId == Trim(line.menuItemId)
    ensures var groups := menu[k.menuItemId].customizations;
            && (forall g :: g in k.selections <==> HasGroup(groups, g))
            && forall g :: g in k.selections ==>
                 RepairedTo(LastGroup(groups, g), Lookup(line.selections, g), k.selections[g])
  {
    hide RepairedTo, SanitizeSelectionsForMenuItem;
    SanitizedSelectionsPermitted(menu[Trim(line.menuItemId)], line.selections);
  }

  /** No line is dropped but those off the menu: a key is there exactly when some old line becomes it. */
  lemma RebuiltHasIff(cart: CartMap, menu: Menu, k: LineKey)
    ensures Has(Rebuilt(cart, menu), k) <==> exists i :: 0 <= i < |cart| && Becomes(cart[i].value, menu, k)
  {
    hide Merge, Collect, RebuiltLine, Becomes, Find, Quantity;
    var f := Rebuilder(menu);
    var lines := Collect(cart, f);
    MergeAt(lines, KeepLast, k);
    HasFound(Merge(lines, KeepLast), k);
    if Has(lines, k) {
      var i := PickFrom(cart, f, k, KeepLast);
      RebuiltLineUnder(cart[i], menu, k);
    }
    if i :| 0 <= i < |cart| && Becomes(cart[i].value, menu, k) {
      RebuiltLineUnder(cart[i], menu, k);
      YieldedIsCollected(cart, f, k, i);
    }
  }

  /** The effect leaves a cart alone exactly when its keys are distinct and all its lines fit the menu. */
  lemma RebuildChangesNothingIff(cart: CartMap, menu: Menu)
    ensures Rebuilt(cart, menu) == cart <==>
      Distinct(cart) && forall i :: 0 <= i < |cart| ==> FitsMenu(cart[i], menu)
  {
    hide FitsMenu, RebuiltLine, Merge;
    RebuiltFits(cart, menu);
    if Distinct(cart) && forall i :: 0 <= i < |cart| ==> FitsMenu(cart[i], menu) {
      forall i | 0 <= i < |cart| ensures Rebuilder(menu)(cart[i]) == [cart[i]] {
        FittingLineStays(cart[i], menu);
      }
      CollectIdentity(cart, Rebuilder(menu));
      MergeDistinctIsIdentity(cart, KeepLast);
    }
  }

  /** The effect stabilises after one step: a second rebuild returns its argument, entry by entry. */
  lemma RebuildIdempotent(cart: CartMap, menu: Menu)
    ensures Rebuilt(Rebuilt(cart, menu), menu) == Rebuilt(cart, menu)
  {
    var rebuilt := Rebuilt(cart, menu);
    RebuiltFits(cart, menu);
    forall i | 0 <= i < |rebuilt| ensures Rebuilder(menu)(rebuilt[i]) == [rebuilt[i]] {
      FittingLineStays(rebuilt[i], menu);
    }
    CollectIdentity(rebuilt, Rebuilder(menu));
    MergeDistinctIsIdentity(rebuilt, KeepLast);
  }

  lemma RebuildGood(cart: CartMap, menu: Menu)
    requires Good(cart)
    ensures Good(Rebuilt(cart, menu))
  {
    CollectKeeps(cart, Rebuilder(menu), GoodLine);
    MergeGood(Collect(cart, Rebuilder(menu)), KeepLast);
  }
}

/**
 Reading a cart back from storage (the legacy record form and the snapshot form), writing the
 snapshot, and rebuilding the cart when a new menu arrives.
 */
module Storage {
  import opened Text
  import opened OrderedDict
  import opened Selections
  import opened Cart
  import opened Pricing

  // ----- the legacy record form -----

  /** A stored value that may not be an object; missing text fields read as "". */
  datatype RawEntry =
    | NotAnObject
    | Fields(menuItemId: string, branchMenuItemId: string, quantity: int, note: string,
             selections: Option<CartSelections>)

  datatype SourceEntry = SourceEntry(legacyKey: string, entry: RawEntry)

  function EntryItemId(e: SourceEntry): string
    requires e.entry.Fields?
  {
    Trim(if e.entry.menuItemId != "" then e.entry.menuItemId else e.legacyKey)
  }

  function ParseCartLineEntry(e: SourceEntry): Option<CartItem> {
    if e.entry.NotAnObject? || EntryItemId(e) == "" || e.entry.quantity <= 0 then None
    else
      Some(CartItem(
        Trim(e.entry.branchMenuItemId),
        EntryItemId(e),
        e.entry.quantity,
        e.entry.note,
        match e.entry.selections case None => map[] case Some(s) => NormalizeSelections(s)))
  }

  function ParsedLine(e: SourceEntry): (r: seq<Line>)
    ensures |r| <= 1
    ensures forall i :: 0 <= i < |r| ==> GoodLine(r[i]) && Settled(r[i].value)
  {
    match ParseCartLineEntry(e)
    case None => []
    case Some(line) => [Entry(KeyOf(line), line)]
  }

  function RestoredFromStorage(source: seq<SourceEntry>): CartMap {
    Merge(Collect(source, ParsedLine), KeepFirst)
  }

  method RestoreCartFromStorage(source: seq<SourceEntry>) returns (next: CartMap)
    ensures next == RestoredFromStorage(source)
  {
    hide Merge, Collect, Put, Find, ParseCartLineEntry, BuildCartLineKey;
    MergeCollectEmpty(source, ParsedLine, KeepFirst);
    next := [];
    for i := 0 to |source|
      invariant next == RestoredFromStorage(source[..i])
    {
      MergeCollectStep(source, i, ParsedLine, KeepFirst);
      var parsed := ParseCartLineEntry(source[i]);
      if parsed.Some? {
        var lineKey := BuildCartLineKey(parsed.value.menuItemId, parsed.value.selections, parsed.value.note);
        var existing := Find(next, lineKey);
        assert ParsedLine(source[i]) == [Entry(lineKey, parsed.value)];
        if existing.Some? {
          next := Put(next, lineKey, existing.value.(quantity := existing.value.quantity + parsed.value.quantity));
        } else {
          next := Put(next, lineKey, parsed.value);
        }
      }
    }
  }

  /** The entry is valid and belongs under the key. Its item id is its own or else its key's text. */
  predicate Adds(e: SourceEntry, k: LineKey) {
    && e.entry.Fields? && e.entry.quantity > 0
    && var id := if e.entry.menuItemId != "" then e.entry.menuItemId else e.legacyKey;
       Trim(id) != "" && k == BuildCartLineKey(id, e.entry.selections.GetOr(map[]), e.entry.note)
  }

  /** What the valid entries of a source contribute to one key. */
  function Contributed(source: seq<SourceEntry>, k: LineKey): int {
    if source == [] then 0
    else
      var last := source[|source| - 1];
      Contributed(source[..|source| - 1], k) + if Adds(last, k) then last.entry.quantity else 0
  }

  /** What one entry contributes. */
  lemma EntryQuantity(e: SourceEntry, k: LineKey)
    ensures Yields(ParsedLine, e, k) <==> Adds(e, k)
    ensures Quantity(ParsedLine(e), ForKey(k)) == if Adds(e, k) then e.entry.quantity else 0
  {
    if ParseCartLineEntry(e).Some? {
      assert ParsedLine(e)[..0] == [];
      assert KeyOf(ParseCartLineEntry(e).value)
          == BuildCartLineKey(EntryItemId(e), e.entry.selections.GetOr(map[]), e.entry.note);
    }
  }

  lemma {:induction false} ParsedQuantity(source: seq<SourceEntry>, k: LineKey)
    ensures Quantity(Collect(source, ParsedLine), ForKey(k)) == Contributed(source, k)
  {
    hide ParsedLine, ParseCartLineEntry, Adds, ForKey;
    if source != [] {
      var front, last := source[..|source| - 1], source[|source| - 1];
      ParsedQuantity(front, k);
      QuantityConcat(Collect(front, ParsedLine), ParsedLine(last), ForKey(k));
      EntryQuantity(last, k);
    }
  }

  /**
   Restoring a legacy record: whatever was stored, the result is a good cart, and under every
   key it holds exactly what the valid entries with that key contribute, so that a key is
   present exactly when this sum is positive.
   */
  lemma RestoreConserves(source: seq<SourceEntry>, k: LineKey)
    ensures Good(RestoredFromStorage(source))
    ensures Held(RestoredFromStorage(source), k) == Contributed(source, k)
    ensures Has(RestoredFromStorage(source), k) <==> Contributed(source, k) > 0
  {
    var lines := Collect(source, ParsedLine);
    CollectKeeps(source, ParsedLine, GoodLine);
    MergeGood(lines, KeepFirst);
    MergeConserves(lines, KeepFirst, ForKey(k));
    QuantityAtKey(RestoredFromStorage(source), k);
    ParsedQuantity(source, k);
  }

  /** The whole line under a key: the fields of the first valid entry with that key, its note as it
      was, and the sum of the quantities of all of them. */
  lemma RestoredLine(source: seq<SourceEntry>, k: LineKey) returns (i: nat)
    requires Has(RestoredFromStorage(source), k)
    ensures i < |source| && Adds(source[i], k) && forall j :: 0 <= j < i ==> !Adds(source[j], k)
    ensures var e := source[i].entry;
            Find(RestoredFromStorage(source), k) ==
              Some(CartItem(Trim(e.branchMenuItemId), k.menuItemId, Contributed(source, k), e.note, k.selections))
  {
    hide Merge, Collect, ParsedLine, Adds, Find, Quantity;
    var lines := Collect(source, ParsedLine);
    MergeAt(lines, KeepFirst, k);
    FindMerged(lines, KeepFirst, k);
    i := PickFrom(source, ParsedLine, k, KeepFirst);
    forall j | 0 <= j <= i ensures Yields(ParsedLine, source[j], k) <==> Adds(source[j], k) {
      EntryQuantity(source[j], k);
    }
    ParsedFields(source[i], k);
    ParsedQuantity(source, k);
  }

  lemma FindMerged(lines: seq<Line>, policy: Policy, k: LineKey)
    ensures Has(Merge(lines, policy), k) <==> Find(Merge(lines, policy), k).Some?
  {
  }

  lemma ParsedFields(e: SourceEntry, k: LineKey)
    requires Yields(ParsedLine, e, k)
    ensures e.entry.Fields?
    ensures var line := ParsedLine(e)[0].value;
            && line.branchMenuItemId == Trim(e.entry.branchMenuItemId) && line.menuItemId == k.menuItemId
            && line.note == e.entry.note && line.selections == k.selections
  {
  }

  /** A line that parsing leaves alone. */
  ghost predicate Settled(line: CartItem) {
    && line.menuItemId != "" && Trimmed(line.menuItemId) && Trimmed(line.branchMenuItemId)
    && line.quantity >= 1 && Canonical(line.selections)
  }

  lemma MergeSettled(lines: seq<Line>, policy: Policy)
    requires forall i :: 0 <= i < |lines| ==> Settled(lines[i].value)
    ensures forall i :: 0 <= i < |Merge(lines, policy)| ==> Settled(Merge(lines, policy)[i].value)
  {
    var p := (e: Line) => Settled(e.value);
    MergeKeeps(lines, policy, p);
    assert forall i :: 0 <= i < |Merge(lines, policy)| ==> p(Merge(lines, policy)[i]);
  }

  /** A line written as a legacy entry; the text of the key is arbitrary. */
  function AsEntry(e: Line, render: LineKey -> string): SourceEntry {
    SourceEntry(render(e.key),
      Fields(e.value.menuItemId, e.value.branchMenuItemId, e.value.quantity, e.value.note, Some(e.value.selections)))
  }

  function AsSource(cart: CartMap, render: LineKey -> string): (r: seq<SourceEntry>)
    ensures |r| == |cart|
  {
    seq(|cart|, i requires 0 <= i < |cart| => AsEntry(cart[i], render))
  }

  lemma ParseOfSettledLine(e: Line, render: LineKey -> string)
    requires e.key == KeyOf(e.value) && Settled(e.value)
    ensures ParsedLine(AsEntry(e, render)) == [e]
  {
    assert ParseCartLineEntry(AsEntry(e, render)) == Some(e.value);
  }

  lemma {:induction false} ParseOfSettled(cart: CartMap, render: LineKey -> string)
    requires WellKeyed(cart)
    requires forall i :: 0 <= i < |cart| ==> Settled(cart[i].value)
    ensures Collect(AsSource(cart, render), ParsedLine) == cart
  {
    hide ParsedLine, AsEntry, Settled, KeyOf;
    if cart != [] {
      var n := |cart| - 1;
      var front, source := cart[..n], AsSource(cart, render);
      ParseOfSettled(front, render);
      assert source[..n] == AsSource(front, render);
      ParseOfSettledLine(cart[n], render);
      assert source[n] == AsEntry(cart[n], render);
      assert Collect(source, ParsedLine) == front + [cart[n]];
    }
  }

  /** A well-keyed cart survives the trip through the legacy record exactly when its lines are
      settled: that is the form every restored cart already has. */
  lemma StorageRoundTripIff(cart: CartMap, render: LineKey -> string)
    requires WellKeyed(cart)
    ensures RestoredFromStorage(AsSource(cart, render)) == cart
            <==> forall i :: 0 <= i < |cart| ==> Settled(cart[i].value)
  {
    var source := AsSource(cart, render);
    if forall i :: 0 <= i < |cart| ==> Settled(cart[i].value) {
      ParseOfSettled(cart, render);
      MergeDistinctIsIdentity(cart, KeepFirst);
    }
    CollectKeeps(source, ParsedLine, (e: Line) => Settled(e.value));
    MergeSettled(Collect(source, ParsedLine), KeepFirst);
  }

  lemma RestoreIsFixpoint(source: seq<SourceEntry>, render: LineKey -> string)
    ensures var cart := RestoredFromStorage(source);
            RestoredFromStorage(AsSource(cart, render)) == cart
  {
    var lines := Collect(source, ParsedLine);
    CollectKeeps(source, ParsedLine, GoodLine);
    CollectKeeps(source, ParsedLine, (e: Line) => Settled(e.value));
    MergeGood(lines, KeepFirst);
    MergeSettled(lines, KeepFirst);
    StorageRoundTripIff(RestoredFromStorage(source), render);
  }

  // ----- the snapshot form -----

  datatype SnapshotItem = SnapshotItem(
    branchMenuItemId: string,
    menuItemId: string,
    basePrice: int,
    quantity: int,
    selectedOptions: SelectedOptions,
    unitPrice: int,
    totalPrice: int,
    rawSelections: Option<CartSelections>)

  function LookupItem(menu: Menu, id: string): Option<MenuItem> {
    if id in menu then Some(menu[id]) else None
  }

  function SnapshotLine(line: CartItem, menu: Menu): SnapshotItem {
    var item := LookupItem(menu, line.menuItemId);
    var base := if item.Some? then item.value.price else 0;
    var options := InferSelectedOptions(item, line.selections, line.note);
    var unit := base + SizePrice(options.size) + TotalOf(options.toppings);
    SnapshotItem(line.branchMenuItemId, line.menuItemId, base, line.quantity, options, unit,
                 unit * line.quantity, Some(NormalizeSelections(line.selections)))
  }

  /** `cartStorageSnapshot.items`: one item for every line of positive quantity. */
  function Snapshot(cart: CartMap, menu: Menu): seq<SnapshotItem> {
    if cart == [] then []
    else
      var line := cart[|cart| - 1].value;
      Snapshot(cart[..|cart| - 1], menu) + if line.quantity > 0 then [SnapshotLine(line, menu)] else []
  }

  function ToppingNames(toppings: seq<Priced>): seq<string> {
    seq(|toppings|, i requires 0 <= i < |toppings| => toppings[i].name)
  }

  /** Selections rebuilt from the display names, for snapshots without raw selections. */
  function SelectionsFromOptions(o: SelectedOptions): CartSelections {
    var sizeName := match o.size case None => "" case Some(p) => Trim(p.name);
    var names := NonBlank(ToppingNames(o.toppings));
    (if sizeName != "" then map["size" := One(sizeName)] else map[]) +
    (if names != [] then map["toppings" := Many(names)] else map[])
  }

  function RestoredSelections(item: SnapshotItem): CartSelections {
    match item.rawSelections
    case Some(raw) => NormalizeSelections(raw)
    case None => NormalizeSelections(SelectionsFromOptions(item.selectedOptions))
  }

  function SnapshotEntry(item: SnapshotItem): (r: seq<Line>)
    ensures |r| <= 1
    ensures forall i :: 0 <= i < |r| ==> GoodLine(r[i]) && Settled(r[i].value)
  {
    var menuItemId, note := Trim(item.menuItemId), Trim(item.selectedOptions.note);
    if menuItemId == "" || item.quantity <= 0 then []
    else
      [Entry(BuildCartLineKey(menuItemId, RestoredSelections(item), note),
             CartItem(Trim(item.branchMenuItemId), menuItemId, item.quantity, note, RestoredSelections(item)))]
  }

  function RestoredFromSnapshot(items: seq<SnapshotItem>): CartMap {
    Merge(Collect(items, SnapshotEntry), KeepLast)
  }

  method RestoreCartFromSnapshot(items: seq<SnapshotItem>) returns (next: CartMap)
    ensures next == RestoredFromSnapshot(items)
  {
    hide Merge, Collect, Put, Find, RestoredSelections, BuildCartLineKey;
    MergeCollectEmpty(items, SnapshotEntry, KeepLast);
    next := [];
    for i := 0 to |items|
      invariant next == RestoredFromSnapshot(items[..i])
    {
      MergeCollectStep(items, i, SnapshotEntry, KeepLast);
      var item := items[i];
      var menuItemId := Trim(item.menuItemId);
      if menuItemId == "" || item.quantity <= 0 {
        continue;
      }
      var note, selections := Trim(item.selectedOptions.note), RestoredSelections(item);
      var lineKey := BuildCartLineKey(menuItemId, selections, note);
      var existing := Find(next, lineKey);
      var already := if existing.Some? then existing.value.quantity else 0;
      var stored := CartItem(Trim(item.branchMenuItemId), menuItemId, already + item.quantity, note, selections);
      assert SnapshotEntry(item) == [Entry(lineKey, stored.(quantity := item.quantity))];
      assert stored == Combined(existing, SnapshotEntry(item)[0].value, KeepLast);
      next := Put(next, lineKey, stored);
    }
  }

  /** Whatever a stored or received snapshot holds, the restored cart is good, and each of its
      lines would be restored unchanged. */
  lemma RestoredSnapshotGood(items: seq<SnapshotItem>)
    ensures Good(RestoredFromSnapshot(items))
    ensures forall i :: 0 <= i < |RestoredFromSnapshot(items)| ==> Settled(RestoredFromSnapshot(items)[i].value)
  {
    CollectKeeps(items, SnapshotEntry, GoodLine);
    CollectKeeps(items, SnapshotEntry, (e: Line) => Settled(e.value));
    MergeGood(Collect(items, SnapshotEntry), KeepLast);
    MergeSettled(Collect(items, SnapshotEntry), KeepLast);
  }

  /** Selections that come with the item are kept up to canonical form. */
  lemma GivenSelectionsKept(item: SnapshotItem)
    requires item.rawSelections.Some?
    ensures var raw, r := item.rawSelections.value, RestoredSelections(item);
            r.Keys == raw.Keys && Canonical(r) && forall k :: k in raw && k in r ==> SameChoice(raw[k], r[k])
  {
    hide SameChoice, Canonical;
    NormalizedSelectionsIff(item.rawSelections.value, RestoredSelections(item));
  }

  ghost predicate NamesTopping(o: SelectedOptions, y: string) {
    y != "" && exists i :: 0 <= i < |o.toppings| && Trim(o.toppings[i].name) == y
  }

  lemma ToppingNamed(o: SelectedOptions, y: string)
    ensures y in NonBlank(ToppingNames(o.toppings)) <==> NamesTopping(o, y)
    ensures NamesTopping(o, y) ==> y != "" && Trimmed(y)
  {
    var names := ToppingNames(o.toppings);
    if i :| 0 <= i < |o.toppings| && Trim(o.toppings[i].name) == y { assert Trim(names[i]) == y; }
  }

  /** Without selections the display names stand in: the size, and the list of the toppings. */
  lemma NamedSelections(item: SnapshotItem)
    requires item.rawSelections.None?
    ensures var r, o := RestoredSelections(item), item.selectedOptions;
            && Canonical(r) && r.Keys <= {"size", "toppings"}
            && ("size" in r <==> o.size.Some? && Trim(o.size.value.name) != "")
            && ("size" in r ==> r["size"] == One(Trim(o.size.value.name)))
            && ("toppings" in r <==> exists y :: NamesTopping(o, y))
            && ("toppings" in r ==> r["toppings"].Many?)
            && ("toppings" in r ==> forall y :: y in r["toppings"].texts <==> NamesTopping(o, y))
  {
    hide Canonical, NonBlank, ToppingNames, NamesTopping, Trimmed;
    assert "size" != "toppings" by { assert |"size"| != |"toppings"|; }
    var o := item.selectedOptions;
    var names := NonBlank(ToppingNames(o.toppings));
    forall y
      ensures y in names <==> NamesTopping(o, y)
      ensures y in names ==> y != "" && Trimmed(y)
    {
      ToppingNamed(o, y);
    }
    if names != [] {
      assert names[0] in names;
      forall i | 0 <= i < |names| ensures names[i] != "" && Trimmed(names[i]) { assert names[i] in names; }
      NormalizedNames(names);
    }
  }

  lemma NormalizedNames(names: seq<string>)
    requires forall i :: 0 <= i < |names| ==> names[i] != "" && Trimmed(names[i])
    ensures var v := NormalizeSelectionValue(Many(names)); v.Many? && forall y :: y in v.texts <==> y in names
  {
  }

  /** The item is valid and belongs under the key. */
  predicate AddsItem(item: SnapshotItem, k: LineKey) {
    && item.quantity > 0 && Trim(item.menuItemId) != ""
    && k == BuildCartLineKey(item.menuItemId, RestoredSelections(item), item.selectedOptions.note)
  }

  function ContributedItems(items: seq<SnapshotItem>, k: LineKey): int {
    if items == [] then 0
    else
      var last := items[|items| - 1];
      ContributedItems(items[..|items| - 1], k) + if AddsItem(last, k) then last.quantity else 0
  }

  lemma ItemQuantity(item: SnapshotItem, k: LineKey)
    ensures Yields(SnapshotEntry, item, k) <==> AddsItem(item, k)
    ensures Quantity(SnapshotEntry(item), ForKey(k)) == if AddsItem(item, k) then item.quantity else 0
    ensures Yields(SnapshotEntry, item, k) ==>
      SnapshotEntry(item)[0].value ==
        CartItem(Trim(item.branchMenuItemId), k.menuItemId, item.quantity, k.note, k.selections)
  {
    hide RestoredSelections;
    if SnapshotEntry(item) != [] {
      assert SnapshotEntry(item)[..0] == [];
      RestoredSelectionsCanonical(item);
    }
  }

  lemma RestoredSelectionsCanonical(item: SnapshotItem)
    ensures Canonical(RestoredSelections(item))
  {
  }

  lemma {:induction false} ItemsQuantity(items: seq<SnapshotItem>, k: LineKey)
    ensures Quantity(Collect(items, SnapshotEntry), ForKey(k)) == ContributedItems(items, k)
  {
    hide SnapshotEntry, AddsItem, ForKey;
    if items != [] {
      var front, last := items[..|items| - 1], items[|items| - 1];
      ItemsQuantity(front, k);
      QuantityConcat(Collect(front, SnapshotEntry), SnapshotEntry(last), ForKey(k));
      ItemQuantity(last, k);
    }
  }

  /** Under every key the restored snapshot holds exactly what its valid items contribute. */
  lemma SnapshotConserves(items: seq<SnapshotItem>, k: LineKey)
    ensures Held(RestoredFromSnapshot(items), k) == ContributedItems(items, k)
    ensures Has(RestoredFromSnapshot(items), k) <==> ContributedItems(items, k) > 0
  {
    hide Merge, Collect, SnapshotEntry;
    var lines, cart := Collect(items, SnapshotEntry), RestoredFromSnapshot(items);
    RestoredSnapshotGood(items);
    MergeConserves(lines, KeepLast, ForKey(k));
    QuantityAtKey(cart, k);
    ItemsQuantity(items, k);
    HeldIsPositive(cart, k);
  }

  lemma HeldIsPositive(cart: CartMap, k: LineKey)
    requires Good(cart)
    ensures Has(cart, k) <==> Held(cart, k) > 0
  {
  }

  /** The whole line under a key: the branch id of the last valid item with that key, and the sum of
      the quantities of all of them. */
  lemma RestoredItemLine(items: seq<SnapshotItem>, k: LineKey) returns (i: nat)
    requires Has(RestoredFromSnapshot(items), k)
    ensures i < |items| && AddsItem(items[i], k) && forall j :: i < j < |items| ==> !AddsItem(items[j], k)
    ensures Find(RestoredFromSnapshot(items), k) == Some(CartItem(
      Trim(items[i].branchMenuItemId), k.menuItemId, ContributedItems(items, k), k.note, k.selections))
  {
    hide Merge, Collect, SnapshotEntry, AddsItem, Find, Quantity;
    var lines := Collect(items, SnapshotEntry);
    MergeAt(lines, KeepLast, k);
    FindMerged(lines, KeepLast, k);
    i := PickFrom(items, SnapshotEntry, k, KeepLast);
    forall j | i <= j < |items| ensures Yields(SnapshotEntry, items[j], k) <==> AddsItem(items[j], k) {
      ItemQuantity(items[j], k);
    }
    ItemQuantity(items[i], k);
    ItemsQuantity(items, k);
  }

  /** A line as it comes back: outer blanks removed, selections canonical, key unchanged. */
  function Tidied(e: Line): Line {
    Entry(e.key,
      CartItem(Trim(e.value.branchMenuItemId), Trim(e.value.menuItemId), e.value.quantity,
               Trim(e.value.note), NormalizeSelections(e.value.selections)))
  }

  /** A line the snapshot brings back. */
  predicate Storable(line: CartItem) {
    line.quantity > 0 && Trim(line.menuItemId) != ""
  }

  function TidiedLines(cart: CartMap): seq<Line> {
    if cart == [] then []
    else
      var last := cart[|cart| - 1];
      TidiedLines(cart[..|cart| - 1]) + if Storable(last.value) then [Tidied(last)] else []
  }

  lemma SnapshotEntryOf(e: Line, menu: Menu)
    requires e.key == KeyOf(e.value) && e.value.quantity > 0
    ensures SnapshotEntry(SnapshotLine(e.value, menu)) == if Storable(e.value) then [Tidied(e)] else []
  {
  }

  lemma {:induction false} SnapshotEntriesOf(cart: CartMap, menu: Menu)
    requires WellKeyed(cart)
    ensures Collect(Snapshot(cart, menu), SnapshotEntry) == TidiedLines(cart)
  {
    if cart != [] {
      var n := |cart| - 1;
      var front, items := cart[..n], Snapshot(cart, menu);
      SnapshotEntriesOf(front, menu);
      if cart[n].value.quantity > 0 {
        assert items[..|items| - 1] == Snapshot(front, menu);
        SnapshotEntryOf(cart[n], menu);
      } else {
        assert items == Snapshot(front, menu);
      }
    }
  }

  lemma {:induction false} TidiedLinesKeys(cart: CartMap, k: LineKey)
    ensures Has(TidiedLines(cart), k) ==> Has(cart, k)
    ensures |TidiedLines(cart)| <= |cart|
  {
    if cart != [] {
      var front := cart[..|cart| - 1];
      TidiedLinesKeys(front, k);
      var before := TidiedLines(front);
      HasFront(cart, k);
      if Storable(cart[|cart| - 1].value) {
        var all := TidiedLines(cart);
        assert all == before + [Tidied(cart[|cart| - 1])] && all[..|before|] == before;
        HasFront(all, k);
      } else {
        assert TidiedLines(cart) == before;
      }
    }
  }

  lemma {:induction false} TidiedLinesDistinct(cart: CartMap)
    requires Distinct(cart)
    ensures Distinct(TidiedLines(cart))
  {
    if cart != [] {
      var front, last := cart[..|cart| - 1], cart[|cart| - 1];
      TidiedLinesDistinct(front);
      TidiedLinesKeys(front, last.key);
      var before := TidiedLines(front);
      HasIff(front, last.key);
      HasIff(before, last.key);
    }
  }

  lemma {:induction false} TidiedLinesAll(cart: CartMap)
    requires forall i :: 0 <= i < |cart| ==> Storable(cart[i].value)
    ensures |TidiedLines(cart)| == |cart|
    ensures forall i :: 0 <= i < |cart| ==> TidiedLines(cart)[i] == Tidied(cart[i])
  {
    hide Storable, Tidied;
    if cart != [] {
      var n := |cart| - 1;
      var front := cart[..n];
      assert forall i :: 0 <= i < n ==> front[i] == cart[i];
      TidiedLinesAll(front);
      assert TidiedLines(cart) == TidiedLines(front) + [Tidied(cart[n])];
    }
  }

  lemma {:induction false} TidiedLinesShorter(cart: CartMap, i: nat)
    requires i < |cart| && !Storable(cart[i].value)
    ensures |TidiedLines(cart)| < |cart|
  {
    var n := |cart| - 1;
    var front := cart[..n];
    if i < n {
      assert front[i] == cart[i];
      TidiedLinesShorter(front, i);
    } else {
      TidiedLinesKeys(front, cart[n].key);
      assert TidiedLines(cart) == TidiedLines(front) + [];
    }
  }

  /**
   Round trip through the stored snapshot, for every menu: the restored cart is the old one
   without the lines that cannot be stored, every other line keeping its key, its place and its
   quantity, with outer blanks of ids and note removed.
   */
  lemma SnapshotRoundTrip(cart: CartMap, menu: Menu)
    requires WellKeyed(cart)
    ensures RestoredFromSnapshot(Snapshot(cart, menu)) == TidiedLines(cart)
  {
    SnapshotEntriesOf(cart, menu);
    TidiedLinesDistinct(cart);
    MergeDistinctIsIdentity(TidiedLines(cart), KeepLast);
  }

  /** No line is lost exactly when every line has a positive quantity and a non-blank item id;
      then the result agrees with the old cart line by line. */
  lemma SnapshotKeepsAllLinesIff(cart: CartMap, menu: Menu)
    requires WellKeyed(cart)
    ensures var back := RestoredFromSnapshot(Snapshot(cart, menu));
            && (Keys(back) == Keys(cart) <==> forall i :: 0 <= i < |cart| ==> Storable(cart[i].value))
            && (Keys(back) == Keys(cart) ==> forall i :: 0 <= i < |cart| ==> back[i] == Tidied(cart[i]))
  {
    SnapshotRoundTrip(cart, menu);
    if i :| 0 <= i < |cart| && !Storable(cart[i].value) {
      TidiedLinesShorter(cart, i);
      assert |Keys(TidiedLines(cart))| < |Keys(cart)|;
    } else {
      TidiedLinesAll(cart);
      assert Keys(TidiedLines(cart)) == Keys(cart);
    }
  }

  // ----- cart total and snapshot total -----

  function LineTotal(line: CartItem, menu: Menu): int {
    if line.quantity > 0 && line.menuItemId in menu then
      var item := menu[line.menuItemId];
      (item.price + CustomizationDelta(item.customizations, line.selections)) * line.quantity
    else 0
  }

  function CartTotal(cart: CartMap, menu: Menu): int {
    if cart == [] then 0
    else CartTotal(cart[..|cart| - 1], menu) + LineTotal(cart[|cart| - 1].value, menu)
  }

  function SnapshotTotal(items: seq<SnapshotItem>): int {
    if items == [] then 0
    else SnapshotTotal(items[..|items| - 1]) + items[|items| - 1].totalPrice
  }

  /** How the snapshot prices a line. */
  lemma SnapshotPrices(line: CartItem, menu: Menu)
    ensures var s := SnapshotLine(line, menu);
            && s.totalPrice == s.unitPrice * line.quantity
            && (line.menuItemId !in menu ==> s.unitPrice == s.basePrice == 0)
            && (line.menuItemId in menu ==>
                  var item := menu[line.menuItemId];
                  s.basePrice == item.price
                  && s.unitPrice == item.price + SnapshotExtra(item.customizations, line.selections))
  {
    hide InferSize, InferToppings, NormalizeSelections, SizePrice;
    NoSizeNoPrice();
  }

  /** What else the snapshot keeps of a line: ids and quantity as they are, the note without outer blanks,
      the choices up to canonical form, and of an item off the menu neither size nor toppings. */
  lemma SnapshotFields(line: CartItem, menu: Menu)
    ensures var s := SnapshotLine(line, menu);
            && s.branchMenuItemId == line.branchMenuItemId && s.menuItemId == line.menuItemId
            && s.quantity == line.quantity && s.selectedOptions.note == Trim(line.note)
            && s.rawSelections.Some? && NormalizeSelections(line.selections) == s.rawSelections.value
            && (line.menuItemId !in menu ==> s.selectedOptions.size == None && s.selectedOptions.toppings == [])
  {
    hide InferSize, InferToppings, SnapshotExtra;
  }

  /** The two totals of one line agree exactly when the line's options are priced alike. */
  lemma LineTotalsCompared(line: CartItem, menu: Menu)
    ensures line.quantity > 0 && line.menuItemId !in menu ==>
      SnapshotLine(line, menu).totalPrice == LineTotal(line, menu)
    ensures line.quantity > 0 && line.menuItemId in menu ==>
      var groups := menu[line.menuItemId].customizations;
      (SnapshotLine(line, menu).totalPrice == LineTotal(line, menu)
       <==> CustomizationDelta(groups, line.selections) == SnapshotExtra(groups, line.selections))
    ensures line.quantity <= 0 ==> LineTotal(line, menu) == 0
  {
    hide SnapshotLine, CustomizationDelta, SnapshotExtra;
    SnapshotPrices(line, menu);
    if line.quantity > 0 && line.menuItemId in menu {
      var item := menu[line.menuItemId];
      TimesPositive(SnapshotLine(line, menu).unitPrice,
        item.price + CustomizationDelta(item.customizations, line.selections), line.quantity);
    }
  }

  lemma NoSizeNoPrice()
    ensures SizePrice(None) == 0
  {
  }

  lemma TimesPositive(a: int, b: int, q: int)
    requires q > 0
    ensures a * q == b * q <==> a == b
  {
    if a != b { assert (a - b) * q != 0; }
  }

  lemma {:induction false} PricedAlikeTotalsAgree(cart: CartMap, menu: Menu)
    requires forall i :: 0 <= i < |cart| ==> Canonical(cart[i].value.selections)
    requires forall id :: id in menu ==> PricedAlike(menu[id].customizations)
    ensures SnapshotTotal(Snapshot(cart, menu)) == CartTotal(cart, menu)
  {
    hide SnapshotLine, LineTotal, CustomizationDelta, SnapshotExtra, Canonical;
    if cart != [] {
      var front, line := cart[..|cart| - 1], cart[|cart| - 1].value;
      PricedAlikeTotalsAgree(front, menu);
      LineTotalsCompared(line, menu);
      var items := Snapshot(cart, menu);
      if line.quantity > 0 {
        assert items[..|items| - 1] == Snapshot(front, menu);
        if line.menuItemId in menu {
          assert SamePrice(menu[line.menuItemId].customizations, line.selections);
        }
      } else {
        assert items == Snapshot(front, menu);
      }
    }
  }

  /** Aligned menus price every cart with canonical selections alike, repeated group ids included. */
  lemma AlignedTotalsAgree(cart: CartMap, menu: Menu)
    requires forall i :: 0 <= i < |cart| ==> Canonical(cart[i].value.selections)
    requires forall id :: id in menu ==> Aligned(menu[id].customizations)
    ensures SnapshotTotal(Snapshot(cart, menu)) == CartTotal(cart, menu)
  {
    hide SnapshotTotal, Snapshot, CartTotal, SamePrice, Canonical, Aligned;
    forall id | id in menu ensures PricedAlike(menu[id].customizations) {
      forall s | Canonical(s) ensures SamePrice(menu[id].customizations, s) {
        AlignedPricesAgree(menu[id].customizations, s);
      }
    }
    PricedAlikeTotalsAgree(cart, menu);
  }

  lemma SingleLineTotals(line: CartItem, menu: Menu)
    requires line.quantity > 0
    ensures CartTotal([Entry(KeyOf(line), line)], menu) == LineTotal(line, menu)
    ensures SnapshotTotal(Snapshot([Entry(KeyOf(line), line)], menu)) == SnapshotLine(line, menu).totalPrice
  {
    var cart := [Entry(KeyOf(line), line)];
    assert cart[..0] == [];
    var items := Snapshot(cart, menu);
    assert Snapshot(cart[..0], menu) == [];
    assert items == [SnapshotLine(line, menu)];
    assert items[..0] == [];
  }

  ghost predicate TotalsAgree(cart: CartMap, menu: Menu) {
    SnapshotTotal(Snapshot(cart, menu)) == CartTotal(cart, menu)
  }

  lemma SingleLineGood(line: CartItem)
    requires Canonical(line.selections) && line.quantity >= 1
    ensures Good([Entry(KeyOf(line), line)])
  {
  }

  /** For every menu: the totals agree for all good carts exactly when every menu item prices the
      canonical selections alike. */
  lemma TotalsFollowPricesIff(menu: Menu)
    ensures (forall cart :: Good(cart) ==> TotalsAgree(cart, menu))
            <==> forall id :: id in menu ==> PricedAlike(menu[id].customizations)
  {
    hide SnapshotLine, LineTotal, Snapshot, CartTotal, SnapshotTotal, CustomizationDelta, SnapshotExtra, Canonical,
      WellKeyed;
    if id :| id in menu && !PricedAlike(menu[id].customizations) {
      var s :| Canonical(s) && !SamePrice(menu[id].customizations, s);
      var line := CartItem("", id, 1, "", s);
      SingleLineGood(line);
      SingleLineTotals(line, menu);
      LineTotalsCompared(line, menu);
      assert !TotalsAgree([Entry(KeyOf(line), line)], menu);
    } else {
      forall cart | Good(cart) ensures TotalsAgree(cart, menu) {
        PricedAlikeTotalsAgree(cart, menu);
      }
    }
  }

  /** The line totals of the snapshot add up to the cart total for every good cart exactly when
      every menu item is aligned. */
  lemma TotalsAgreeIff(menu: Menu)
    requires forall id :: id in menu ==> DistinctIds(menu[id].customizations)
    ensures (forall cart :: Good(cart) ==> TotalsAgree(cart, menu))
            <==> forall id :: id in menu ==> Aligned(menu[id].customizations)
  {
    hide TotalsAgree, Good, PricedAlike, Aligned, DistinctIds;
    TotalsFollowPricesIff(menu);
    forall id | id in menu ensures PricedAlike(menu[id].customizations) <==> Aligned(menu[id].customizations) {
      PricesAgreeIff(menu[id].customizations);
    }
  }
}

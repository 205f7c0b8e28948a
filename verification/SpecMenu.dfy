/**
 Menu items in the sizes-and-toppings form: the groups built for them, their prices, and carts
 restored from display names alone.
 */
module SpecMenu {
  import opened Text
  import opened Selections
  import opened Pricing
  import opened Storage

  datatype Named = Named(name: string, priceModifier: int)

  function OptionsOf(entries: seq<Named>): (r: seq<MenuOption>)
    ensures |r| == |entries|
    ensures forall i :: 0 <= i < |r| ==> r[i] == MenuOption(entries[i].name, entries[i].name, entries[i].priceModifier)
  {
    seq(|entries|, i requires 0 <= i < |entries| =>
      MenuOption(entries[i].name, entries[i].name, entries[i].priceModifier))
  }

  function SizeGroup(sizes: seq<Named>): Group { Group("size", "Size", Single, OptionsOf(sizes)) }

  function ToppingGroup(toppings: seq<Named>): Group { Group("toppings", "Topping", Multi, OptionsOf(toppings)) }

  /** `normalizeSpecOptionsToCustomizations`. */
  function SpecGroups(sizes: seq<Named>, toppings: seq<Named>): seq<Group> {
    (if sizes != [] then [SizeGroup(sizes)] else []) + (if toppings != [] then [ToppingGroup(toppings)] else [])
  }

  lemma GroupKinds(sizes: seq<Named>, toppings: seq<Named>)
    ensures IsSizeGroup(SizeGroup(sizes)) && !IsToppingGroup(SizeGroup(sizes))
    ensures IsToppingGroup(ToppingGroup(toppings)) && !IsSizeGroup(ToppingGroup(toppings))
  {
    assert ToLower("Size") == "size" && "size" <= "size"[0..];
    assert ToLower("Topping") == "topping" && "topping" <= "topping"[0..];
  }

  /** Such an item is priced alike in the cart and in the snapshot for every canonical selection
      exactly when no blank size name is charged. */
  lemma SpecPricesAgreeIff(sizes: seq<Named>, toppings: seq<Named>)
    ensures PricedAlike(SpecGroups(sizes, toppings)) <==> PriceOf(OptionsOf(sizes), "") == 0
  {
    hide PricedAlike, IsSizeGroup, IsToppingGroup;
    var groups := SpecGroups(sizes, toppings);
    GroupKinds(sizes, toppings);
    PricesAgreeIff(groups);
    assert forall i :: 0 <= i < |groups| ==>
      (groups[i] == SizeGroup(sizes) && sizes != []) || groups[i] == ToppingGroup(toppings);
    if sizes == [] {
      assert OptionsOf(sizes) == [];
    } else {
      assert groups[0] == SizeGroup(sizes);
    }
  }

  // ----- restoring from display names -----

  ghost predicate CleanNames(entries: seq<Named>) {
    forall i :: 0 <= i < |entries| ==> entries[i].name != "" && Trimmed(entries[i].name)
  }

  lemma FoundName(entries: seq<Named>, value: string)
    requires Allows(OptionsOf(entries), value)
    ensures var o := FindOption(OptionsOf(entries), value); o.Some? && o.value.name == value
  {
    FindOptionListed(OptionsOf(entries), value);
    FoundSame(OptionsOf(entries), value);
  }

  lemma {:induction false} FoundSame(options: seq<MenuOption>, value: string)
    requires forall i :: 0 <= i < |options| ==> options[i].name == options[i].value
    ensures FindOption(options, value).Some? ==> FindOption(options, value).value.name == value
  {
    if options != [] { FoundSame(options[1..], value); }
  }

  lemma {:induction false} ToppingsListed(toppings: seq<Named>, values: seq<string>)
    requires forall i :: 0 <= i < |values| ==> Allows(OptionsOf(toppings), values[i])
    ensures ToppingNames(ListedToppings(OptionsOf(toppings), values)) == values
  {
    if values != [] {
      var n := |values| - 1;
      ToppingsListed(toppings, values[..n]);
      FoundName(toppings, values[n]);
      assert values == values[..n] + [values[n]];
    }
  }

  /** Selections that the repair leaves alone. */
  ghost predicate Settles(m: MenuItem, s: CartSelections) {
    SanitizeSelectionsForMenuItem(Some(m), s) == s
  }

  lemma SizeSettled(m: MenuItem, sizes: seq<Named>, toppings: seq<Named>, s: CartSelections)
    requires m.customizations == SpecGroups(sizes, toppings) && Settles(m, s) && CleanNames(sizes) && sizes != []
    ensures "size" in s && s["size"].One? && s["size"].text != "" && Trimmed(s["size"].text)
    ensures Allows(OptionsOf(sizes), s["size"].text)
  {
    var g := SizeGroup(sizes);
    GroupAt(m, sizes, toppings, s);
    SanitizedValuePermitted(g, Lookup(s, "size"));
    var options := OptionsOf(sizes);
    assert options[0].value == sizes[0].name;
    var t := s["size"].text;
    assert Allows(options, t);
    var i :| 0 <= i < |options| && options[i].value == t;
    assert t == sizes[i].name;
  }

  lemma ToppingsSettled(m: MenuItem, sizes: seq<Named>, toppings: seq<Named>, s: CartSelections)
    requires m.customizations == SpecGroups(sizes, toppings) && Settles(m, s) && toppings != []
    ensures "toppings" in s && s["toppings"].Many? && CanonicalValue(s["toppings"])
    ensures forall i :: 0 <= i < |s["toppings"].texts| ==> Allows(OptionsOf(toppings), s["toppings"].texts[i])
  {
    GroupAt(m, sizes, toppings, s);
    SanitizedValuePermitted(ToppingGroup(toppings), Lookup(s, "toppings"));
  }

  /** Repaired selections have exactly the keys of the two groups, each decided by its group. */
  lemma GroupAt(m: MenuItem, sizes: seq<Named>, toppings: seq<Named>, s: CartSelections)
    requires m.customizations == SpecGroups(sizes, toppings)
    ensures var r := SanitizeSelectionsForMenuItem(Some(m), s);
            && (forall k :: k in r <==> (k == "size" && sizes != []) || (k == "toppings" && toppings != []))
            && (sizes != [] ==>
                  r["size"] == NormalizeSelectionValue(SanitizeGroup(SizeGroup(sizes), Lookup(s, "size"))))
            && (toppings != [] ==>
                  r["toppings"] ==
                    NormalizeSelectionValue(SanitizeGroup(ToppingGroup(toppings), Lookup(s, "toppings"))))
  {
    hide SanitizeGroup, NormalizeSelectionValue, OptionsOf;
    var groups := m.customizations;
    var r := SanitizeSelectionsForMenuItem(Some(m), s);
    forall k ensures k in r <==> (k == "size" && sizes != []) || (k == "toppings" && toppings != []) {
      SanitizeGroupsAt(groups, s, k);
      HasSpecGroup(sizes, toppings, k);
    }
    SanitizeGroupsAt(groups, s, "size");
    SanitizeGroupsAt(groups, s, "toppings");
    HasSpecGroup(sizes, toppings, "size");
    HasSpecGroup(sizes, toppings, "toppings");
  }

  lemma HasSpecGroup(sizes: seq<Named>, toppings: seq<Named>, k: string)
    ensures var groups := SpecGroups(sizes, toppings);
            && (HasGroup(groups, k) <==> (k == "size" && sizes != []) || (k == "toppings" && toppings != []))
            && (sizes != [] ==> HasGroup(groups, "size") && LastGroup(groups, "size") == SizeGroup(sizes))
            && (toppings != [] ==>
                  HasGroup(groups, "toppings") && LastGroup(groups, "toppings") == ToppingGroup(toppings))
  {
    hide OptionsOf;
    var groups := SpecGroups(sizes, toppings);
    assert "size" != "toppings" by { assert |"size"| != |"toppings"|; }
    if sizes != [] { assert groups[0].id == "size"; }
    if toppings != [] { assert groups[|groups| - 1].id == "toppings"; }
    if sizes != [] && toppings != [] { assert groups[..1] == [SizeGroup(sizes)]; }
  }

  lemma InferredOptions(sizes: seq<Named>, toppings: seq<Named>, s: CartSelections)
    ensures var groups := SpecGroups(sizes, toppings);
            && InferSize(groups, s) == (if sizes == [] then None else SizeChoice(SizeGroup(sizes), Lookup(s, "size")))
            && InferToppings(groups, s) ==
                 (if toppings == [] then [] else ToppingChoices(ToppingGroup(toppings), Lookup(s, "toppings")))
  {
    hide OptionsOf, IsSizeGroup, IsToppingGroup;
    GroupKinds(sizes, toppings);
    var groups := SpecGroups(sizes, toppings);
    if sizes != [] && toppings != [] {
      var one := [SizeGroup(sizes)];
      assert groups[..1] == one && one[..0] == [];
      assert SizeChoice(groups[1], Lookup(s, "toppings")) == None;
      assert InferSize(groups, s) == InferSize(one, s);
      assert InferToppings(one, s) == ToppingChoices(one[0], Lookup(s, "size")) == [];
    } else if groups != [] {
      assert groups[..0] == [];
    }
  }

  /**
   For an item of this form, a snapshot that carries only the display names is enough: once the
   menu repairs the restored selections they are the ones that were stored.
   */
  lemma NamesSuffice(m: MenuItem, sizes: seq<Named>, toppings: seq<Named>, s: CartSelections, item: SnapshotItem)
    requires m.customizations == SpecGroups(sizes, toppings) && CleanNames(sizes) && CleanNames(toppings)
    requires Settles(m, s)
    requires item.rawSelections == None
    requires item.selectedOptions == InferSelectedOptions(Some(m), s, item.selectedOptions.note)
    ensures SanitizeSelectionsForMenuItem(Some(m), RestoredSelections(item)) == s
  {
    hide OptionsOf, SanitizeSelectionsForMenuItem, RestoredSelections, SanitizeGroup, NormalizeSelectionValue,
      CleanNames;
    var r := RestoredSelections(item);
    GroupAt(m, sizes, toppings, r);
    GroupAt(m, sizes, toppings, s);
    if sizes != [] { SizeComesBack(m, sizes, toppings, s, item); }
    if toppings != [] { ToppingsComeBack(m, sizes, toppings, s, item); }
    var back := SanitizeSelectionsForMenuItem(Some(m), r);
    assert back.Keys == s.Keys;
  }

  lemma RestoredNames(sizes: seq<Named>, toppings: seq<Named>, o: SelectedOptions, item: SnapshotItem)
    requires item.rawSelections == None && item.selectedOptions == o
    ensures var r := RestoredSelections(item);
            && Lookup(r, "size") ==
                 (if o.size.Some? && Trim(o.size.value.name) != "" then Some(One(Trim(o.size.value.name))) else None)
            && Lookup(r, "toppings") == (var names := NonBlank(ToppingNames(o.toppings));
                 if names != [] then Some(NormalizeSelectionValue(Many(names))) else None)
  {
    assert "size" != "toppings" by { assert |"size"| != |"toppings"|; }
  }

  lemma SizeComesBack(m: MenuItem, sizes: seq<Named>, toppings: seq<Named>, s: CartSelections, item: SnapshotItem)
    requires m.customizations == SpecGroups(sizes, toppings) && CleanNames(sizes) && sizes != [] && Settles(m, s)
    requires item.rawSelections == None
    requires item.selectedOptions == InferSelectedOptions(Some(m), s, item.selectedOptions.note)
    ensures "size" in s
    ensures var back := Lookup(RestoredSelections(item), "size");
            NormalizeSelectionValue(SanitizeGroup(SizeGroup(sizes), back)) == s["size"]
  {
    hide OptionsOf, SanitizeSelectionsForMenuItem, RestoredSelections, InferSize, InferToppings;
    SizeSettled(m, sizes, toppings, s);
    GroupKinds(sizes, toppings);
    InferredOptions(sizes, toppings, s);
    FoundName(sizes, s["size"].text);
    RestoredNames(sizes, toppings, item.selectedOptions, item);
    assert Lookup(RestoredSelections(item), "size") == Some(s["size"]);
  }

  lemma ToppingsComeBack(m: MenuItem, sizes: seq<Named>, toppings: seq<Named>, s: CartSelections, item: SnapshotItem)
    requires m.customizations == SpecGroups(sizes, toppings) && toppings != [] && Settles(m, s)
    requires item.rawSelections == None
    requires item.selectedOptions == InferSelectedOptions(Some(m), s, item.selectedOptions.note)
    ensures "toppings" in s
    ensures var back := Lookup(RestoredSelections(item), "toppings");
            NormalizeSelectionValue(SanitizeGroup(ToppingGroup(toppings), back)) == s["toppings"]
  {
    hide OptionsOf, SanitizeSelectionsForMenuItem, RestoredSelections, InferSize, InferToppings, IsToppingGroup,
      IsSizeGroup;
    ToppingsSettled(m, sizes, toppings, s);
    GroupKinds(sizes, toppings);
    InferredOptions(sizes, toppings, s);
    var ts := s["toppings"].texts;
    ToppingsListed(toppings, ts);
    RestoredNames(sizes, toppings, item.selectedOptions, item);
    assert NonBlank(ts) == ts;
    KeepAllowedAll(OptionsOf(toppings), ts);
    assert Lookup(RestoredSelections(item), "toppings") == if ts == [] then None else Some(s["toppings"]);
  }
}

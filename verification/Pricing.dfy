/**
 The two price computations of the customer page: the customization delta behind the cart
 total, and the size and topping extras inferred for the stored snapshot.
 */
module Pricing {
  import opened Text
  import opened Selections

  datatype Priced = Priced(name: string, priceModifier: int)

  datatype SelectedOptions = SelectedOptions(size: Option<Priced>, toppings: seq<Priced>, note: string)

  /** `options.find(o => o.value === value)`. */
  function FindOption(options: seq<MenuOption>, value: string): Option<MenuOption> {
    if options == [] then None
    else if options[0].value == value then Some(options[0])
    else FindOption(options[1..], value)
  }

  lemma FindOptionListed(options: seq<MenuOption>, value: string)
    ensures FindOption(options, value).Some? <==> Allows(options, value)
  {
    if options != [] {
      FindOptionListed(options[1..], value);
      if Allows(options, value) && options[0].value != value {
        var i :| 0 <= i < |options| && options[i].value == value;
        assert options[1..][i - 1].value == value;
      }
    }
  }

  /** The price a value is charged: that of the first option listing it, nothing if none does. */
  function PriceOf(options: seq<MenuOption>, value: string): int {
    match FindOption(options, value)
    case None => 0
    case Some(o) => o.priceDelta
  }

  function PricesOf(options: seq<MenuOption>, values: seq<string>): int {
    if values == [] then 0
    else PricesOf(options, values[..|values| - 1]) + PriceOf(options, values[|values| - 1])
  }

  // ----- getCustomizationDelta -----

  function GroupDelta(g: Group, selected: Option<SelectionValue>): int {
    if g.options == [] then 0
    else if g.kind == Single && selected.Some? && selected.value.One? then
      PriceOf(g.options, selected.value.text)
    else if g.kind == Multi && selected.Some? && selected.value.Many? then
      PricesOf(g.options, selected.value.texts)
    else 0
  }

  function CustomizationDelta(groups: seq<Group>, s: CartSelections): int {
    if groups == [] then 0
    else
      var g := groups[|groups| - 1];
      CustomizationDelta(groups[..|groups| - 1], s) + GroupDelta(g, Lookup(s, g.id))
  }

  // ----- inferSelectedOptions -----

  predicate IsSizeGroup(g: Group) { g.kind == Single && Includes(ToLower(g.name), "size") }

  predicate IsToppingGroup(g: Group) { g.kind == Multi && Includes(ToLower(g.name), "topping") }

  /** The size a group contributes, when it is a size group with a listed non-empty choice. */
  function SizeChoice(g: Group, selected: Option<SelectionValue>): Option<Priced> {
    if IsSizeGroup(g) && selected.Some? && selected.value.One? && selected.value.text != "" then
      match FindOption(g.options, selected.value.text)
      case None => None
      case Some(o) => Some(Priced(o.name, o.priceDelta))
    else None
  }

  /** Each size group that has a choice overwrites the previous one. */
  function InferSize(groups: seq<Group>, s: CartSelections): Option<Priced> {
    if groups == [] then None
    else
      var g := groups[|groups| - 1];
      var here := SizeChoice(g, Lookup(s, g.id));
      if here.Some? then here else InferSize(groups[..|groups| - 1], s)
  }

  function ListedToppings(options: seq<MenuOption>, values: seq<string>): seq<Priced> {
    if values == [] then []
    else
      ListedToppings(options, values[..|values| - 1]) +
      match FindOption(options, values[|values| - 1])
      case None => []
      case Some(o) => [Priced(o.name, o.priceDelta)]
  }

  function ToppingChoices(g: Group, selected: Option<SelectionValue>): seq<Priced> {
    if IsToppingGroup(g) && selected.Some? && selected.value.Many?
    then ListedToppings(g.options, selected.value.texts) else []
  }

  function InferToppings(groups: seq<Group>, s: CartSelections): seq<Priced> {
    if groups == [] then []
    else
      var g := groups[|groups| - 1];
      InferToppings(groups[..|groups| - 1], s) + ToppingChoices(g, Lookup(s, g.id))
  }

  function InferSelectedOptions(item: Option<MenuItem>, s: CartSelections, note: string): SelectedOptions {
    match item
    case None => SelectedOptions(None, [], Trim(note))
    case Some(m) => SelectedOptions(InferSize(m.customizations, s), InferToppings(m.customizations, s), Trim(note))
  }

  function SizePrice(size: Option<Priced>): int {
    if size.Some? then size.value.priceModifier else 0
  }

  function TotalOf(toppings: seq<Priced>): int {
    if toppings == [] then 0
    else TotalOf(toppings[..|toppings| - 1]) + toppings[|toppings| - 1].priceModifier
  }

  /** `sizeExtra + toppingsExtra` of the snapshot. */
  function SnapshotExtra(groups: seq<Group>, s: CartSelections): int {
    SizePrice(InferSize(groups, s)) + TotalOf(InferToppings(groups, s))
  }

  // ----- labels and single choices -----

  ghost predicate MentionsAt(text: string, word: string, i: nat) {
    i + |word| <= |text| && MatchesIgnoringCase(text[i..i + |word|], word)
  }

  /** The text contains the word, in whatever case. */
  ghost predicate Mentions(text: string, word: string) {
    exists i :: MentionsAt(text, word, i)
  }

  lemma MentionsHere(text: string, word: string, i: nat)
    requires i <= |text| && forall j :: 0 <= j < |word| ==> !('A' <= word[j] <= 'Z')
    ensures word <= ToLower(text)[i..] <==> MentionsAt(text, word, i)
  {
    hide MatchesIgnoringCase;
    var lower := ToLower(text);
    if i + |word| <= |text| {
      assert lower[i..i + |word|] == ToLower(text[i..i + |word|]);
      ToLowerIff(text[i..i + |word|], word);
      assert lower[i..][..|word|] == lower[i..i + |word|];
    }
  }

  lemma MentionsIff(text: string, word: string)
    requires forall i :: 0 <= i < |word| ==> !('A' <= word[i] <= 'Z')
    ensures Includes(ToLower(text), word) <==> Mentions(text, word)
  {
    hide MentionsAt;
    forall i: nat | i <= |text| ensures word <= ToLower(text)[i..] <==> MentionsAt(text, word, i) {
      MentionsHere(text, word, i);
    }
    if i: nat :| MentionsAt(text, word, i) {
      MentionsWithin(text, word, i);
      assert word <= ToLower(text)[i..];
    }
  }

  lemma MentionsWithin(text: string, word: string, i: nat)
    requires MentionsAt(text, word, i)
    ensures i <= |text|
  {
  }

  lemma LabelledIff(g: Group)
    ensures IsSizeGroup(g) <==> g.kind == Single && Mentions(g.name, "size")
    ensures IsToppingGroup(g) <==> g.kind == Multi && Mentions(g.name, "topping")
  {
    MentionsIff(g.name, "size");
    MentionsIff(g.name, "topping");
  }

  /** Option `j` is the first with its value. */
  ghost predicate FirstWith(options: seq<MenuOption>, j: nat) {
    j < |options| && forall i :: 0 <= i < j ==> options[i].value != options[j].value
  }

  lemma {:induction false} FirstFound(options: seq<MenuOption>, j: nat)
    requires FirstWith(options, j)
    ensures FindOption(options, options[j].value) == Some(options[j])
  {
    if j > 0 {
      assert options[1..][j - 1] == options[j];
      assert forall i :: 0 <= i < j - 1 ==> options[1..][i] == options[i + 1];
      assert options[0].value != options[j].value;
      FirstFound(options[1..], j - 1);
    }
  }

  /** Choosing a listed option costs what the first option with that value costs; in a list every
      choice is charged. An unlisted value costs nothing. */
  lemma ChoiceCosts(g: Group, j: nat, rest: seq<string>)
    requires FirstWith(g.options, j)
    ensures var o := g.options[j];
            && (g.kind == Single ==> GroupDelta(g, Some(One(o.value))) == o.priceDelta)
            && (g.kind == Multi ==>
                  GroupDelta(g, Some(Many(rest + [o.value]))) == GroupDelta(g, Some(Many(rest))) + o.priceDelta)
            && (IsSizeGroup(g) && o.value != "" ==>
                  SizeChoice(g, Some(One(o.value))) == Some(Priced(o.name, o.priceDelta)))
            && (IsToppingGroup(g) ==>
                  ToppingChoices(g, Some(Many(rest + [o.value]))) ==
                    ToppingChoices(g, Some(Many(rest))) + [Priced(o.name, o.priceDelta)])
    ensures GroupDelta(g, None) == 0 && GroupDelta(g, Some(Many([]))) == 0
  {
    hide IsSizeGroup, IsToppingGroup, FindOption;
    FirstFound(g.options, j);
    assert (rest + [g.options[j].value])[..|rest|] == rest;
  }

  lemma UnlistedCostsNothing(g: Group, v: string, rest: seq<string>)
    requires !Allows(g.options, v)
    ensures GroupDelta(g, Some(One(v))) == 0
    ensures GroupDelta(g, Some(Many(rest + [v]))) == GroupDelta(g, Some(Many(rest)))
  {
    FindOptionListed(g.options, v);
    assert (rest + [v])[..|rest|] == rest;
  }

  // ----- when the two agree -----

  /** A value that a canonical selection of the group can hold. */
  predicate Holdable(g: Group, v: string) {
    Trimmed(v) && (g.kind == Multi ==> v != "")
  }

  ghost predicate ChargesNothing(g: Group) {
    forall v :: Holdable(g, v) ==> PriceOf(g.options, v) == 0
  }

  ghost predicate ChargesSize(g: Group) {
    exists v :: v != "" && Holdable(g, v) && PriceOf(g.options, v) != 0
  }

  ghost predicate HasSize(g: Group) {
    exists v :: v != "" && Holdable(g, v) && Allows(g.options, v)
  }

  /** A group the snapshot prices by itself as the cart total does. */
  ghost predicate GroupPriced(g: Group) {
    match g.kind
    case Single => if IsSizeGroup(g) then PriceOf(g.options, "") == 0 else ChargesNothing(g)
    case Multi => IsToppingGroup(g) || ChargesNothing(g)
    case FreeText => true
  }

  /** Only the last size group with a choice is priced, so an earlier one must charge nothing
      when a later one can be chosen from. */
  ghost predicate SizesShadowed(groups: seq<Group>) {
    forall i, j :: 0 <= i < j < |groups| && IsSizeGroup(groups[i]) && IsSizeGroup(groups[j]) ==>
      !(ChargesSize(groups[i]) && HasSize(groups[j]))
  }

  ghost predicate Aligned(groups: seq<Group>) {
    && (forall i :: 0 <= i < |groups| ==> GroupPriced(groups[i]))
    && SizesShadowed(groups)
  }

  ghost predicate SamePrice(groups: seq<Group>, s: CartSelections) {
    CustomizationDelta(groups, s) == SnapshotExtra(groups, s)
  }

  /** Every selection a cart line can hold has one price. */
  ghost predicate PricedAlike(groups: seq<Group>) {
    forall s :: Canonical(s) ==> SamePrice(groups, s)
  }

  lemma {:induction false} PricesOfNothing(options: seq<MenuOption>, values: seq<string>)
    requires forall i :: 0 <= i < |values| ==> PriceOf(options, values[i]) == 0
    ensures PricesOf(options, values) == 0
  {
    if values != [] { PricesOfNothing(options, values[..|values| - 1]); }
  }

  lemma {:induction false} TotalOfConcat(a: seq<Priced>, b: seq<Priced>)
    ensures TotalOf(a + b) == TotalOf(a) + TotalOf(b)
  {
    if b == [] {
      assert a + b == a;
    } else {
      assert (a + b)[..|a + b| - 1] == a + b[..|b| - 1];
      TotalOfConcat(a, b[..|b| - 1]);
    }
  }

  lemma {:induction false} ListedToppingsTotal(options: seq<MenuOption>, values: seq<string>)
    ensures TotalOf(ListedToppings(options, values)) == PricesOf(options, values)
  {
    if values != [] {
      var front, last := values[..|values| - 1], FindOption(options, values[|values| - 1]);
      ListedToppingsTotal(options, front);
      if last.Some? {
        var p := [Priced(last.value.name, last.value.priceDelta)];
        TotalOfConcat(ListedToppings(options, front), p);
        assert p[..0] == [];
      } else {
        assert ListedToppings(options, values) == ListedToppings(options, front);
      }
    }
  }

  lemma {:induction false} NoChargeNoSizePrice(groups: seq<Group>, s: CartSelections)
    requires Canonical(s)
    requires forall i :: 0 <= i < |groups| && IsSizeGroup(groups[i]) ==> !ChargesSize(groups[i])
    ensures SizePrice(InferSize(groups, s)) == 0
  {
    if groups != [] {
      var g := groups[|groups| - 1];
      NoChargeNoSizePrice(groups[..|groups| - 1], s);
      var here := SizeChoice(g, Lookup(s, g.id));
      if here.Some? {
        assert Holdable(g, s[g.id].text);
        assert here.value.priceModifier == PriceOf(g.options, s[g.id].text);
      }
    }
  }

  /** The effect of one more group on the toppings. */
  lemma ToppingsStep(groups: seq<Group>, s: CartSelections)
    requires groups != []
    ensures var g := groups[|groups| - 1];
            TotalOf(InferToppings(groups, s)) == TotalOf(InferToppings(groups[..|groups| - 1], s))
              + (if IsToppingGroup(g) then GroupDelta(g, Lookup(s, g.id)) else 0)
  {
    var g, front := groups[|groups| - 1], groups[..|groups| - 1];
    var selected := Lookup(s, g.id);
    TotalOfConcat(InferToppings(front, s), ToppingChoices(g, selected));
    if IsToppingGroup(g) && selected.Some? && selected.value.Many? {
      ListedToppingsTotal(g.options, selected.value.texts);
      if g.options == [] { PricesOfNothing(g.options, selected.value.texts); }
    }
  }

  /** Aligned groups price every selection a cart line can hold alike. */
  lemma {:induction false} AlignedPricesAgree(groups: seq<Group>, s: CartSelections)
    requires Aligned(groups) && Canonical(s)
    ensures SamePrice(groups, s)
  {
    hide ToppingChoices;
    if groups != [] {
      var g, front := groups[|groups| - 1], groups[..|groups| - 1];
      var selected := Lookup(s, g.id);
      AlignedPricesAgree(front, s);
      ToppingsStep(groups, s);
      assert GroupPriced(g);
      if IsSizeGroup(g) {
        var here := SizeChoice(g, selected);
        if here.Some? {
          FindOptionListed(g.options, selected.value.text);
          assert Holdable(g, selected.value.text) && HasSize(g);
          forall i | 0 <= i < |front| && IsSizeGroup(front[i]) ensures !ChargesSize(front[i]) {
            assert groups[i] == front[i];
          }
          NoChargeNoSizePrice(front, s);
        }
      } else if !IsToppingGroup(g) && g.kind == Multi && selected.Some? && selected.value.Many? {
        assert forall i :: 0 <= i < |selected.value.texts| ==> Holdable(g, selected.value.texts[i]);
        PricesOfNothing(g.options, selected.value.texts);
      } else if g.kind == Single && selected.Some? && selected.value.One? {
        assert Holdable(g, selected.value.text);
      }
    }
  }

  // ----- and that the condition is necessary -----

  ghost predicate DistinctIds(groups: seq<Group>) {
    forall i, j :: 0 <= i < j < |groups| ==> groups[i].id != groups[j].id
  }

  lemma NoChoiceNoPrice(g: Group)
    ensures SizeChoice(g, None) == None && ToppingChoices(g, None) == [] && GroupDelta(g, None) == 0
  {
  }

  /** Groups without a selection change neither price. */
  lemma {:induction false} Quiet(groups: seq<Group>, s: CartSelections, lo: nat, hi: nat)
    requires lo <= hi <= |groups|
    requires forall i :: lo <= i < hi ==> groups[i].id !in s
    ensures CustomizationDelta(groups[..hi], s) == CustomizationDelta(groups[..lo], s)
    ensures InferSize(groups[..hi], s) == InferSize(groups[..lo], s)
    ensures InferToppings(groups[..hi], s) == InferToppings(groups[..lo], s)
    ensures lo == 0 ==> CustomizationDelta(groups[..hi], s) == TotalOf(InferToppings(groups[..hi], s)) == 0
    decreases hi
  {
    hide SizeChoice, ToppingChoices, IsSizeGroup, IsToppingGroup;
    if lo < hi {
      NoChoiceNoPrice(groups[hi - 1]);
      Quiet(groups, s, lo, hi - 1);
      assert groups[..hi][..hi - 1] == groups[..hi - 1];
    }
  }

  /** Both prices of a prefix that ends in group `i`. */
  lemma PrefixStep(groups: seq<Group>, s: CartSelections, i: nat)
    requires i < |groups|
    ensures var g := groups[i];
            var here := SizeChoice(g, Lookup(s, g.id));
            var delta := GroupDelta(g, Lookup(s, g.id));
            && CustomizationDelta(groups[..i + 1], s) == CustomizationDelta(groups[..i], s) + delta
            && InferSize(groups[..i + 1], s) == (if here.Some? then here else InferSize(groups[..i], s))
            && TotalOf(InferToppings(groups[..i + 1], s)) ==
                 TotalOf(InferToppings(groups[..i], s)) + if IsToppingGroup(g) then delta else 0
  {
    hide GroupDelta, SizeChoice, Lookup, IsToppingGroup, InferToppings, TotalOf;
    var upTo := groups[..i + 1];
    assert upTo[..i] == groups[..i] && upTo[i] == groups[i];
    ToppingsStep(upTo, s);
  }

  /** A single choice is priced by its own group alone. */
  lemma OneGroupChosen(groups: seq<Group>, i: nat, v: SelectionValue, s: CartSelections)
    requires i < |groups| && DistinctIds(groups)
    requires s == map[groups[i].id := v]
    ensures CustomizationDelta(groups, s) == GroupDelta(groups[i], Some(v))
    ensures SnapshotExtra(groups, s) ==
      SizePrice(SizeChoice(groups[i], Some(v)))
      + (if IsToppingGroup(groups[i]) then GroupDelta(groups[i], Some(v)) else 0)
  {
    assert forall j :: 0 <= j < |groups| && j != i ==> groups[j].id !in s;
    assert groups[..|groups|] == groups;
    Quiet(groups, s, 0, i);
    PrefixStep(groups, s, i);
    Quiet(groups, s, i + 1, |groups|);
  }

  lemma SizeChosen(g: Group, v: string)
    requires IsSizeGroup(g) && v != "" && Allows(g.options, v)
    ensures var here := SizeChoice(g, Some(One(v)));
            here.Some? && SizePrice(here) == PriceOf(g.options, v) == GroupDelta(g, Some(One(v)))
  {
    FindOptionListed(g.options, v);
  }

  lemma LookupPair(a: string, v: SelectionValue, b: string, w: SelectionValue)
    requires a != b
    ensures Lookup(map[a := v, b := w], a) == Some(v) && Lookup(map[a := v, b := w], b) == Some(w)
  {
  }

  lemma TwoSizesChosen(groups: seq<Group>, i: nat, j: nat, v: string, w: string, s: CartSelections)
    requires i < j < |groups| && DistinctIds(groups)
    requires IsSizeGroup(groups[i]) && IsSizeGroup(groups[j])
    requires v != "" && Allows(groups[i].options, v) && w != "" && Allows(groups[j].options, w)
    requires s == map[groups[i].id := One(v), groups[j].id := One(w)]
    ensures CustomizationDelta(groups, s) == SnapshotExtra(groups, s) + PriceOf(groups[i].options, v)
  {
    hide CustomizationDelta, InferSize, InferToppings, TotalOf, GroupDelta, SizeChoice, Lookup, Allows, PriceOf;
    assert forall k :: 0 <= k < |groups| && k != i && k != j ==> groups[k].id !in s;
    LookupPair(groups[i].id, One(v), groups[j].id, One(w));
    assert CustomizationDelta(groups[..j], s) == PriceOf(groups[i].options, v)
      && TotalOf(InferToppings(groups[..j], s)) == 0 by {
      SizeChosen(groups[i], v);
      Quiet(groups, s, 0, i);
      PrefixStep(groups, s, i);
      Quiet(groups, s, i + 1, j);
    }
    SizeChosen(groups[j], w);
    PrefixStep(groups, s, j);
    Quiet(groups, s, j + 1, |groups|);
    assert groups[..|groups|] == groups;
  }

  /** A menu item whose groups are not aligned has a canonical selection priced differently. */
  lemma MisalignedPricesDiffer(groups: seq<Group>) returns (s: CartSelections)
    requires DistinctIds(groups) && !Aligned(groups)
    ensures Canonical(s) && !SamePrice(groups, s)
  {
    if i :| 0 <= i < |groups| && !GroupPriced(groups[i]) {
      var g := groups[i];
      var v :| Holdable(g, v) && PriceOf(g.options, v) != 0 && (IsSizeGroup(g) ==> v == "");
      var choice := if g.kind == Single then One(v) else Many([v]);
      assert [v][..0] == [];
      assert PricesOf(g.options, [v]) == PriceOf(g.options, v);
      s := map[g.id := choice];
      OneGroupChosen(groups, i, choice, s);
    } else {
      var i, j :| 0 <= i < j < |groups| && IsSizeGroup(groups[i]) && IsSizeGroup(groups[j])
        && ChargesSize(groups[i]) && HasSize(groups[j]);
      var v :| v != "" && Holdable(groups[i], v) && PriceOf(groups[i].options, v) != 0;
      var w :| w != "" && Holdable(groups[j], w) && Allows(groups[j].options, w);
      FindOptionListed(groups[i].options, v);
      s := map[groups[i].id := One(v), groups[j].id := One(w)];
      TwoSizesChosen(groups, i, j, v, w, s);
    }
  }

  /** The exact condition under which a menu item is priced alike for every canonical selection. */
  lemma PricesAgreeIff(groups: seq<Group>)
    requires DistinctIds(groups)
    ensures PricedAlike(groups) <==> Aligned(groups)
  {
    hide SamePrice, Canonical;
    if Aligned(groups) {
      forall s | Canonical(s) ensures SamePrice(groups, s) {
        AlignedPricesAgree(groups, s);
      }
    } else {
      var s := MisalignedPricesDiffer(groups);
    }
  }

  // ----- groups that share an id -----

  /** `t` is part of `s`. */
  ghost predicate PartOf(t: CartSelections, s: CartSelections) {
    forall k :: k in t ==> k in s && t[k] == s[k]
  }

  /** What is charged beyond the toppings. */
  function BeyondToppings(groups: seq<Group>, s: CartSelections): int {
    CustomizationDelta(groups, s) - TotalOf(InferToppings(groups, s))
  }

  lemma {:induction false} BeyondSplits(groups: seq<Group>, s: CartSelections, k: string)
    requires k in s
    ensures BeyondToppings(groups, s) == BeyondToppings(groups, s - {k}) + BeyondToppings(groups, map[k := s[k]])
  {
    hide GroupDelta, InferToppings, TotalOf, IsToppingGroup;
    if groups == [] {
      NothingBeyond(s);
      NothingBeyond(s - {k});
      NothingBeyond(map[k := s[k]]);
    } else {
      BeyondSplits(groups[..|groups| - 1], s, k);
      NoChoiceNoPrice(groups[|groups| - 1]);
      ToppingsStep(groups, s);
      ToppingsStep(groups, s - {k});
      ToppingsStep(groups, map[k := s[k]]);
    }
  }

  lemma NothingBeyond(s: CartSelections)
    ensures BeyondToppings([], s) == 0
  {
  }

  /** One choice decides the size: every part of the selection that has it infers the same size. */
  lemma {:induction false} SizeDecidedBy(groups: seq<Group>, s: CartSelections) returns (k: string)
    requires s != map[]
    ensures k in s && forall t :: PartOf(t, s) && k in t ==> InferSize(groups, t) == InferSize(groups, s)
  {
    hide SizeChoice;
    if groups == [] {
      k :| k in s;
    } else {
      var g, front := groups[|groups| - 1], groups[..|groups| - 1];
      NoChoiceNoPrice(g);
      if SizeChoice(g, Lookup(s, g.id)).Some? {
        k := g.id;
      } else {
        k := SizeDecidedBy(front, s);
      }
    }
  }

  /** A third choice beside `k`, and the selections with it, without it and without both. */
  lemma ThirdChoice(s: CartSelections, k: string) returns (m: string)
    requires k in s && |s| > 2 && Canonical(s)
    ensures m in s && m != k && |s - {m}| == |s| - 1 && Canonical(s - {m})
    ensures var pair := map[k := s[k], m := s[m]];
            Canonical(pair) && |pair| <= 2 && PartOf(pair, s) && pair - {m} == map[k := s[k]]
  {
    hide CanonicalValue;
    assert s.Keys - {k} != {} by { assert |s.Keys - {k}| == |s| - 1; }
    m :| m in s.Keys - {k};
    assert (s - {m}).Keys == s.Keys - {m};
    assert map[k := s[k], m := s[m]].Keys == {k, m};
  }

  lemma {:induction false} PairsSuffice(groups: seq<Group>, s: CartSelections)
    requires Canonical(s)
    requires forall t :: Canonical(t) && |t| <= 2 ==> SamePrice(groups, t)
    ensures SamePrice(groups, s)
    decreases |s|
  {
    hide CustomizationDelta, InferSize, InferToppings, TotalOf, SizePrice, CanonicalValue;
    if |s| > 2 {
      var k := SizeDecidedBy(groups, s);
      var m := ThirdChoice(s, k);
      var one, pair, less := map[k := s[k]], map[k := s[k], m := s[m]], s - {m};
      PairsSuffice(groups, less);
      assert SamePrice(groups, pair) && SamePrice(groups, one);
      assert PartOf(one, s) && PartOf(less, s);
      BeyondSplits(groups, pair, m);
      BeyondSplits(groups, s, m);
    }
  }

  /** For every menu item, even one with repeated group ids: it prices all selections alike as soon
      as it does so for those with at most two choices. */
  lemma PairsDecide(groups: seq<Group>)
    ensures PricedAlike(groups) <==> forall t :: Canonical(t) && |t| <= 2 ==> SamePrice(groups, t)
  {
    hide SamePrice, Canonical;
    if forall t :: Canonical(t) && |t| <= 2 ==> SamePrice(groups, t) {
      forall s | Canonical(s) ensures SamePrice(groups, s) {
        PairsSuffice(groups, s);
      }
    }
  }
}

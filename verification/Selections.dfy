/**
 Option selections of a cart line: their canonical form, and their repair against the
 customization groups of a menu item.
 */
module Selections {
  import opened Text

  datatype SelectionValue = One(text: string) | Many(texts: seq<string>)

  type CartSelections = map<string, SelectionValue>

  datatype GroupKind = Single | Multi | FreeText

  datatype MenuOption = MenuOption(value: string, name: string, priceDelta: int)

  datatype Group = Group(id: string, name: string, kind: GroupKind, options: seq<MenuOption>)

  datatype MenuItem = MenuItem(
    branchMenuItemId: string,
    price: int,
    customizations: seq<Group>)

  // ----- canonical form -----

  /** Trims every entry and drops the blank ones. */
  function NonBlank(texts: seq<string>): (r: seq<string>)
    ensures forall y :: y in r <==> y != "" && exists i :: 0 <= i < |texts| && Trim(texts[i]) == y
    ensures (forall i :: 0 <= i < |texts| ==> texts[i] != "" && Trimmed(texts[i])) ==> r == texts
  {
    if texts == [] then []
    else
      var t := Trim(texts[0]);
      var rest := NonBlank(texts[1..]);
      assert texts == [texts[0]] + texts[1..];
      if t == "" then rest else [t] + rest
  }

  ghost predicate CanonicalValue(v: SelectionValue) {
    match v
    case One(t) => Trimmed(t)
    case Many(ts) => StrictlySorted(ts) && forall i :: 0 <= i < |ts| ==> ts[i] != "" && Trimmed(ts[i])
  }

  function NormalizeSelectionValue(v: SelectionValue): (r: SelectionValue)
    ensures CanonicalValue(r)
    ensures CanonicalValue(v) ==> r == v
  {
    match v
    case One(t) => One(Trim(t))
    case Many(ts) =>
      var r := SortedSet(NonBlank(ts));
      assert forall i :: 0 <= i < |r| ==> r[i] in NonBlank(ts);
      assert CanonicalValue(v) ==> r == ts by {
        if CanonicalValue(v) { SortedListUnique(r, ts); }
      }
      Many(r)
  }

  ghost predicate Canonical(s: CartSelections) {
    forall k :: k in s ==> CanonicalValue(s[k])
  }

  /** Keys are kept as they are; only the values change. */
  function NormalizeSelections(s: CartSelections): (r: CartSelections)
    ensures r.Keys == s.Keys && Canonical(r)
    ensures Canonical(s) ==> r == s
  {
    map k | k in s :: NormalizeSelectionValue(s[k])
  }

  /** What a list selection stands for: the set of its non-blank trimmed entries. */
  ghost predicate Chosen(ts: seq<string>, y: string) {
    y != "" && exists i :: 0 <= i < |ts| && Trim(ts[i]) == y
  }

  /** Two list selections have one canonical form exactly when they choose the same options. */
  lemma NormalizedListsEqual(a: seq<string>, b: seq<string>)
    ensures NormalizeSelectionValue(Many(a)) == NormalizeSelectionValue(Many(b))
            <==> forall y :: Chosen(a, y) <==> Chosen(b, y)
  {
    var na, nb := SortedSet(NonBlank(a)), SortedSet(NonBlank(b));
    assert forall y :: (y in na <==> Chosen(a, y)) && (y in nb <==> Chosen(b, y));
    if forall y :: Chosen(a, y) <==> Chosen(b, y) {
      SortedListUnique(na, nb);
    }
  }

  /** Equal up to outer blanks and, for lists, up to order, repetition and blank entries. */
  ghost predicate SameChoice(v: SelectionValue, w: SelectionValue) {
    match (v, w)
    case (One(s), One(t)) => Trim(s) == Trim(t)
    case (Many(s), Many(t)) => forall y :: Chosen(s, y) <==> Chosen(t, y)
    case _ => false
  }

  lemma SameChoiceIff(v: SelectionValue, w: SelectionValue)
    ensures SameChoice(v, w) <==> NormalizeSelectionValue(v) == NormalizeSelectionValue(w)
  {
    if v.Many? && w.Many? {
      NormalizedListsEqual(v.texts, w.texts);
    }
  }

  /** The canonical form of a value is the one canonical value with the same choice. */
  lemma NormalizedValueIff(v: SelectionValue, w: SelectionValue)
    ensures NormalizeSelectionValue(v) == w <==> CanonicalValue(w) && SameChoice(v, w)
  {
    SameChoiceIff(v, w);
  }

  /** Normalised selections are the one canonical form with the same keys and the same choices. */
  lemma NormalizedSelectionsIff(s: CartSelections, t: CartSelections)
    ensures NormalizeSelections(s) == t <==>
      t.Keys == s.Keys && Canonical(t) && forall k :: k in s && k in t ==> SameChoice(s[k], t[k])
  {
    hide NormalizeSelectionValue, CanonicalValue, SameChoice;
    var r := NormalizeSelections(s);
    forall k | k in s && k in t
      ensures r[k] == t[k] <==> CanonicalValue(t[k]) && SameChoice(s[k], t[k])
    {
      NormalizedValueIff(s[k], t[k]);
    }
    if t.Keys == s.Keys && Canonical(t) && forall k :: k in s && k in t ==> SameChoice(s[k], t[k]) {
      assert forall k :: k in t ==> r[k] == t[k];
    }
  }

  // ----- repair against the customization groups -----

  predicate Allows(options: seq<MenuOption>, value: string) {
    exists i :: 0 <= i < |options| && options[i].value == value
  }

  function Lookup(s: CartSelections, k: string): Option<SelectionValue> {
    if k in s then Some(s[k]) else None
  }

  /** `String(raw || '')`. */
  function AsText(raw: Option<SelectionValue>): string {
    match raw
    case None => ""
    case Some(One(t)) => t
    case Some(Many(ts)) => Join(ts)
  }

  function KeepAllowed(options: seq<MenuOption>, texts: seq<string>): (r: seq<string>)
    ensures forall y :: y in r <==> Allows(options, y) && exists i :: 0 <= i < |texts| && Trim(texts[i]) == y
  {
    if texts == [] then []
    else
      var t, rest := Trim(texts[0]), KeepAllowed(options, texts[1..]);
      assert texts == [texts[0]] + texts[1..];
      if Allows(options, t) then [t] + rest else rest
  }

  lemma {:induction false} KeepAllowedAll(options: seq<MenuOption>, texts: seq<string>)
    requires forall i :: 0 <= i < |texts| ==> Trimmed(texts[i]) && Allows(options, texts[i])
    ensures KeepAllowed(options, texts) == texts
  {
    hide Trimmed, Allows;
    if texts != [] {
      var first, rest := texts[0], texts[1..];
      KeepAllowedAll(options, rest);
      assert Trim(first) == first && Allows(options, first);
      assert texts == [first] + rest;
    }
  }

  function DefaultValue(g: Group): string {
    if |g.options| > 0 then g.options[0].value else ""
  }

  function SanitizeGroup(g: Group, raw: Option<SelectionValue>): SelectionValue {
    match g.kind
    case Single =>
      var selected := Trim(AsText(raw));
      One(if Allows(g.options, selected) then selected else DefaultValue(g))
    case Multi =>
      Many(if raw.Some? && raw.value.Many? then KeepAllowed(g.options, raw.value.texts) else [])
    case FreeText =>
      One(AsText(raw))
  }

  /** The selections before the closing normalisation; a later group with the same id wins. */
  function SanitizeGroups(groups: seq<Group>, s: CartSelections): CartSelections {
    if groups == [] then map[]
    else
      var g := groups[|groups| - 1];
      SanitizeGroups(groups[..|groups| - 1], s)[g.id := SanitizeGroup(g, Lookup(s, g.id))]
  }

  function SanitizeSelectionsForMenuItem(item: Option<MenuItem>, s: CartSelections): (r: CartSelections)
    ensures Canonical(r)
  {
    match item
    case None => NormalizeSelections(s)
    case Some(m) => NormalizeSelections(SanitizeGroups(m.customizations, s))
  }

  predicate HasGroup(groups: seq<Group>, k: string) {
    exists i :: 0 <= i < |groups| && groups[i].id == k
  }

  function LastGroup(groups: seq<Group>, k: string): (g: Group)
    requires HasGroup(groups, k)
    ensures g in groups && g.id == k
  {
    var last := groups[|groups| - 1];
    if last.id == k then last else LastGroup(groups[..|groups| - 1], k)
  }

  /** The repaired selections have one key per group, decided by the last group with that id. */
  lemma SanitizeGroupsAt(groups: seq<Group>, s: CartSelections, k: string)
    ensures k in SanitizeGroups(groups, s) <==> HasGroup(groups, k)
    ensures HasGroup(groups, k) ==>
      SanitizeGroups(groups, s)[k] == SanitizeGroup(LastGroup(groups, k), Lookup(s, k))
  {
    hide SanitizeGroup, Lookup;
    if groups != [] {
      var front := groups[..|groups| - 1];
      SanitizeGroupsAt(front, s, k);
      assert groups == front + [groups[|groups| - 1]];
      assert HasGroup(groups, k) <==> groups[|groups| - 1].id == k || HasGroup(front, k);
    }
  }

  /** What a group may hold after repair. A single group falls back to its first option. */
  ghost predicate Permitted(g: Group, v: SelectionValue) {
    match g.kind
    case Single =>
      && v.One?
      && (Allows(g.options, v.text) || v.text == if g.options == [] then "" else Trim(g.options[0].value))
    case Multi =>
      && v.Many?
      && (forall i :: 0 <= i < |v.texts| ==> v.texts[i] != "" && Allows(g.options, v.texts[i]))
    case FreeText => v.One?
  }

  lemma SanitizedValuePermitted(g: Group, raw: Option<SelectionValue>)
    ensures Permitted(g, NormalizeSelectionValue(SanitizeGroup(g, raw)))
  {
    if g.kind == Multi {
      var kept := SanitizeGroup(g, raw).texts;
      var r := NormalizeSelectionValue(Many(kept)).texts;
      forall i | 0 <= i < |r| ensures r[i] != "" && Allows(g.options, r[i]) {
        assert r[i] in NonBlank(kept);
        var j :| 0 <= j < |kept| && Trim(kept[j]) == r[i];
        assert kept[j] in kept;
        assert exists l :: 0 <= l < |raw.value.texts| && Trim(raw.value.texts[l]) == kept[j];
        assert kept[j] == r[i];
      }
    }
  }

  /** What repair makes of a raw value: an allowed single choice stays and any other gives way to the
      first option, a list keeps exactly its allowed entries, and free text all but its outer blanks. */
  ghost predicate RepairedTo(g: Group, raw: Option<SelectionValue>, v: SelectionValue) {
    && CanonicalValue(v)
    && match g.kind
       case Single =>
         v == One(if Allows(g.options, Trim(AsText(raw))) then Trim(AsText(raw))
                  else if g.options == [] then "" else Trim(g.options[0].value))
       case FreeText => v == One(Trim(AsText(raw)))
       case Multi =>
         && v.Many?
         && forall y :: y in v.texts <==>
              raw.Some? && raw.value.Many? && Chosen(raw.value.texts, y) && Allows(g.options, y)
  }

  lemma SanitizedValueIs(g: Group, raw: Option<SelectionValue>)
    ensures RepairedTo(g, raw, NormalizeSelectionValue(SanitizeGroup(g, raw)))
  {
    if g.kind == Multi {
      var kept := SanitizeGroup(g, raw).texts;
      var v := NormalizeSelectionValue(Many(kept));
      forall y ensures y in v.texts <==>
        raw.Some? && raw.value.Many? && Chosen(raw.value.texts, y) && Allows(g.options, y)
      {
        KeptEntry(g.options, if raw.Some? && raw.value.Many? then raw.value.texts else [], y);
        NoneKept(g.options, y);
      }
    }
  }

  lemma KeptEntry(options: seq<MenuOption>, texts: seq<string>, y: string)
    ensures y in SortedSet(NonBlank(KeepAllowed(options, texts))) <==> Chosen(texts, y) && Allows(options, y)
  {
    var kept := KeepAllowed(options, texts);
    if Chosen(texts, y) && Allows(options, y) {
      assert y in kept;
      var j :| 0 <= j < |kept| && kept[j] == y;
      assert Trim(kept[j]) == y by {
        var i :| 0 <= i < |texts| && Trim(texts[i]) == y;
      }
    }
    if y in NonBlank(kept) {
      var j :| 0 <= j < |kept| && Trim(kept[j]) == y;
      assert kept[j] in kept;
      var i :| 0 <= i < |texts| && Trim(texts[i]) == kept[j];
      assert kept[j] == y;
    }
  }

  lemma NoneKept(options: seq<MenuOption>, y: string)
    ensures y !in SortedSet(NonBlank([]))
  {
  }

  /** A repaired value is a fixed point of the repair. */
  lemma SanitizeValueIdempotent(g: Group, raw: Option<SelectionValue>)
    ensures var v := NormalizeSelectionValue(SanitizeGroup(g, raw));
            NormalizeSelectionValue(SanitizeGroup(g, Some(v))) == v
  {
    var v := NormalizeSelectionValue(SanitizeGroup(g, raw));
    SanitizedValuePermitted(g, raw);
    if g.kind == Multi {
      KeepAllowedAll(g.options, v.texts);
    }
  }

  /**
   Repair against a menu item leaves exactly one value per group of the item and nothing else: the
   repaired value of what was selected under the group's id, which the group permits.
   */
  lemma SanitizedSelectionsPermitted(m: MenuItem, s: CartSelections)
    ensures var r := SanitizeSelectionsForMenuItem(Some(m), s);
            && (forall k :: k in r <==> HasGroup(m.customizations, k))
            && (forall k :: k in r ==> RepairedTo(LastGroup(m.customizations, k), Lookup(s, k), r[k]))
            && (forall k :: k in r ==> Permitted(LastGroup(m.customizations, k), r[k]))
  {
    hide RepairedTo, Permitted, SanitizeGroup;
    var r := SanitizeSelectionsForMenuItem(Some(m), s);
    forall k
      ensures k in r <==> HasGroup(m.customizations, k)
      ensures k in r ==> Permitted(LastGroup(m.customizations, k), r[k])
      ensures k in r ==> RepairedTo(LastGroup(m.customizations, k), Lookup(s, k), r[k])
    {
      SanitizeGroupsAt(m.customizations, s, k);
      if k in r {
        SanitizedValuePermitted(LastGroup(m.customizations, k), Lookup(s, k));
        SanitizedValueIs(LastGroup(m.customizations, k), Lookup(s, k));
      }
    }
  }

  /** Without a menu item nothing is dropped: the same keys with the same choices. */
  lemma UnknownItemKeepsChoices(s: CartSelections)
    ensures var r := SanitizeSelectionsForMenuItem(None, s);
            r.Keys == s.Keys && Canonical(r) && forall k :: k in s && k in r ==> SameChoice(s[k], r[k])
  {
    hide SameChoice;
    NormalizedSelectionsIff(s, NormalizeSelections(s));
  }

  /** Repairing twice is repairing once, for every menu item, even one with repeated group ids. */
  lemma SanitizeIdempotent(item: Option<MenuItem>, s: CartSelections)
    ensures var r := SanitizeSelectionsForMenuItem(item, s);
            SanitizeSelectionsForMenuItem(item, r) == r
  {
    match item
    case None =>
    case Some(m) =>
      var r := SanitizeSelectionsForMenuItem(item, s);
      var rr := SanitizeSelectionsForMenuItem(item, r);
      forall k
        ensures k in r <==> k in rr
        ensures k in r ==> rr[k] == r[k]
      {
        SanitizeGroupsAt(m.customizations, s, k);
        SanitizeGroupsAt(m.customizations, r, k);
        if k in r { SanitizeValueIdempotent(LastGroup(m.customizations, k), Lookup(s, k)); }
      }
  }
}

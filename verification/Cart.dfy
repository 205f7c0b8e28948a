/**
 The customer cart: an ordered dictionary of lines keyed by the canonical form of the line.
 A line key is the JSON text of three fields; it is modelled as the triple of these fields.
 */
module Cart {
  import opened Text
  import opened OrderedDict
  import opened Selections

  datatype CartItem = CartItem(
    branchMenuItemId: string,   // "" when absent
    menuItemId: string,
    quantity: int,
    note: string,
    selections: CartSelections)

  datatype LineKey = LineKey(menuItemId: string, selections: CartSelections, note: string)

  type Line = Entry<LineKey, CartItem>
  type CartMap = Dict<LineKey, CartItem>
  type Menu = map<string, MenuItem>

  function BuildCartLineKey(menuItemId: string, selections: CartSelections, note: string): LineKey {
    LineKey(Trim(menuItemId), NormalizeSelections(selections), Trim(note))
  }

  function KeyOf(line: CartItem): LineKey {
    BuildCartLineKey(line.menuItemId, line.selections, line.note)
  }

  /** Two lines share a key exactly when they differ in nothing but outer blanks, the order and
      the repetition of list choices, the branch id and the quantity. */
  lemma KeysEqualIff(a: CartItem, b: CartItem)
    ensures KeyOf(a) == KeyOf(b) <==>
      && Trim(a.menuItemId) == Trim(b.menuItemId)
      && Trim(a.note) == Trim(b.note)
      && a.selections.Keys == b.selections.Keys
      && forall k :: k in a.selections ==> SameChoice(a.selections[k], b.selections[k])
  {
    var sa, sb := a.selections, b.selections;
    var na, nb := NormalizeSelections(sa), NormalizeSelections(sb);
    forall k | k in sa && k in sb
      ensures SameChoice(sa[k], sb[k]) <==> na[k] == nb[k]
    {
      SameChoiceIff(sa[k], sb[k]);
    }
    assert na == nb ==> na.Keys == nb.Keys;
  }

  // ----- quantities -----

  /** Total quantity of the lines whose key satisfies `p`. */
  function Quantity(lines: seq<Line>, p: LineKey -> bool): int {
    if lines == [] then 0
    else
      var last := lines[|lines| - 1];
      Quantity(lines[..|lines| - 1], p) + if p(last.key) then last.value.quantity else 0
  }

  function ForItem(m: string): LineKey -> bool { (k: LineKey) => k.menuItemId == m }

  function ForKey(key: LineKey): LineKey -> bool { (k: LineKey) => k == key }

  /** `cartCountByMenuItem` for an item id without outer blanks. */
  function ItemCount(cart: CartMap, m: string): int {
    Quantity(cart, ForItem(m))
  }

  lemma {:induction false} QuantityConcat(a: seq<Line>, b: seq<Line>, p: LineKey -> bool)
    ensures Quantity(a + b, p) == Quantity(a, p) + Quantity(b, p)
  {
    if b == [] {
      assert a + b == a;
    } else {
      assert (a + b)[..|a + b| - 1] == a + b[..|b| - 1];
      QuantityConcat(a, b[..|b| - 1], p);
    }
  }

  lemma QuantitySplit(d: seq<Line>, i: nat, p: LineKey -> bool)
    requires i < |d|
    ensures Quantity(d, p) ==
      Quantity(d[..i], p) + (if p(d[i].key) then d[i].value.quantity else 0) + Quantity(d[i + 1..], p)
  {
    assert d == d[..i] + ([d[i]] + d[i + 1..]);
    QuantityConcat(d[..i], [d[i]] + d[i + 1..], p);
    QuantityConcat([d[i]], d[i + 1..], p);
    assert [d[i]][..0] == [];
  }

  function Held(d: CartMap, k: LineKey): int {
    var r := Find(d, k);
    if r.Some? then r.value.quantity else 0
  }

  lemma QuantityPut(d: CartMap, k: LineKey, v: CartItem, p: LineKey -> bool)
    ensures Quantity(Put(d, k, v), p) == Quantity(d, p) + if p(k) then v.quantity - Held(d, k) else 0
  {
    var i := IndexOf(d, k);
    if i < |d| {
      var r := Put(d, k, v);
      QuantitySplit(d, i, p);
      QuantitySplit(r, i, p);
      assert r[..i] == d[..i] && r[i + 1..] == d[i + 1..];
    } else {
      assert Put(d, k, v)[..|d|] == d;
    }
  }

  lemma QuantityRemove(d: CartMap, k: LineKey, p: LineKey -> bool)
    ensures Quantity(Remove(d, k), p) == Quantity(d, p) - if p(k) then Held(d, k) else 0
  {
    var i := IndexOf(d, k);
    if i < |d| {
      QuantitySplit(d, i, p);
      QuantityConcat(d[..i], d[i + 1..], p);
    }
  }

  /** In a dictionary the total at one key is the quantity held there. */
  lemma {:induction false} QuantityAtKey(d: CartMap, k: LineKey)
    requires Distinct(d)
    ensures Quantity(d, ForKey(k)) == Held(d, k)
  {
    if d != [] {
      var front := d[..|d| - 1];
      QuantityAtKey(front, k);
      var i, j := IndexOf(d, k), IndexOf(front, k);
      assert j < |front| ==> d[j].key == k;
      assert i < |front| ==> front[i].key == k;
    }
  }

  // ----- merging lines into a cart -----

  /** Which line supplies the fields other than the quantity when two lines share a key. */
  datatype Policy = KeepFirst | KeepLast

  /** The line stored for `e`, given what the cart already holds under its key. */
  function Combined(held: Option<CartItem>, e: CartItem, policy: Policy): CartItem {
    match held
    case None => e
    case Some(had) => (if policy == KeepFirst then had else e).(quantity := had.quantity + e.quantity)
  }

  function Accumulate(acc: CartMap, e: Line, policy: Policy): CartMap {
    Put(acc, e.key, Combined(Find(acc, e.key), e.value, policy))
  }

  function Merge(lines: seq<Line>, policy: Policy): CartMap {
    if lines == [] then []
    else Accumulate(Merge(lines[..|lines| - 1], policy), lines[|lines| - 1], policy)
  }

  /** The first or the last of the lines with a given key. */
  function Pick(lines: seq<Line>, k: LineKey, policy: Policy): (r: CartItem)
    requires Has(lines, k)
  {
    var front, last := lines[..|lines| - 1], lines[|lines| - 1];
    if Has(front, k) && (policy == KeepFirst || last.key != k) then Pick(front, k, policy)
    else last.value
  }

  lemma HasFront(lines: seq<Line>, k: LineKey)
    requires lines != []
    ensures Has(lines, k) <==> lines[|lines| - 1].key == k || Has(lines[..|lines| - 1], k)
  {
    var front := lines[..|lines| - 1];
    HasIff(lines, k);
    HasIff(front, k);
    if i :| 0 <= i < |front| && front[i].key == k { assert lines[i].key == k; }
    assert forall i :: 0 <= i < |front| ==> front[i] == lines[i];
  }

  /** Keys in the order in which they first occur. */
  function FirstOccurrences(keys: seq<LineKey>): seq<LineKey> {
    if keys == [] then []
    else
      var front, last := FirstOccurrences(keys[..|keys| - 1]), keys[|keys| - 1];
      if last in front then front else front + [last]
  }

  lemma {:induction false} FirstOccurrencesElements(keys: seq<LineKey>, k: LineKey)
    ensures k in FirstOccurrences(keys) <==> k in keys
  {
    if keys != [] {
      FirstOccurrencesElements(keys[..|keys| - 1], k);
      FirstOccurrencesElements(keys[..|keys| - 1], keys[|keys| - 1]);
      assert keys == keys[..|keys| - 1] + [keys[|keys| - 1]];
    }
  }

  /**
   The merged cart, described without the loop: its keys are the keys of the lines in order of
   first occurrence, and under each key it holds the line chosen by the policy with the sum of
   all quantities given under that key.
   */
  lemma {:induction false} MergeKeys(lines: seq<Line>, policy: Policy)
    ensures Distinct(Merge(lines, policy))
    ensures Keys(Merge(lines, policy)) == FirstOccurrences(Keys(lines))
  {
    if lines != [] {
      var front, last := lines[..|lines| - 1], lines[|lines| - 1];
      MergeKeys(front, policy);
      assert Keys(lines)[..|lines| - 1] == Keys(front);
      var acc := Merge(front, policy);
      HasIff(acc, last.key);
      assert last.key in Keys(acc) <==> Has(acc, last.key) by {
        if i :| 0 <= i < |acc| && acc[i].key == last.key { assert Keys(acc)[i] == last.key; }
      }
    }
  }

  lemma {:induction false} MergeAt(lines: seq<Line>, policy: Policy, k: LineKey)
    ensures Find(Merge(lines, policy), k) ==
      if Has(lines, k) then Some(Pick(lines, k, policy).(quantity := Quantity(lines, ForKey(k)))) else None
    ensures !Has(lines, k) ==> Quantity(lines, ForKey(k)) == 0
  {
    hide Put;
    if lines != [] {
      var front, last := lines[..|lines| - 1], lines[|lines| - 1];
      MergeAt(front, policy, k);
      HasFront(lines, k);
      if last.key != k {
        var acc := Merge(front, policy);
        FindPut(acc, last.key, Combined(Find(acc, last.key), last.value, policy), k);
      }
    }
  }

  /** Merging neither creates nor loses quantity, for any set of keys. */
  lemma {:induction false} MergeConserves(lines: seq<Line>, policy: Policy, p: LineKey -> bool)
    ensures Quantity(Merge(lines, policy), p) == Quantity(lines, p)
  {
    if lines != [] {
      var front, last := lines[..|lines| - 1], lines[|lines| - 1];
      MergeConserves(front, policy, p);
      var acc := Merge(front, policy);
      QuantityPut(acc, last.key, Combined(Find(acc, last.key), last.value, policy), p);
    }
  }

  /** A list of lines with distinct keys is its own merge. */
  lemma {:induction false} MergeDistinctIsIdentity(lines: seq<Line>, policy: Policy)
    requires Distinct(lines)
    ensures Merge(lines, policy) == lines
  {
    if lines != [] {
      var front, last := lines[..|lines| - 1], lines[|lines| - 1];
      MergeDistinctIsIdentity(front, policy);
      assert !Has(front, last.key) by { HasIff(front, last.key); }
      assert lines == front + [last];
    }
  }

  // ----- the cart invariant -----

  ghost predicate WellKeyed(cart: CartMap) {
    && Distinct(cart)
    && forall i :: 0 <= i < |cart| ==> cart[i].key == KeyOf(cart[i].value)
  }

  /** What every handler keeps: canonical keys, canonical selections, at least one of each line. */
  ghost predicate Good(cart: CartMap) {
    && WellKeyed(cart)
    && forall i :: 0 <= i < |cart| ==>
         Canonical(cart[i].value.selections) && cart[i].value.quantity >= 1
  }

  /** Every line given to a merge is well keyed, canonical and at least one. */
  ghost predicate GoodLine(e: Line) {
    e.key == KeyOf(e.value) && Canonical(e.value.selections) && e.value.quantity >= 1
  }

  /** A property of single lines that combining two lines of one key keeps holds of the merge. */
  lemma {:induction false} MergeKeeps(lines: seq<Line>, policy: Policy, p: Line -> bool)
    requires forall i :: 0 <= i < |lines| ==> p(lines[i])
    requires forall k, v, w :: p(Entry(k, v)) && p(Entry(k, w)) ==> p(Entry(k, Combined(Some(v), w, policy)))
    ensures forall i :: 0 <= i < |Merge(lines, policy)| ==> p(Merge(lines, policy)[i])
  {
    if lines != [] {
      var front, last := lines[..|lines| - 1], lines[|lines| - 1];
      MergeKeeps(front, policy, p);
      var acc := Merge(front, policy);
      var i := IndexOf(acc, last.key);
      assert p(Entry(last.key, last.value));
      if i < |acc| {
        assert acc[i] == Entry(last.key, acc[i].value);
        assert p(Entry(last.key, Combined(Some(acc[i].value), last.value, policy)));
      }
    }
  }

  // ----- lines gathered from a list, at most one from each element -----

  function Collect<A>(xs: seq<A>, f: A -> seq<Line>): seq<Line> {
    if xs == [] then [] else Collect(xs[..|xs| - 1], f) + f(xs[|xs| - 1])
  }

  lemma {:induction false} CollectKeeps<A>(xs: seq<A>, f: A -> seq<Line>, p: Line -> bool)
    requires forall i, j :: 0 <= i < |xs| && 0 <= j < |f(xs[i])| ==> p(f(xs[i])[j])
    ensures forall i :: 0 <= i < |Collect(xs, f)| ==> p(Collect(xs, f)[i])
  {
    if xs != [] { CollectKeeps(xs[..|xs| - 1], f, p); }
  }

  /** The element that supplies the fields of a merged line: the first or the last that yields its key. */
  lemma {:induction false} PickFrom<A>(xs: seq<A>, f: A -> seq<Line>, k: LineKey, policy: Policy) returns (i: nat)
    requires forall x :: |f(x)| <= 1
    requires Has(Collect(xs, f), k)
    ensures i < |xs| && f(xs[i]) == [Entry(k, Pick(Collect(xs, f), k, policy))]
    ensures forall j :: 0 <= j < |xs| && (if policy == KeepFirst then j < i else i < j) ==> !Yields(f, xs[j], k)
  {
    hide Has;
    var n := |xs| - 1;
    NothingCollected(xs, f, k);
    var front, lines := xs[..n], Collect(xs, f);
    var before := Collect(front, f);
    if f(xs[n]) == [] {
      assert lines == before;
      i := PickFrom(front, f, k, policy);
    } else {
      assert lines == before + [f(xs[n])[0]] && lines[..|lines| - 1] == before;
      HasFront(lines, k);
      if Has(before, k) && (policy == KeepFirst || !Yields(f, xs[n], k)) {
        i := PickFrom(front, f, k, policy);
      } else {
        i := n;
        if policy == KeepFirst {
          forall j | 0 <= j < n ensures !Yields(f, xs[j], k) {
            if Yields(f, xs[j], k) { YieldedIsCollected(front, f, k, j); }
          }
        }
      }
    }
  }

  /** The element contributes a line under the key. */
  predicate Yields<A>(f: A -> seq<Line>, x: A, k: LineKey) {
    |f(x)| == 1 && f(x)[0].key == k
  }

  lemma NothingCollected<A>(xs: seq<A>, f: A -> seq<Line>, k: LineKey)
    ensures xs == [] ==> !Has(Collect(xs, f), k)
  {
  }

  lemma {:induction false} YieldedIsCollected<A>(xs: seq<A>, f: A -> seq<Line>, k: LineKey, j: nat)
    requires forall x :: |f(x)| <= 1
    requires j < |xs| && Yields(f, xs[j], k)
    ensures Has(Collect(xs, f), k)
  {
    hide Has;
    var n := |xs| - 1;
    var lines := Collect(xs, f);
    if f(xs[n]) == [] {
      assert lines == Collect(xs[..n], f);
      YieldedIsCollected(xs[..n], f, k, j);
    } else {
      assert lines[..|lines| - 1] == Collect(xs[..n], f);
      HasFront(lines, k);
      if j < n { YieldedIsCollected(xs[..n], f, k, j); }
    }
  }

  /** Gathering line by line from a cart whose lines the gathering leaves alone. */
  lemma {:induction false} CollectIdentity(cart: CartMap, f: Line -> seq<Line>)
    requires forall i :: 0 <= i < |cart| ==> f(cart[i]) == [cart[i]]
    ensures Collect(cart, f) == cart
  {
    if cart != [] {
      var n := |cart| - 1;
      var front := cart[..n];
      assert forall i :: 0 <= i < n ==> front[i] == cart[i];
      CollectIdentity(front, f);
      assert f(cart[n]) == [cart[n]];
      assert cart == front + [cart[n]];
    }
  }

  lemma MergeCollectEmpty<A>(xs: seq<A>, f: A -> seq<Line>, policy: Policy)
    ensures Merge(Collect(xs[..0], f), policy) == []
    ensures xs[..|xs|] == xs
  {
  }

  /** One more element of the list, as a loop that fills the cart sees it. */
  lemma MergeCollectStep<A>(xs: seq<A>, i: nat, f: A -> seq<Line>, policy: Policy)
    requires i < |xs| && |f(xs[i])| <= 1
    ensures Merge(Collect(xs[..i + 1], f), policy) ==
      var acc := Merge(Collect(xs[..i], f), policy);
      if f(xs[i]) == [] then acc else Accumulate(acc, f(xs[i])[0], policy)
  {
    var lines := Collect(xs[..i], f);
    assert xs[..i + 1][..i] == xs[..i];
    assert Collect(xs[..i + 1], f) == lines + f(xs[i]);
    if f(xs[i]) == [] {
      assert lines + f(xs[i]) == lines;
    } else {
      assert (lines + f(xs[i]))[..|lines|] == lines;
    }
  }

  lemma MergeGood(lines: seq<Line>, policy: Policy)
    requires forall i :: 0 <= i < |lines| ==> GoodLine(lines[i])
    ensures Good(Merge(lines, policy))
  {
    MergeKeys(lines, policy);
    MergeKeeps(lines, policy, GoodLine);
    assert forall i :: 0 <= i < |Merge(lines, policy)| ==> GoodLine(Merge(lines, policy)[i]);
  }
}

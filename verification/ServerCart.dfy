/**
 The cart the order service broadcasts for an order, and what a page that receives it holds. The
 service files order items under the text of their raw fields and lets a later item replace an
 earlier one with the same text.
 */
module ServerCart {
  import opened Text
  import opened OrderedDict
  import opened Selections
  import opened Cart
  import opened Storage
  import opened CartSync

  /** `options` is the stored text of the item's options. */
  datatype ServerItem = ServerItem(menuItemId: string, quantity: int, note: string, options: string)

  /** How the options are read: the selections in them, and the text these print as again. */
  datatype Reader = Reader(selections: string -> CartSelections, text: string -> string)

  /** The printed text determines the selections. */
  ghost predicate Faithful(reader: Reader) {
    forall a, b :: reader.text(a) == reader.text(b) ==> reader.selections(a) == reader.selections(b)
  }

  datatype RawKey = RawKey(menuItemId: string, selections: string, note: string)

  type RealtimeCart = Dict<RawKey, ServerItem>

  predicate Valid(item: ServerItem) { Trim(item.menuItemId) != "" && item.quantity > 0 }

  function RawKeyOf(item: ServerItem, reader: Reader): RawKey {
    RawKey(Trim(item.menuItemId), reader.text(item.options), Trim(item.note))
  }

  function Broadcast(items: seq<ServerItem>, reader: Reader): RealtimeCart {
    if items == [] then []
    else
      var front, last := Broadcast(items[..|items| - 1], reader), items[|items| - 1];
      if Valid(last) then Put(front, RawKeyOf(last, reader), last.(menuItemId := Trim(last.menuItemId))) else front
  }

  method BuildRealtimeCartFromOrderItems(items: seq<ServerItem>, reader: Reader) returns (next: RealtimeCart)
    ensures next == Broadcast(items, reader)
  {
    hide Put;
    next := [];
    for i := 0 to |items|
      invariant next == Broadcast(items[..i], reader)
    {
      assert items[..i + 1][..i] == items[..i];
      var menuItemId := Trim(items[i].menuItemId);
      if menuItemId == "" || items[i].quantity <= 0 { continue; }
      next := Put(next, RawKey(menuItemId, reader.text(items[i].options), Trim(items[i].note)),
                  items[i].(menuItemId := menuItemId));
    }
    assert items[..|items|] == items;
  }

  /** The record on the wire. */
  function AsRecord(cart: RealtimeCart, reader: Reader, render: RawKey -> string): (r: seq<SourceEntry>)
    ensures |r| == |cart|
  {
    seq(|cart|, i requires 0 <= i < |cart| =>
      SourceEntry(render(cart[i].key), Fields(
        cart[i].value.menuItemId, "", cart[i].value.quantity, cart[i].value.note,
        Some(reader.selections(cart[i].value.options)))))
  }

  /** What a page holds under a key after receiving the broadcast. */
  function Received(items: seq<ServerItem>, reader: Reader, render: RawKey -> string, k: LineKey): int {
    Held(RestoredFromStorage(AsRecord(Broadcast(items, reader), reader, render)), k)
  }

  function LineKeyOf(item: ServerItem, reader: Reader): LineKey {
    BuildCartLineKey(item.menuItemId, reader.selections(item.options), item.note)
  }

  /** What the order holds under the key. */
  function OrderedUnder(items: seq<ServerItem>, reader: Reader, k: LineKey): int {
    if items == [] then 0
    else
      var last := items[|items| - 1];
      OrderedUnder(items[..|items| - 1], reader, k) +
      if Valid(last) && LineKeyOf(last, reader) == k then last.quantity else 0
  }

  /** What the items replaced on the way held under the key. */
  function Replaced(items: seq<ServerItem>, reader: Reader, k: LineKey): int {
    if items == [] then 0
    else
      var front, last := items[..|items| - 1], items[|items| - 1];
      Replaced(front, reader, k) +
      match Find(Broadcast(front, reader), RawKeyOf(last, reader))
      case None => 0
      case Some(old') => if Valid(last) && LineKeyOf(last, reader) == k then old'.quantity else 0
  }

  // ----- sums over the broadcast cart -----

  function SumUnder(cart: RealtimeCart, reader: Reader, k: LineKey): int {
    if cart == [] then 0
    else
      var last := cart[|cart| - 1].value;
      SumUnder(cart[..|cart| - 1], reader, k) + if LineKeyOf(last, reader) == k then last.quantity else 0
  }

  lemma {:induction false} SumUpdated(cart: RealtimeCart, reader: Reader, k: LineKey, i: nat, v: ServerItem)
    requires i < |cart| && LineKeyOf(cart[i].value, reader) == LineKeyOf(v, reader)
    ensures SumUnder(cart[i := Entry(cart[i].key, v)], reader, k) ==
      SumUnder(cart, reader, k) + if LineKeyOf(v, reader) == k then v.quantity - cart[i].value.quantity else 0
  {
    hide LineKeyOf;
    var n := |cart| - 1;
    var r := cart[i := Entry(cart[i].key, v)];
    if i < n {
      SumUpdated(cart[..n], reader, k, i, v);
      assert r[..n] == cart[..n][i := Entry(cart[i].key, v)];
    } else {
      assert r[..n] == cart[..n];
    }
  }

  /** Every entry is valid, trimmed and filed under its own text. */
  ghost predicate Filed(cart: RealtimeCart, reader: Reader) {
    forall i :: 0 <= i < |cart| ==>
      Valid(cart[i].value) && Trimmed(cart[i].value.menuItemId) && cart[i].key == RawKeyOf(cart[i].value, reader)
  }

  lemma {:induction false} BroadcastFiled(items: seq<ServerItem>, reader: Reader)
    ensures Filed(Broadcast(items, reader), reader)
  {
    hide Trim, Trimmed;
    if items != [] {
      BroadcastFiled(items[..|items| - 1], reader);
      var last := items[|items| - 1];
      TrimTwice(last.menuItemId);
    }
  }

  lemma TrimTwice(s: string)
    ensures Trimmed(Trim(s)) && Trim(Trim(s)) == Trim(s)
  {
  }

  /** Equal texts, equal line keys. */
  lemma SameRawSameLine(a: ServerItem, b: ServerItem, reader: Reader)
    requires Faithful(reader) && RawKeyOf(a, reader) == RawKeyOf(b, reader)
    ensures LineKeyOf(a, reader) == LineKeyOf(b, reader)
  {
  }

  lemma PutSum(cart: RealtimeCart, reader: Reader, item: ServerItem, k: LineKey)
    requires Faithful(reader) && Filed(cart, reader)
    ensures var rk, v := RawKeyOf(item, reader), item.(menuItemId := Trim(item.menuItemId));
            SumUnder(Put(cart, rk, v), reader, k) == SumUnder(cart, reader, k) +
              if LineKeyOf(item, reader) != k then 0
              else item.quantity - match Find(cart, rk) case None => 0 case Some(old') => old'.quantity
  {
    hide Faithful, Trim, Trimmed;
    var rk, v := RawKeyOf(item, reader), item.(menuItemId := Trim(item.menuItemId));
    TrimTwice(item.menuItemId);
    SameRawSameLine(item, v, reader);
    var i := IndexOf(cart, rk);
    if i < |cart| {
      SameRawSameLine(cart[i].value, v, reader);
      SumUpdated(cart, reader, k, i, v);
    } else {
      assert Put(cart, rk, v)[..|cart|] == cart;
    }
  }

  lemma {:induction false} BroadcastSum(items: seq<ServerItem>, reader: Reader, k: LineKey)
    requires Faithful(reader)
    ensures SumUnder(Broadcast(items, reader), reader, k) + Replaced(items, reader, k) == OrderedUnder(items, reader, k)
  {
    hide Faithful, Valid, RawKeyOf, LineKeyOf, Put, Find, SumUnder, Filed;
    if items == [] {
      NothingSummed(reader, k);
    } else {
      var front := items[..|items| - 1];
      BroadcastSum(front, reader, k);
      BroadcastFiled(front, reader);
      PutSum(Broadcast(front, reader), reader, items[|items| - 1], k);
    }
  }

  lemma NothingSummed(reader: Reader, k: LineKey)
    ensures SumUnder([], reader, k) == 0
  {
  }

  lemma {:induction false} RecordSum(cart: RealtimeCart, reader: Reader, render: RawKey -> string, k: LineKey)
    requires Filed(cart, reader)
    ensures Contributed(AsRecord(cart, reader, render), k) == SumUnder(cart, reader, k)
  {
    hide RawKeyOf, BuildCartLineKey;
    if cart != [] {
      var n := |cart| - 1;
      RecordSum(cart[..n], reader, render, k);
      assert AsRecord(cart, reader, render)[..n] == AsRecord(cart[..n], reader, render);
      EntryAdds(cart[n], reader, render, k);
    }
  }

  lemma EntryAdds(e: Entry<RawKey, ServerItem>, reader: Reader, render: RawKey -> string, k: LineKey)
    requires Valid(e.value) && Trimmed(e.value.menuItemId)
    ensures Adds(AsRecord([e], reader, render)[0], k) <==> LineKeyOf(e.value, reader) == k
  {
  }

  /** What arrives is what was ordered less what was replaced on the way. */
  lemma ReceivedIs(items: seq<ServerItem>, reader: Reader, render: RawKey -> string, k: LineKey)
    requires Faithful(reader)
    ensures Received(items, reader, render, k) == OrderedUnder(items, reader, k) - Replaced(items, reader, k)
  {
    hide Faithful, RestoredFromStorage, Broadcast, AsRecord, Contributed, Held;
    var cart := Broadcast(items, reader);
    BroadcastFiled(items, reader);
    RestoreConserves(AsRecord(cart, reader, render), k);
    RecordSum(cart, reader, render, k);
    BroadcastSum(items, reader, k);
  }

  /** The same for the page's own cart once it has applied the broadcast. */
  lemma DeliveredIs(s: State, tableId: string, p: Payload,
      items: seq<ServerItem>, reader: Reader, render: RawKey -> string, k: LineKey)
    requires Faithful(reader) && Decide(s, tableId, p) == Apply
    requires p.cart == Some(RecordCart(AsRecord(Broadcast(items, reader), reader, render)))
    ensures Held(Deliver(s, tableId, p).cart, k) == OrderedUnder(items, reader, k) - Replaced(items, reader, k)
  {
    hide Faithful, Broadcast, AsRecord, Decide, Contributed, Held, RestoredFromStorage;
    RecordHeld(s, tableId, p, AsRecord(Broadcast(items, reader), reader, render), k);
    ReceivedIs(items, reader, render, k);
    RestoreConserves(AsRecord(Broadcast(items, reader), reader, render), k);
  }

  // ----- when everything arrives -----

  /** Two items of the order that are filed under one text. */
  ghost predicate Clash(items: seq<ServerItem>, reader: Reader, i: nat, j: nat) {
    i < j < |items| && Valid(items[i]) && Valid(items[j]) && RawKeyOf(items[i], reader) == RawKeyOf(items[j], reader)
  }

  lemma {:induction false} BroadcastHasIff(items: seq<ServerItem>, reader: Reader, rk: RawKey)
    ensures Has(Broadcast(items, reader), rk) <==>
      exists i :: 0 <= i < |items| && Valid(items[i]) && RawKeyOf(items[i], reader) == rk
    ensures Has(Broadcast(items, reader), rk) ==>
      Find(Broadcast(items, reader), rk).Some? && Find(Broadcast(items, reader), rk).value.quantity > 0
  {
    hide RawKeyOf, Put, Trim;
    if items != [] {
      var front, last := items[..|items| - 1], items[|items| - 1];
      BroadcastHasIff(front, reader, rk);
      assert forall i :: 0 <= i < |front| ==> front[i] == items[i];
      if Valid(last) {
        var cart, own := Broadcast(front, reader), RawKeyOf(last, reader);
        var v := last.(menuItemId := Trim(last.menuItemId));
        if own != rk { FindPut(cart, own, v, rk); }
        assert Find(Put(cart, own, v), own) == Some(v);
      }
    }
  }

  lemma {:induction false} ReplacedIff(items: seq<ServerItem>, reader: Reader, k: LineKey)
    ensures Replaced(items, reader, k) >= 0
    ensures Replaced(items, reader, k) > 0 <==>
      exists i: nat, j: nat :: Clash(items, reader, i, j) && LineKeyOf(items[j], reader) == k
  {
    hide RawKeyOf, LineKeyOf, Valid, Find, Has, Broadcast;
    if items != [] {
      var n := |items| - 1;
      var front, last := items[..n], items[n];
      ReplacedIff(front, reader, k);
      BroadcastHasIff(front, reader, RawKeyOf(last, reader));
      FoundIff(Broadcast(front, reader), RawKeyOf(last, reader));
      assert forall i :: 0 <= i < n ==> front[i] == items[i];
      if i: nat, j: nat :| Clash(front, reader, i, j) && LineKeyOf(front[j], reader) == k {
        assert Clash(items, reader, i, j);
      }
      if Valid(last) && LineKeyOf(last, reader) == k && Has(Broadcast(front, reader), RawKeyOf(last, reader)) {
        var i :| 0 <= i < n && Valid(front[i]) && RawKeyOf(front[i], reader) == RawKeyOf(last, reader);
        assert Clash(items, reader, i, n);
      }
      if i: nat, j: nat :| Clash(items, reader, i, j) && LineKeyOf(items[j], reader) == k {
        if j < n {
          assert Clash(front, reader, i, j);
        } else {
          assert Valid(front[i]);
        }
      }
    }
  }

  lemma FoundIff(cart: RealtimeCart, rk: RawKey)
    ensures Has(cart, rk) <==> Find(cart, rk).Some?
  {
  }

  /** A page that receives the broadcast of an order holds, under every key, what the order holds there
      exactly when no two items of the order are filed under one text. Otherwise it holds less. */
  lemma OrderArrivesIff(items: seq<ServerItem>, reader: Reader, render: RawKey -> string)
    requires Faithful(reader)
    ensures (forall k :: Received(items, reader, render, k) == OrderedUnder(items, reader, k)) <==>
            !exists i: nat, j: nat :: Clash(items, reader, i, j)
    ensures forall k :: Received(items, reader, render, k) <= OrderedUnder(items, reader, k)
  {
    hide Faithful, Received, OrderedUnder, Replaced, Clash, LineKeyOf;
    forall k
      ensures Received(items, reader, render, k) == OrderedUnder(items, reader, k) - Replaced(items, reader, k)
      ensures Replaced(items, reader, k) >= 0
    {
      ReceivedIs(items, reader, render, k);
      ReplacedIff(items, reader, k);
    }
    if i: nat, j: nat :| Clash(items, reader, i, j) {
      ClashInside(items, reader, i, j);
      ReplacedIff(items, reader, LineKeyOf(items[j], reader));
    } else {
      forall k ensures Replaced(items, reader, k) == 0 { ReplacedIff(items, reader, k); }
    }
  }

  lemma ClashInside(items: seq<ServerItem>, reader: Reader, i: nat, j: nat)
    requires Clash(items, reader, i, j)
    ensures j < |items|
  {
  }

  /** The failing input: of two equal items only the second one's quantity arrives. */
  lemma SecondReplacesFirst(item: ServerItem, more: int, reader: Reader, render: RawKey -> string)
    requires Faithful(reader) && Valid(item) && more > 0
    ensures var k := LineKeyOf(item, reader);
            var items := [item, item.(quantity := more)];
            OrderedUnder(items, reader, k) == item.quantity + more && Received(items, reader, render, k) == more
  {
    hide Faithful, Received, LineKeyOf, RawKeyOf, Valid, Find, Broadcast, OrderedUnder, Replaced;
    var one, items := [item], [item, item.(quantity := more)];
    SameButQuantity(item, more, reader);
    assert items[..1] == one;
    OneItem(item, reader);
    assert items == one + [items[1]];
    AnotherItem(one, items[1], reader, LineKeyOf(item, reader));
    ReceivedIs(items, reader, render, LineKeyOf(item, reader));
  }

  lemma OneItem(item: ServerItem, reader: Reader)
    requires Valid(item)
    ensures var k, found := LineKeyOf(item, reader), Find(Broadcast([item], reader), RawKeyOf(item, reader));
            && found.Some? && found.value.quantity == item.quantity
            && OrderedUnder([item], reader, k) == item.quantity && Replaced([item], reader, k) == 0
  {
    hide LineKeyOf, RawKeyOf, Valid;
    assert [item][..0] == [];
  }

  lemma AnotherItem(front: seq<ServerItem>, last: ServerItem, reader: Reader, k: LineKey)
    requires Valid(last) && LineKeyOf(last, reader) == k
    requires Find(Broadcast(front, reader), RawKeyOf(last, reader)).Some?
    ensures var items, found := front + [last], Find(Broadcast(front, reader), RawKeyOf(last, reader)).value;
            && OrderedUnder(items, reader, k) == OrderedUnder(front, reader, k) + last.quantity
            && Replaced(items, reader, k) == Replaced(front, reader, k) + found.quantity
  {
    hide LineKeyOf, RawKeyOf, Valid, Find, Broadcast;
    assert (front + [last])[..|front|] == front;
  }

  lemma SameButQuantity(item: ServerItem, more: int, reader: Reader)
    requires Valid(item) && more > 0
    ensures var other := item.(quantity := more);
            Valid(other) && RawKeyOf(other, reader) == RawKeyOf(item, reader)
            && LineKeyOf(other, reader) == LineKeyOf(item, reader)
  {
  }
}

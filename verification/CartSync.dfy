/**
 Cart synchronisation: each replica keeps a cart and the text of its version, and takes an
 incoming cart when its revision is newer for the same order, or belongs to another order.
 */
module CartSync {
  import opened Text
  import opened OrderedDict
  import opened Cart
  import opened Storage
  import opened CartVersion

  datatype CartData =
    | SnapshotCart(items: seq<SnapshotItem>)
    | RecordCart(source: seq<SourceEntry>)

  datatype Payload = Payload(
    tableId: string,
    orderId: string,
    cartVersion: string,
    vectorOrderId: string,
    vectorRevision: int,
    cart: Option<CartData>,
    promotionCode: string,
    discountAmount: int,
    finalAmount: int)

  datatype PromoPreview = PromoPreview(code: string, discountAmount: int, finalAmount: int)

  datatype State = State(cart: CartMap, version: string, promoCode: string, promoPreview: Option<PromoPreview>)

  function RestoredCart(data: CartData): CartMap {
    match data
    case SnapshotCart(items) => RestoredFromSnapshot(items)
    case RecordCart(source) => RestoredFromStorage(source)
  }

  /** The version a payload carries: its vector, field by field, before its version text. */
  function IncomingVersion(p: Payload): Version {
    var fallback := ParseCartVersion(p.cartVersion);
    var raw := Trim(if p.vectorOrderId != "" then p.vectorOrderId else p.orderId);
    Version(if raw != "" then raw else fallback.orderId,
            if p.vectorRevision > 0 then p.vectorRevision else fallback.revision)
  }

  datatype Verdict = OtherTable | NoCart | Invalid | Stale | Apply

  function Decide(s: State, tableId: string, p: Payload): Verdict {
    var own, incoming := ParseCartVersion(s.version), IncomingVersion(p);
    if Trim(p.tableId) != tableId then OtherTable
    else if p.cart.None? then NoCart
    else if incoming.orderId == "" || incoming.revision == 0 then Invalid
    else if (own.orderId == "" || own.orderId == incoming.orderId)
            && own.revision > 0 && incoming.revision <= own.revision then Stale
    else Apply
  }

  function PromoAfter(s: State, p: Payload): (string, Option<PromoPreview>) {
    var code := Trim(p.promotionCode);
    if code != "" && p.discountAmount > 0 then
      (ToUpper(code), Some(PromoPreview(ToUpper(code), p.discountAmount, p.finalAmount)))
    else if code == "" && p.discountAmount <= 0 then ("", None)
    else (s.promoCode, s.promoPreview)
  }

  function Deliver(s: State, tableId: string, p: Payload): State {
    if Decide(s, tableId, p) != Apply then s
    else
      var incoming, promo := IncomingVersion(p), PromoAfter(s, p);
      State(RestoredCart(p.cart.value), BuildCartVersion(incoming.orderId, incoming.revision), promo.0, promo.1)
  }

  /** The page's own state, updated in place by the socket handler. */
  class Replica {
    const tableId: string
    var cart: CartMap
    var version: string
    var promoCode: string
    var promoPreview: Option<PromoPreview>

    constructor (tableId: string)
      ensures this.tableId == tableId && Current() == State([], "", "", None)
    {
      this.tableId := tableId;
      cart, version, promoCode, promoPreview := [], "", "", None;
    }

    function Current(): State
      reads this
    {
      State(cart, version, promoCode, promoPreview)
    }

    method OnCartUpdated(p: Payload)
      modifies this
      ensures Current() == Deliver(old(Current()), tableId, p)
    {
      hide IncomingVersion, ParseCartVersion, BuildCartVersion, RestoredFromSnapshot, RestoredFromStorage,
        Trim, ToUpper;
      if Trim(p.tableId) != tableId { return; }
      if p.cart.None? { return; }
      var own, incoming := ParseCartVersion(version), IncomingVersion(p);
      if incoming.orderId == "" || incoming.revision == 0 { return; }
      var isSameOrder := own.orderId == "" || own.orderId == incoming.orderId;
      if isSameOrder && own.revision > 0 && incoming.revision <= own.revision { return; }
      var next;
      match p.cart.value {
        case SnapshotCart(items) => next := RestoreCartFromSnapshot(items);
        case RecordCart(source) => next := RestoreCartFromStorage(source);
      }
      cart := next;
      var code := Trim(p.promotionCode);
      if code != "" && p.discountAmount > 0 {
        promoCode := ToUpper(code);
        promoPreview := Some(PromoPreview(ToUpper(code), p.discountAmount, p.finalAmount));
      } else if code == "" && p.discountAmount <= 0 {
        promoCode, promoPreview := "", None;
      }
      version := BuildCartVersion(incoming.orderId, incoming.revision);
    }
  }

  function DeliverAll(s: State, tableId: string, ps: seq<Payload>): State {
    if ps == [] then s
    else Deliver(DeliverAll(s, tableId, ps[..|ps| - 1]), tableId, ps[|ps| - 1])
  }

  // ----- runs about one order -----

  /** A delivery this table acts on or drops as stale, for order `o`. */
  predicate About(p: Payload, tableId: string, o: string) {
    && Trim(p.tableId) == tableId && p.cart.Some?
    && IncomingVersion(p).orderId == o && IncomingVersion(p).revision > 0
  }

  /** A delivery that is dropped in every state. */
  predicate Ignored(p: Payload, tableId: string) {
    || Trim(p.tableId) != tableId || p.cart.None?
    || IncomingVersion(p).orderId == "" || IncomingVersion(p).revision == 0
  }

  ghost predicate OneOrder(ps: seq<Payload>, tableId: string, o: string) {
    forall i :: 0 <= i < |ps| ==> About(ps[i], tableId, o) || Ignored(ps[i], tableId)
  }

  /** The revision a replica already holds for order `o`; zero when it holds none. */
  function Floor(s: State, o: string): nat {
    var own := ParseCartVersion(s.version);
    if (own.orderId == "" || own.orderId == o) && own.revision > 0 then own.revision else 0
  }

  /** The largest revision among the deliveries about `o`, zero if there are none. */
  function Newest(ps: seq<Payload>, tableId: string, o: string): nat {
    if ps == [] then 0
    else
      var front, last := Newest(ps[..|ps| - 1], tableId, o), ps[|ps| - 1];
      if About(last, tableId, o) && IncomingVersion(last).revision > front then IncomingVersion(last).revision
      else front
  }

  /** The first delivery that carries the newest revision. */
  function Winner(ps: seq<Payload>, tableId: string, o: string): (p: Payload)
    requires Newest(ps, tableId, o) > 0
    ensures p in ps && About(p, tableId, o) && IncomingVersion(p).revision == Newest(ps, tableId, o)
  {
    var front, last := ps[..|ps| - 1], ps[|ps| - 1];
    if About(last, tableId, o) && IncomingVersion(last).revision > Newest(front, tableId, o) then last
    else Winner(front, tableId, o)
  }

  lemma {:induction false} NewestIsMaximum(ps: seq<Payload>, tableId: string, o: string)
    ensures forall p :: p in ps && About(p, tableId, o) ==> IncomingVersion(p).revision <= Newest(ps, tableId, o)
    ensures Newest(ps, tableId, o) > 0 ==>
      exists p :: p in ps && About(p, tableId, o) && IncomingVersion(p).revision == Newest(ps, tableId, o)
  {
    hide About, IncomingVersion;
    if ps != [] {
      NewestIsMaximum(ps[..|ps| - 1], tableId, o);
      assert ps == ps[..|ps| - 1] + [ps[|ps| - 1]];
    }
  }

  ghost predicate ValidOrder(o: string) { o != "" && Trimmed(o) }

  /** One delivery, as a comparison of revisions. */
  lemma DeliverStep(s: State, tableId: string, o: string, p: Payload)
    requires ValidOrder(o)
    ensures Ignored(p, tableId) ==> Deliver(s, tableId, p) == s
    ensures About(p, tableId, o) && IncomingVersion(p).revision <= Floor(s, o) ==> Deliver(s, tableId, p) == s
    ensures About(p, tableId, o) && IncomingVersion(p).revision > Floor(s, o) ==>
      && Decide(s, tableId, p) == Apply
      && Deliver(s, tableId, p).cart == RestoredCart(p.cart.value)
      && ParseCartVersion(Deliver(s, tableId, p).version) == IncomingVersion(p)
      && Floor(Deliver(s, tableId, p), o) == IncomingVersion(p).revision
  {
    hide RestoredCart, ParseCartVersion, BuildCartVersion, PromoAfter;
    if About(p, tableId, o) {
      VersionRoundTrip(IncomingVersion(p).orderId, IncomingVersion(p).revision);
    }
  }

  /**
   Deliveries about one order, mixed with deliveries that are dropped, leave the replica at the
   larger of its own revision and the newest delivered one, holding the cart of the first
   delivery with the newest revision if that is newer than its own and its old cart otherwise.
   */
  lemma {:induction false} RunReachesNewest(s: State, tableId: string, o: string, ps: seq<Payload>)
    requires ValidOrder(o) && OneOrder(ps, tableId, o)
    ensures var end := DeliverAll(s, tableId, ps);
            if Newest(ps, tableId, o) <= Floor(s, o) then end == s
            else && end.cart == RestoredCart(Winner(ps, tableId, o).cart.value)
                 && ParseCartVersion(end.version) == Version(o, Newest(ps, tableId, o))
                 && Floor(end, o) == Newest(ps, tableId, o)
  {
    hide RestoredCart, ParseCartVersion, Deliver, Decide, About, Ignored, IncomingVersion, Floor;
    if ps != [] {
      var front, last := ps[..|ps| - 1], ps[|ps| - 1];
      RunReachesNewest(s, tableId, o, front);
      DeliverStep(DeliverAll(s, tableId, front), tableId, o, last);
      AboutOrIgnored(last, tableId, o);
      if Newest(front, tableId, o) > 0 { assert Winner(front, tableId, o) in front; }
    }
  }

  lemma AboutOrIgnored(p: Payload, tableId: string, o: string)
    requires ValidOrder(o)
    ensures About(p, tableId, o) ==>
      !Ignored(p, tableId) && IncomingVersion(p) == Version(o, IncomingVersion(p).revision)
  {
  }

  /** Deliveries that carry equal revisions carry equal carts. */
  ghost predicate Agreeing(ps: seq<Payload>, tableId: string, o: string) {
    forall p, q :: p in ps && q in ps && About(p, tableId, o) && About(q, tableId, o)
      && IncomingVersion(p).revision == IncomingVersion(q).revision
      ==> RestoredCart(p.cart.value) == RestoredCart(q.cart.value)
  }

  /** The same deliveries about `o`, in any order and any number of times. */
  ghost predicate SameDeliveries(ps: seq<Payload>, qs: seq<Payload>, tableId: string, o: string) {
    forall p :: About(p, tableId, o) ==> (p in ps <==> p in qs)
  }

  lemma SameNewest(ps: seq<Payload>, qs: seq<Payload>, tableId: string, o: string)
    requires SameDeliveries(ps, qs, tableId, o)
    ensures Newest(ps, tableId, o) == Newest(qs, tableId, o)
  {
    hide About, IncomingVersion;
    NewestIsMaximum(ps, tableId, o);
    NewestIsMaximum(qs, tableId, o);
  }

  /** Reordering and repeating the deliveries about an order changes neither the cart nor the version. */
  lemma Converges(s: State, tableId: string, o: string, ps: seq<Payload>, qs: seq<Payload>)
    requires ValidOrder(o) && OneOrder(ps, tableId, o) && OneOrder(qs, tableId, o)
    requires SameDeliveries(ps, qs, tableId, o) && Agreeing(ps, tableId, o)
    ensures var a, b := DeliverAll(s, tableId, ps), DeliverAll(s, tableId, qs);
            a.cart == b.cart && ParseCartVersion(a.version) == ParseCartVersion(b.version)
  {
    hide RestoredCart, ParseCartVersion, Deliver, Decide, About, Ignored, IncomingVersion, Floor, DeliverAll, Newest,
      Winner;
    SameNewest(ps, qs, tableId, o);
    RunReachesNewest(s, tableId, o, ps);
    RunReachesNewest(s, tableId, o, qs);
    if Newest(ps, tableId, o) > Floor(s, o) {
      assert Winner(qs, tableId, o) in ps && Winner(ps, tableId, o) in ps;
    }
  }

  /** Two replicas that both start below the newest revision end with the same cart. */
  lemma ReplicasAgree(s: State, t: State, tableId: string, o: string, ps: seq<Payload>, qs: seq<Payload>)
    requires ValidOrder(o) && OneOrder(ps, tableId, o) && OneOrder(qs, tableId, o)
    requires SameDeliveries(ps, qs, tableId, o) && Agreeing(ps, tableId, o)
    requires Newest(ps, tableId, o) > Floor(s, o) && Newest(ps, tableId, o) > Floor(t, o)
    ensures DeliverAll(s, tableId, ps).cart == DeliverAll(t, tableId, qs).cart
  {
    hide RestoredCart, ParseCartVersion, Deliver, Decide, About, Ignored, IncomingVersion, Floor, DeliverAll, Newest,
      Winner;
    SameNewest(ps, qs, tableId, o);
    RunReachesNewest(s, tableId, o, ps);
    RunReachesNewest(t, tableId, o, qs);
    assert Winner(qs, tableId, o) in ps && Winner(ps, tableId, o) in ps;
  }

  /** The revisions of the deliveries a run applies, in order. */
  function Applied(s: State, tableId: string, ps: seq<Payload>): seq<int> {
    if ps == [] then []
    else
      var front, last := ps[..|ps| - 1], ps[|ps| - 1];
      Applied(s, tableId, front) +
      if Decide(DeliverAll(s, tableId, front), tableId, last) == Apply then [IncomingVersion(last).revision] else []
  }

  ghost predicate Increasing(revisions: seq<int>) {
    forall i, j :: 0 <= i < j < |revisions| ==> revisions[i] < revisions[j]
  }

  /** Within one order the applied revisions strictly increase, from above the replica's own. */
  lemma {:induction false} AppliedIncrease(s: State, tableId: string, o: string, ps: seq<Payload>)
    requires ValidOrder(o) && OneOrder(ps, tableId, o)
    ensures Increasing(Applied(s, tableId, ps))
    ensures forall i :: 0 <= i < |Applied(s, tableId, ps)| ==>
      Floor(s, o) < Applied(s, tableId, ps)[i] <= Floor(DeliverAll(s, tableId, ps), o)
    ensures Floor(s, o) <= Floor(DeliverAll(s, tableId, ps), o)
  {
    hide RestoredCart, ParseCartVersion, Deliver, Decide, About, Ignored, IncomingVersion, Floor;
    if ps != [] {
      var front, last := ps[..|ps| - 1], ps[|ps| - 1];
      var mid := DeliverAll(s, tableId, front);
      AppliedIncrease(s, tableId, o, front);
      DeliverStep(mid, tableId, o, last);
      AboutOrIgnored(last, tableId, o);
      DropsAreNotApplied(mid, tableId, o, last);
      var before, applied := Applied(s, tableId, front), Applied(s, tableId, ps);
      if Decide(mid, tableId, last) == Apply {
        assert applied == before + [IncomingVersion(last).revision];
      } else {
        assert applied == before;
      }
    }
  }

  /** Exactly which deliveries are applied, in any state and about any order. */
  lemma AppliesIff(s: State, tableId: string, p: Payload)
    ensures var v := IncomingVersion(p);
            Decide(s, tableId, p) == Apply <==>
              && Trim(p.tableId) == tableId && p.cart.Some?
              && v.orderId != "" && v.revision != 0
              && (Floor(s, v.orderId) == 0 || v.revision > Floor(s, v.orderId))
    ensures Decide(s, tableId, p) != Apply ==> Deliver(s, tableId, p) == s
  {
    hide IncomingVersion, ParseCartVersion, Trim;
  }

  lemma DropsAreNotApplied(s: State, tableId: string, o: string, p: Payload)
    requires ValidOrder(o)
    ensures Ignored(p, tableId) ==> Decide(s, tableId, p) != Apply
    ensures About(p, tableId, o) && IncomingVersion(p).revision <= Floor(s, o) ==> Decide(s, tableId, p) != Apply
  {
  }

  /** A delivery for another order than the one held is always applied. */
  lemma OtherOrderApplied(s: State, tableId: string, o: string, p: Payload)
    requires About(p, tableId, o) && ParseCartVersion(s.version).orderId !in {"", o} && o != ""
    ensures Decide(s, tableId, p) == Apply
  {
  }

  // ----- what arrives -----

  /** A replica that holds a good cart holds a good cart after any delivery. */
  lemma DeliverKeepsGood(s: State, tableId: string, p: Payload)
    requires Good(s.cart)
    ensures Good(Deliver(s, tableId, p).cart)
  {
    hide Good, RestoredFromSnapshot, RestoredFromStorage;
    if Decide(s, tableId, p) == Apply {
      match p.cart.value
      case SnapshotCart(items) => RestoredSnapshotGood(items);
      case RecordCart(source) => RestoreConserves(source, LineKey("", map[], ""));
    }
  }

  /** A cart sent as a snapshot, whatever menu its sender knows, arrives with the same keys in the
      same order and every line as it was but for outer blanks. */
  lemma SnapshotArrives(s: State, tableId: string, p: Payload, sent: CartMap, menu: Menu)
    requires Decide(s, tableId, p) == Apply && p.cart == Some(SnapshotCart(Snapshot(sent, menu)))
    requires WellKeyed(sent) && forall i :: 0 <= i < |sent| ==> Storable(sent[i].value)
    ensures var got := Deliver(s, tableId, p).cart;
            Keys(got) == Keys(sent) && forall i :: 0 <= i < |sent| ==> got[i] == Tidied(sent[i])
  {
    hide WellKeyed, Storable, RestoredFromSnapshot, Snapshot, Tidied;
    SnapshotKeepsAllLinesIff(sent, menu);
  }

  /** A cart sent as a record holds on arrival, under every key, what the record's valid entries add up to. */
  lemma RecordHeld(s: State, tableId: string, p: Payload, source: seq<SourceEntry>, k: LineKey)
    requires Decide(s, tableId, p) == Apply && p.cart == Some(RecordCart(source))
    ensures Held(Deliver(s, tableId, p).cart, k) == Contributed(source, k)
    ensures Has(Deliver(s, tableId, p).cart, k) <==> Contributed(source, k) > 0
  {
    hide RestoredFromStorage, Contributed, Held, Has;
    RestoreConserves(source, k);
  }

  lemma SnapshotHeld(s: State, tableId: string, p: Payload, items: seq<SnapshotItem>, k: LineKey)
    requires Decide(s, tableId, p) == Apply && p.cart == Some(SnapshotCart(items))
    ensures Held(Deliver(s, tableId, p).cart, k) == ContributedItems(items, k)
    ensures Has(Deliver(s, tableId, p).cart, k) <==> ContributedItems(items, k) > 0
  {
    hide RestoredFromSnapshot, ContributedItems, Held, Has;
    SnapshotConserves(items, k);
  }

  /** A well-keyed cart of settled lines that is sent as a record arrives as it is. */
  lemma RecordArrives(s: State, tableId: string, p: Payload, sent: CartMap, render: LineKey -> string)
    requires Decide(s, tableId, p) == Apply && p.cart == Some(RecordCart(AsSource(sent, render)))
    requires WellKeyed(sent) && forall i :: 0 <= i < |sent| ==> Settled(sent[i].value)
    ensures Deliver(s, tableId, p).cart == sent
  {
    hide WellKeyed, Settled, RestoredFromStorage, AsSource;
    StorageRoundTripIff(sent, render);
  }

  /** What a delivered cart adds up to under one key. */
  function Carried(data: CartData, k: LineKey): int {
    match data
    case SnapshotCart(items) => ContributedItems(items, k)
    case RecordCart(source) => Contributed(source, k)
  }

  /** After any run about one order the replica holds, key by key, what the newest delivery carried. */
  lemma NewestCartHeld(s: State, tableId: string, o: string, ps: seq<Payload>, k: LineKey)
    requires ValidOrder(o) && OneOrder(ps, tableId, o) && Newest(ps, tableId, o) > Floor(s, o)
    ensures Held(DeliverAll(s, tableId, ps).cart, k) == Carried(Winner(ps, tableId, o).cart.value, k)
  {
    hide Ignored, IncomingVersion, Floor, DeliverAll, Newest, Winner, Held, Trim, RestoredFromSnapshot,
      RestoredFromStorage, ContributedItems, Contributed, OneOrder;
    RunReachesNewest(s, tableId, o, ps);
    match Winner(ps, tableId, o).cart.value
    case SnapshotCart(items) => SnapshotConserves(items, k);
    case RecordCart(source) => RestoreConserves(source, k);
  }

  /** The vector of a payload comes before its order id and its version text, field by field. */
  lemma IncomingVersionIs(p: Payload)
    ensures var id := if p.vectorOrderId != "" then p.vectorOrderId else p.orderId;
            && (Trim(id) != "" ==> IncomingVersion(p).orderId == Trim(id))
            && (p.vectorRevision > 0 ==> IncomingVersion(p).revision == p.vectorRevision)
            && forall o: string, n: int :: p.cartVersion == BuildCartVersion(o, n) ==>
                 && (Trim(id) == "" && Trim(o) != "" ==> IncomingVersion(p).orderId == Trim(o))
                 && (p.vectorRevision <= 0 && n >= 0 ==> IncomingVersion(p).revision == n)
  {
    hide Trim, ParseCartVersion, BuildCartVersion;
    forall o: string, n: int | p.cartVersion == BuildCartVersion(o, n)
      ensures ParseCartVersion(p.cartVersion) ==
        Version(if Trim(o) == "" then "local" else Trim(o), if n < 0 then 0 else n)
    {
      VersionRoundTrip(o, n);
    }
  }

  /** The promotion after an applied delivery: the code in upper case with the amounts delivered, or
      none, or the one from before. */
  lemma PromoShown(s: State, tableId: string, p: Payload)
    requires Decide(s, tableId, p) == Apply
    ensures var t, code := Deliver(s, tableId, p), Trim(p.promotionCode);
            if code != "" && p.discountAmount > 0 then
              && t.promoPreview == Some(PromoPreview(t.promoCode, p.discountAmount, p.finalAmount))
              && MatchesIgnoringCase(code, t.promoCode)
              && forall i :: 0 <= i < |t.promoCode| ==> !('a' <= t.promoCode[i] <= 'z')
            else if code == "" && p.discountAmount <= 0 then t.promoCode == "" && t.promoPreview == None
            else t.promoCode == s.promoCode && t.promoPreview == s.promoPreview
  {
    hide RestoredCart, BuildCartVersion, IncomingVersion, Trim, Decide;
  }

  // ----- when the promotion converges -----

  /** The promotion shown beside the cart. */
  function PromoOf(s: State): (string, Option<PromoPreview>) { (s.promoCode, s.promoPreview) }

  /** A payload whose promotion fields leave the old promotion standing. */
  predicate LeavesPromo(p: Payload) {
    (Trim(p.promotionCode) != "") != (p.discountAmount > 0)
  }

  /** What an applied payload does to the promotion depends on the earlier state exactly when its
      code and its discount contradict each other, and then it does nothing. */
  lemma PromoDependsOnPastIff(p: Payload)
    ensures (forall s, t :: PromoAfter(s, p) == PromoAfter(t, p)) <==> !LeavesPromo(p)
    ensures LeavesPromo(p) ==> forall s :: PromoAfter(s, p) == PromoOf(s)
  {
    var s, t := State([], "", "A", None), State([], "", "B", None);
    if LeavesPromo(p) {
      assert PromoAfter(s, p).0 != PromoAfter(t, p).0;
    }
  }

  lemma PromoApplied(s: State, tableId: string, p: Payload)
    requires Decide(s, tableId, p) == Apply
    ensures PromoOf(Deliver(s, tableId, p)) == PromoAfter(s, p)
  {
  }

  /** If the first delivery of the newest revision sets the promotion, that is the final one. */
  lemma {:induction false} PromoOfWinner(s: State, tableId: string, o: string, ps: seq<Payload>)
    requires ValidOrder(o) && OneOrder(ps, tableId, o)
    requires Newest(ps, tableId, o) > Floor(s, o)
    requires !LeavesPromo(Winner(ps, tableId, o))
    ensures PromoOf(DeliverAll(s, tableId, ps)) == PromoAfter(s, Winner(ps, tableId, o))
  {
    hide RestoredCart, ParseCartVersion, Deliver, Decide, About, Ignored, IncomingVersion, Floor, PromoAfter,
      LeavesPromo;
    var front, last := ps[..|ps| - 1], ps[|ps| - 1];
    var mid := DeliverAll(s, tableId, front);
    RunReachesNewest(s, tableId, o, front);
    DeliverStep(mid, tableId, o, last);
    AboutOrIgnored(last, tableId, o);
    if About(last, tableId, o) && IncomingVersion(last).revision > Newest(front, tableId, o) {
      PromoDependsOnPastIff(last);
      PromoApplied(mid, tableId, last);
    } else {
      PromoOfWinner(s, tableId, o, front);
    }
  }

  /** A delivery about `o` that is newer than what the replica holds. */
  predicate Fresh(s: State, tableId: string, o: string, p: Payload) {
    About(p, tableId, o) && IncomingVersion(p).revision > Floor(s, o)
  }

  predicate IsNewest(ps: seq<Payload>, tableId: string, o: string, p: Payload) {
    p in ps && About(p, tableId, o) && IncomingVersion(p).revision == Newest(ps, tableId, o)
  }

  /** All deliveries of the newest revision set the promotion, and to the same one. */
  ghost predicate NewestSetPromo(s: State, tableId: string, o: string, ps: seq<Payload>) {
    forall p, q :: IsNewest(ps, tableId, o, p) && IsNewest(ps, tableId, o, q) ==>
      !LeavesPromo(p) && PromoAfter(s, p) == PromoAfter(s, q)
  }

  /** Every fresh delivery leaves the promotion, or sets the one already shown. */
  ghost predicate NoneChangesPromo(s: State, tableId: string, o: string, ps: seq<Payload>) {
    forall p :: p in ps && Fresh(s, tableId, o, p) ==> LeavesPromo(p) || PromoAfter(s, p) == PromoOf(s)
  }

  ghost predicate PromoDetermined(s: State, tableId: string, o: string, ps: seq<Payload>) {
    NewestSetPromo(s, tableId, o, ps) || NoneChangesPromo(s, tableId, o, ps)
  }

  lemma SameShownSameAfter(s: State, t: State, p: Payload)
    requires PromoOf(s) == PromoOf(t)
    ensures PromoAfter(s, p) == PromoAfter(t, p)
  {
  }

  lemma {:induction false} PromoStays(s: State, tableId: string, o: string, ps: seq<Payload>)
    requires ValidOrder(o) && OneOrder(ps, tableId, o) && NoneChangesPromo(s, tableId, o, ps)
    ensures PromoOf(DeliverAll(s, tableId, ps)) == PromoOf(s)
  {
    hide RestoredCart, ParseCartVersion, Deliver, Decide, About, Ignored, IncomingVersion, Floor, PromoAfter,
      LeavesPromo, PromoOf;
    if ps != [] {
      var front, last := ps[..|ps| - 1], ps[|ps| - 1];
      var mid := DeliverAll(s, tableId, front);
      PromoStays(s, tableId, o, front);
      RunReachesNewest(s, tableId, o, front);
      DeliverStep(mid, tableId, o, last);
      AboutOrIgnored(last, tableId, o);
      if Fresh(mid, tableId, o, last) {
        PromoApplied(mid, tableId, last);
        PromoDependsOnPastIff(last);
        SameShownSameAfter(s, mid, last);
      }
    }
  }

  /** Reordering and repeating deliveries does not change the final promotion if it is determined. */
  lemma PromoConverges(s: State, tableId: string, o: string, ps: seq<Payload>, qs: seq<Payload>)
    requires ValidOrder(o) && OneOrder(ps, tableId, o) && OneOrder(qs, tableId, o)
    requires SameDeliveries(ps, qs, tableId, o) && PromoDetermined(s, tableId, o, ps)
    ensures PromoOf(DeliverAll(s, tableId, ps)) == PromoOf(DeliverAll(s, tableId, qs))
  {
    hide RestoredCart, ParseCartVersion, Deliver, Decide, About, Ignored, IncomingVersion, Floor, DeliverAll, Newest,
      Winner, PromoAfter, LeavesPromo, PromoOf;
    SameNewest(ps, qs, tableId, o);
    if NoneChangesPromo(s, tableId, o, ps) {
      PromoStays(s, tableId, o, ps);
      PromoStays(s, tableId, o, qs);
    } else if Newest(ps, tableId, o) > Floor(s, o) {
      assert IsNewest(ps, tableId, o, Winner(ps, tableId, o)) && IsNewest(ps, tableId, o, Winner(qs, tableId, o));
      PromoOfWinner(s, tableId, o, ps);
      PromoOfWinner(s, tableId, o, qs);
    } else {
      RunReachesNewest(s, tableId, o, ps);
      RunReachesNewest(s, tableId, o, qs);
    }
  }

  /** Replicas that show different promotions before end with one, if the newest deliveries set one. */
  lemma ReplicasAgreeOnPromo(
      s: State, t: State, tableId: string, o: string, ps: seq<Payload>, qs: seq<Payload>)
    requires ValidOrder(o) && OneOrder(ps, tableId, o) && OneOrder(qs, tableId, o)
    requires SameDeliveries(ps, qs, tableId, o) && NewestSetPromo(s, tableId, o, ps)
    requires Newest(ps, tableId, o) > Floor(s, o) && Newest(ps, tableId, o) > Floor(t, o)
    ensures PromoOf(DeliverAll(s, tableId, ps)) == PromoOf(DeliverAll(t, tableId, qs))
  {
    hide RestoredCart, ParseCartVersion, Deliver, Decide, About, Ignored, IncomingVersion, Floor, DeliverAll, Newest,
      Winner, PromoAfter, LeavesPromo, PromoOf;
    SameNewest(ps, qs, tableId, o);
    assert IsNewest(ps, tableId, o, Winner(ps, tableId, o)) && IsNewest(ps, tableId, o, Winner(qs, tableId, o));
    PromoOfWinner(s, tableId, o, ps);
    PromoOfWinner(t, tableId, o, qs);
    PromoDependsOnPastIff(Winner(qs, tableId, o));
  }

  // ----- and that the condition is necessary -----

  lemma {:induction false} DeliverFirst(s: State, tableId: string, p: Payload, rest: seq<Payload>)
    ensures DeliverAll(s, tableId, [p] + rest) == DeliverAll(Deliver(s, tableId, p), tableId, rest)
  {
    hide Deliver;
    var all := [p] + rest;
    if rest == [] {
      assert all[..0] == [] && DeliverAll(s, tableId, []) == s;
    } else {
      DeliverFirst(s, tableId, p, rest[..|rest| - 1]);
      assert all[..|all| - 1] == [p] + rest[..|rest| - 1];
    }
  }

  /** A fresh delivery that no later one exceeds decides the promotion. */
  lemma FirstDecides(s: State, tableId: string, o: string, w: Payload, rest: seq<Payload>)
    requires ValidOrder(o) && OneOrder(rest, tableId, o) && Fresh(s, tableId, o, w)
    requires Newest(rest, tableId, o) <= IncomingVersion(w).revision
    ensures PromoOf(DeliverAll(s, tableId, [w] + rest)) == PromoAfter(s, w)
  {
    hide RestoredCart, ParseCartVersion, Deliver, Decide, About, Ignored, IncomingVersion, Floor, DeliverAll, Newest,
      Winner, PromoAfter, LeavesPromo, PromoOf;
    DeliverStep(s, tableId, o, w);
    PromoApplied(s, tableId, w);
    DeliverFirst(s, tableId, w, rest);
    RunReachesNewest(Deliver(s, tableId, w), tableId, o, rest);
  }

  /** A newest delivery that leaves the promotion hands on what an older one before it has set. */
  lemma SecondLeaves(s: State, tableId: string, o: string, p: Payload, w: Payload, rest: seq<Payload>)
    requires ValidOrder(o) && OneOrder(rest, tableId, o) && Fresh(s, tableId, o, p) && About(w, tableId, o)
    requires IncomingVersion(p).revision < IncomingVersion(w).revision && LeavesPromo(w)
    requires Newest(rest, tableId, o) <= IncomingVersion(w).revision
    ensures PromoOf(DeliverAll(s, tableId, [p] + ([w] + rest))) == PromoAfter(s, p)
  {
    hide RestoredCart, ParseCartVersion, Deliver, Decide, About, Ignored, IncomingVersion, Floor, DeliverAll, Newest,
      Winner, PromoAfter, LeavesPromo, PromoOf;
    DeliverStep(s, tableId, o, p);
    PromoApplied(s, tableId, p);
    DeliverFirst(s, tableId, p, [w] + rest);
    FirstDecides(Deliver(s, tableId, p), tableId, o, w, rest);
    PromoDependsOnPastIff(w);
  }

  /** The failing input: an older delivery that sets the promotion and a newer one that leaves it.
      Delivered in order they show the older one's promotion, in reverse the one from before. */
  lemma PromoOrderMatters(s: State, tableId: string, o: string, p: Payload, w: Payload)
    requires ValidOrder(o) && Fresh(s, tableId, o, p) && About(w, tableId, o)
    requires IncomingVersion(p).revision < IncomingVersion(w).revision && LeavesPromo(w) && !LeavesPromo(p)
    ensures PromoOf(DeliverAll(s, tableId, [p, w])) == PromoAfter(s, p)
    ensures PromoOf(DeliverAll(s, tableId, [w, p])) == PromoOf(s)
  {
    hide About, IncomingVersion, Ignored, Floor, DeliverAll, PromoAfter, LeavesPromo, PromoOf;
    assert [p] + ([w] + []) == [p, w] && [w] + [p] == [w, p] && [p][..0] == [];
    SecondLeaves(s, tableId, o, p, w, []);
    FirstDecides(s, tableId, o, w, [p]);
    PromoDependsOnPastIff(w);
  }

  lemma Fronted(ps: seq<Payload>, p: Payload) returns (rest: seq<Payload>)
    requires p in ps
    ensures multiset([p] + rest) == multiset(ps)
  {
    var i :| 0 <= i < |ps| && ps[i] == p;
    rest := ps[..i] + ps[i + 1..];
    assert ps == ps[..i] + [p] + ps[i + 1..];
  }

  lemma Rearranged(ps: seq<Payload>, qs: seq<Payload>, tableId: string, o: string)
    requires OneOrder(ps, tableId, o) && multiset(ps) == multiset(qs)
    ensures OneOrder(qs, tableId, o) && SameDeliveries(ps, qs, tableId, o)
    ensures Newest(ps, tableId, o) == Newest(qs, tableId, o)
  {
    hide About, Ignored, Newest;
    assert forall p :: p in ps <==> p in multiset(ps);
    assert forall q :: q in qs <==> q in multiset(qs);
    assert forall i :: 0 <= i < |qs| ==> qs[i] in ps;
    SameNewest(ps, qs, tableId, o);
  }

  /** What is left of a rearrangement after its first delivery. */
  lemma RestOfRearranged(ps: seq<Payload>, p: Payload, rest: seq<Payload>, tableId: string, o: string)
    requires OneOrder(ps, tableId, o) && multiset([p] + rest) == multiset(ps)
    ensures OneOrder(rest, tableId, o) && Newest(rest, tableId, o) <= Newest(ps, tableId, o)
  {
    hide About, Ignored, Newest, IncomingVersion;
    Rearranged(ps, [p] + rest, tableId, o);
    assert forall i :: 0 <= i < |rest| ==> rest[i] == ([p] + rest)[i + 1];
    NewestIsMaximum(ps, tableId, o);
    NewestIsMaximum(rest, tableId, o);
    if Newest(rest, tableId, o) > 0 {
      var q :| q in rest && About(q, tableId, o) && IncomingVersion(q).revision == Newest(rest, tableId, o);
      assert q in [p] + rest;
    }
  }

  /** Putting a newest delivery first makes its promotion the final one. */
  lemma PutFirst(s: State, tableId: string, o: string, ps: seq<Payload>, w: Payload) returns (qs: seq<Payload>)
    requires ValidOrder(o) && OneOrder(ps, tableId, o) && IsNewest(ps, tableId, o, w) && Fresh(s, tableId, o, w)
    ensures multiset(qs) == multiset(ps) && PromoOf(DeliverAll(s, tableId, qs)) == PromoAfter(s, w)
  {
    hide About, Newest, IncomingVersion, Floor, DeliverAll, PromoAfter, PromoOf;
    var rest := Fronted(ps, w);
    RestOfRearranged(ps, w, rest, tableId, o);
    FirstDecides(s, tableId, o, w, rest);
    qs := [w] + rest;
  }

  /** Putting an older delivery before a newest one that leaves the promotion makes the older one's final. */
  lemma PutBefore(s: State, tableId: string, o: string, ps: seq<Payload>, p: Payload, w: Payload)
    returns (qs: seq<Payload>)
    requires ValidOrder(o) && OneOrder(ps, tableId, o) && IsNewest(ps, tableId, o, w) && LeavesPromo(w)
    requires p in ps && Fresh(s, tableId, o, p) && IncomingVersion(p).revision < IncomingVersion(w).revision
    ensures multiset(qs) == multiset(ps) && PromoOf(DeliverAll(s, tableId, qs)) == PromoAfter(s, p)
  {
    hide About, Newest, IncomingVersion, Floor, DeliverAll, PromoAfter, PromoOf, LeavesPromo;
    var others := Fronted(ps, p);
    RestOfRearranged(ps, p, others, tableId, o);
    assert w in multiset([p] + others);
    var rest := Fronted(others, w);
    RestOfRearranged(others, w, rest, tableId, o);
    SecondLeaves(s, tableId, o, p, w, rest);
    qs := [p] + ([w] + rest);
    assert multiset(qs) == multiset([p]) + multiset([w] + rest);
  }

  lemma PromoDiverges(s: State, tableId: string, o: string, ps: seq<Payload>)
    returns (qs: seq<Payload>, rs: seq<Payload>)
    requires ValidOrder(o) && OneOrder(ps, tableId, o) && !PromoDetermined(s, tableId, o, ps)
    ensures multiset(qs) == multiset(ps) && multiset(rs) == multiset(ps)
    ensures PromoOf(DeliverAll(s, tableId, qs)) != PromoOf(DeliverAll(s, tableId, rs))
  {
    hide About, Newest, IncomingVersion, Floor, DeliverAll, PromoAfter, PromoOf, LeavesPromo;
    NewestIsMaximum(ps, tableId, o);
    var p :| p in ps && Fresh(s, tableId, o, p) && !LeavesPromo(p) && PromoAfter(s, p) != PromoOf(s);
    var v, w :| IsNewest(ps, tableId, o, v) && IsNewest(ps, tableId, o, w)
      && (LeavesPromo(w) || PromoAfter(s, v) != PromoAfter(s, w));
    rs := PutFirst(s, tableId, o, ps, w);
    if !LeavesPromo(w) {
      qs := PutFirst(s, tableId, o, ps, v);
    } else {
      PromoDependsOnPastIff(w);
      if IncomingVersion(p).revision == Newest(ps, tableId, o) {
        qs := PutFirst(s, tableId, o, ps, p);
      } else {
        qs := PutBefore(s, tableId, o, ps, p, w);
      }
    }
  }

  /**
   The exact condition: every order of the deliveries ends with one promotion exactly when all
   deliveries of the newest revision set the same one, or no fresh delivery would change the one shown.
   */
  lemma PromoConvergesIff(s: State, tableId: string, o: string, ps: seq<Payload>)
    requires ValidOrder(o) && OneOrder(ps, tableId, o)
    ensures (forall qs :: multiset(qs) == multiset(ps) ==>
               PromoOf(DeliverAll(s, tableId, qs)) == PromoOf(DeliverAll(s, tableId, ps)))
            <==> PromoDetermined(s, tableId, o, ps)
  {
    hide OneOrder, SameDeliveries, Newest, DeliverAll, PromoOf, PromoDetermined;
    if PromoDetermined(s, tableId, o, ps) {
      forall qs | multiset(qs) == multiset(ps)
        ensures PromoOf(DeliverAll(s, tableId, qs)) == PromoOf(DeliverAll(s, tableId, ps))
      {
        Rearranged(ps, qs, tableId, o);
        PromoConverges(s, tableId, o, ps, qs);
      }
    } else {
      var qs, rs := PromoDiverges(s, tableId, o, ps);
    }
  }
}

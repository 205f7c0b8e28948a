/**
 The point-of-sale queue of orders taken while offline. An order is posted first and queued when no
 reply comes. The stored queue is rewritten after every answer of the server; a sync can end early
 because the network fails, because the store cannot be written, or because the page goes away.
 */
module OfflineQueue {

  datatype Order = Order(localId: string, body: string)

  /** What became of one post. Without a reply the server may or may not have taken the order. */
  datatype Answer = Accepted | Rejected | NoReply(taken: bool)

  /** `written` is false when the shortened queue did not reach the store. */
  datatype Attempt = Attempt(answer: Answer, written: bool)

  /** The store, and beside it the history it is judged by: all orders ever enqueued, those removed
      from the store, and those the server took and refused, in order and with repetitions. An order
      gets its local id when it is queued; one that never is queued is not followed here. */
  datatype State = State(
    store: seq<Order>,
    enqueued: seq<Order>,
    removed: seq<Order>,
    taken: seq<Order>,
    refused: seq<Order>)

  const EMPTY := State([], [], [], [], [])

  /** `queue.filter(q => q.localId !== id)`. */
  function Without(queue: seq<Order>, id: string): seq<Order> {
    if queue == [] then []
    else (if queue[0].localId != id then [queue[0]] else []) + Without(queue[1..], id)
  }

  function WithId(queue: seq<Order>, id: string): seq<Order> {
    if queue == [] then []
    else (if queue[0].localId == id then [queue[0]] else []) + WithId(queue[1..], id)
  }

  function Drop(s: State, id: string): State {
    s.(store := Without(s.store, id), removed := s.removed + WithId(s.store, id))
  }

  /** The server's side of one post. */
  function Post(s: State, o: Order, a: Answer): State {
    match a
    case Accepted => s.(taken := s.taken + [o])
    case Rejected => s.(refused := s.refused + [o])
    case NoReply(taken) => if taken then s.(taken := s.taken + [o]) else s
  }

  predicate GoesOn(a: Attempt) { !a.answer.NoReply? && a.written }

  /** The sync of the orders in `current`; it stops when the attempts run out. */
  function SyncOf(s: State, current: seq<Order>, attempts: seq<Attempt>): State
    decreases |current|
  {
    if current == [] || attempts == [] then s
    else
      var posted := Post(s, current[0], attempts[0].answer);
      if GoesOn(attempts[0]) then SyncOf(Drop(posted, current[0].localId), current[1..], attempts[1..])
      else posted
  }

  /** Adding an order; a failed read of the store counts as an empty queue. */
  function EnqueueOf(s: State, o: Order, readOk: bool): State {
    s.(store := (if readOk then s.store else []) + [o], enqueued := s.enqueued + [o])
  }

  /** A new order is queued when its post had no reply, or when the server refused it while the
      browser reported itself offline. */
  predicate Queues(first: Answer, online: bool) {
    first.NoReply? || (first.Rejected? && !online)
  }

  /** `createOrder`: the post comes first; what the server made of it is not known to the queue. */
  function CreateOf(s: State, o: Order, first: Answer, online: bool, readOk: bool, written: bool): State {
    if Queues(first, online) && written then EnqueueOf(Post(s, o, first), o, readOk) else s
  }

  class PosQueue {
    var store: seq<Order>
    ghost var enqueued: seq<Order>
    ghost var removed: seq<Order>
    ghost var taken: seq<Order>
    ghost var refused: seq<Order>

    ghost function Current(): State
      reads this
    {
      State(store, enqueued, removed, taken, refused)
    }

    constructor ()
      ensures Current() == EMPTY
    {
      store, enqueued, removed, taken, refused := [], [], [], [], [];
    }

    /** `emptied` says that the cart behind the order was cleared. */
    method CreateOrder(o: Order, first: Answer, online: bool, readOk: bool, written: bool) returns (emptied: bool)
      modifies this
      ensures Current() == CreateOf(old(Current()), o, first, online, readOk, written)
      ensures emptied <==> first.Accepted? || (written && (first.NoReply? || !online))
      ensures emptied && !first.Accepted? ==> store == (if readOk then old(store) else []) + [o]
      ensures first.Accepted? || !emptied ==> Current() == old(Current())
    {
      if first.Accepted? { return true; }
      if first.Rejected? && online { return false; }
      var existing := if readOk then store else [];
      if !written { return false; }
      if first == NoReply(true) {
        taken := taken + [o];
      } else if first.Rejected? {
        refused := refused + [o];
      }
      store := existing + [o];
      enqueued := enqueued + [o];
      return true;
    }

    method SyncOfflineQueue(attempts: seq<Attempt>)
      modifies this
      ensures Current() == SyncOf(old(Current()), old(store), attempts)
    {
      var currentQueue, nextQueue := store, store;
      ghost var goal := SyncOf(Current(), currentQueue, attempts);
      var i := 0;
      while i < |currentQueue| && i < |attempts|
        invariant 0 <= i <= |currentQueue| && i <= |attempts|
        invariant nextQueue == store
        invariant SyncOf(Current(), currentQueue[i..], attempts[i..]) == goal
        decreases |currentQueue| - i
      {
        var item, attempt := currentQueue[i], attempts[i];
        assert currentQueue[i..][1..] == currentQueue[i + 1..] && attempts[i..][1..] == attempts[i + 1..];
        match attempt.answer {
          case Accepted =>
            taken := taken + [item];
          case Rejected =>
            refused := refused + [item];
          case NoReply(took) =>
            if took { taken := taken + [item]; }
            return;
        }
        nextQueue := Without(nextQueue, item.localId);
        if !attempt.written { return; }
        removed := removed + WithId(store, item.localId);
        store := nextQueue;
        i := i + 1;
      }
    }
  }

  // ----- one sync -----

  ghost predicate DistinctIds(orders: seq<Order>) {
    forall i, j :: 0 <= i < j < |orders| ==> orders[i].localId != orders[j].localId
  }

  lemma {:induction false} WithoutAbsent(queue: seq<Order>, id: string)
    requires forall i :: 0 <= i < |queue| ==> queue[i].localId != id
    ensures Without(queue, id) == queue && WithId(queue, id) == []
  {
    if queue != [] {
      WithoutAbsent(queue[1..], id);
      assert queue == [queue[0]] + queue[1..];
    }
  }

  lemma DropHead(s: State)
    requires s.store != [] && DistinctIds(s.store)
    ensures Drop(s, s.store[0].localId) == s.(store := s.store[1..], removed := s.removed + [s.store[0]])
  {
    WithoutAbsent(s.store[1..], s.store[0].localId);
  }

  /** How many orders a sync removes: the leading attempts that were answered and written. */
  function Settled(attempts: seq<Attempt>, n: nat): (k: nat)
    ensures k <= n && k <= |attempts|
  {
    if n == 0 || attempts == [] || !GoesOn(attempts[0]) then 0 else 1 + Settled(attempts[1..], n - 1)
  }

  /** What the server's ledgers gain during a step from `s` to `t`. */
  ghost predicate Ledgers(s: State, t: State) {
    && s.taken <= t.taken && s.refused <= t.refused
    && (forall o :: o in t.taken || o in t.refused ==> o in s.taken || o in s.refused || o in s.store)
  }

  lemma PostFacts(s: State, a: Answer)
    requires s.store != []
    ensures var t := Post(s, s.store[0], a);
            && t.store == s.store && t.removed == s.removed && t.enqueued == s.enqueued && Ledgers(s, t)
            && (!a.NoReply? ==> s.store[0] in t.taken || s.store[0] in t.refused)
  {
    var o := s.store[0];
    assert (s.taken + [o])[|s.taken|] == o && (s.refused + [o])[|s.refused|] == o;
  }

  /** With distinct ids a sync removes exactly the answered orders from the front of the store and
      keeps the unprocessed suffix in order; the server took or refused each removed order, and it
      was only ever sent orders of the store. */
  lemma {:induction false} SyncKeepsSuffix(s: State, attempts: seq<Attempt>)
    requires DistinctIds(s.store)
    ensures var k, t := Settled(attempts, |s.store|), SyncOf(s, s.store, attempts);
            && t.store == s.store[k..] && t.removed == s.removed + s.store[..k] && t.enqueued == s.enqueued
            && Ledgers(s, t)
            && (forall i :: 0 <= i < k ==> s.store[i] in t.taken || s.store[i] in t.refused)
    decreases |s.store|
  {
    hide Post, Drop, Without, WithId, DistinctIds, Ledgers, GoesOn;
    LedgersReflexive(s);
    if s.store != [] && attempts != [] {
      var posted := Post(s, s.store[0], attempts[0].answer);
      PostFacts(s, attempts[0].answer);
      if GoesOn(attempts[0]) {
        GoesOnAnswered(attempts[0]);
        DropHead(posted);
        DistinctTail(s.store);
        var next := Drop(posted, s.store[0].localId);
        var rest := attempts[1..];
        SyncKeepsSuffix(next, rest);
        var k, t := Settled(rest, |next.store|), SyncOf(next, next.store, rest);
        TailSlices(s.store, s.removed, k);
        LedgersChain(s, posted, next, t);
        forall i | 0 <= i < k + 1 ensures s.store[i] in t.taken || s.store[i] in t.refused {
          if i > 0 { assert s.store[i] == next.store[i - 1]; }
        }
      }
    }
  }

  lemma GoesOnAnswered(a: Attempt)
    requires GoesOn(a)
    ensures !a.answer.NoReply?
  {
  }

  lemma TailSlices(store: seq<Order>, removed: seq<Order>, k: nat)
    requires store != [] && k < |store|
    ensures store[1..][k..] == store[k + 1..]
    ensures (removed + [store[0]]) + store[1..][..k] == removed + store[..k + 1]
  {
  }

  lemma LedgersReflexive(s: State)
    ensures Ledgers(s, s)
  {
  }

  lemma DistinctTail(orders: seq<Order>)
    requires DistinctIds(orders) && orders != []
    ensures DistinctIds(orders[1..])
  {
  }

  lemma LedgersChain(s: State, posted: State, next: State, t: State)
    requires Ledgers(s, posted) && Ledgers(next, t) && s.store != [] && posted.store == s.store
    requires next.taken == posted.taken && next.refused == posted.refused && next.store == s.store[1..]
    requires s.store[0] in posted.taken || s.store[0] in posted.refused
    ensures Ledgers(s, t) && (s.store[0] in t.taken || s.store[0] in t.refused)
  {
    assert s.store == [s.store[0]] + next.store;
    assert forall o :: o in posted.taken ==> o in t.taken;
    assert forall o :: o in posted.refused ==> o in t.refused;
  }

  /** The server answered and the page could act on it. */
  predicate AnsweredAndWritten(a: Attempt) {
    a.written && (a.answer == Accepted || a.answer == Rejected)
  }

  /** The orders the server takes when they are posted with these outcomes, and those it refuses. */
  function TakenOf(orders: seq<Order>, attempts: seq<Attempt>): seq<Order>
    requires |orders| <= |attempts|
  {
    if orders == [] then []
    else (if attempts[0].answer == Accepted || attempts[0].answer == NoReply(true) then [orders[0]] else [])
         + TakenOf(orders[1..], attempts[1..])
  }

  function RefusedOf(orders: seq<Order>, attempts: seq<Attempt>): seq<Order>
    requires |orders| <= |attempts|
  {
    if orders == [] then []
    else (if attempts[0].answer == Rejected then [orders[0]] else []) + RefusedOf(orders[1..], attempts[1..])
  }

  /** The sync goes on through every answer that was written, a refusal as well as an acceptance, for
      `k` orders, and posts one more if there is one. The first `k` leave the store; what was posted
      is taken or refused in order. */
  lemma {:induction false} SyncOutcome(s: State, attempts: seq<Attempt>, k: nat)
    requires DistinctIds(s.store) && k <= |s.store| && k <= |attempts|
    requires forall i :: 0 <= i < k ==> AnsweredAndWritten(attempts[i])
    requires k < |s.store| && k < |attempts| ==> !AnsweredAndWritten(attempts[k])
    ensures var t := SyncOf(s, s.store, attempts);
            var posted := if k < |s.store| && k < |attempts| then k + 1 else k;
            && t.store == s.store[k..] && t.removed == s.removed + s.store[..k]
            && t.taken == s.taken + TakenOf(s.store[..posted], attempts[..posted])
            && t.refused == s.refused + RefusedOf(s.store[..posted], attempts[..posted])
    decreases k
  {
    hide DistinctIds, Drop, Without, WithId, TakenOf, RefusedOf, Post;
    if k == 0 {
      NonePosted();
      if s.store != [] && attempts != [] {
        OnePosted(s.store[0], attempts[0]);
        PostLedgers(s, s.store[0], attempts[0].answer);
        assert s.store[..1] == [s.store[0]] && attempts[..1] == [attempts[0]];
      } else {
        assert s.store[..0] == [] && attempts[..0] == [];
      }
    } else {
      var mid := Post(s, s.store[0], attempts[0].answer);
      PostLedgers(s, s.store[0], attempts[0].answer);
      DropHead(mid);
      DistinctTail(s.store);
      SyncOutcome(Drop(mid, s.store[0].localId), attempts[1..], k - 1);
      TailSlices(s.store, s.removed, k - 1);
      PostedHead(s.store, attempts, if k < |s.store| && k < |attempts| then k + 1 else k);
    }
  }

  lemma PostLedgers(s: State, o: Order, a: Answer)
    ensures var t := Post(s, o, a);
            && t == s.(taken := t.taken, refused := t.refused)
            && t.taken == s.taken + (if a == Accepted || a == NoReply(true) then [o] else [])
            && t.refused == s.refused + (if a == Rejected then [o] else [])
  {
  }

  lemma PostedHead(orders: seq<Order>, attempts: seq<Attempt>, n: nat)
    requires 1 <= n <= |orders| && n <= |attempts|
    ensures TakenOf(orders[..n], attempts[..n]) ==
      (if attempts[0].answer == Accepted || attempts[0].answer == NoReply(true) then [orders[0]] else [])
      + TakenOf(orders[1..][..n - 1], attempts[1..][..n - 1])
    ensures RefusedOf(orders[..n], attempts[..n]) ==
      (if attempts[0].answer == Rejected then [orders[0]] else [])
      + RefusedOf(orders[1..][..n - 1], attempts[1..][..n - 1])
  {
    assert orders[..n][1..] == orders[1..][..n - 1] && attempts[..n][1..] == attempts[1..][..n - 1];
  }

  lemma NonePosted()
    ensures TakenOf([], []) == [] == RefusedOf([], [])
  {
  }

  lemma OnePosted(o: Order, a: Attempt)
    ensures TakenOf([o], [a]) == if a.answer == Accepted || a.answer == NoReply(true) then [o] else []
    ensures RefusedOf([o], [a]) == if a.answer == Rejected then [o] else []
  {
    assert [o][1..] == [] && [a][1..] == [];
  }

  // ----- runs -----

  datatype Event =
    | Create(order: Order, first: Answer, online: bool, readOk: bool, written: bool)
    | Sync(attempts: seq<Attempt>)

  function Step(s: State, e: Event): State {
    match e
    case Create(o, first, online, readOk, written) => CreateOf(s, o, first, online, readOk, written)
    case Sync(attempts) => SyncOf(s, s.store, attempts)
  }

  function Run(events: seq<Event>): State {
    if events == [] then EMPTY else Step(Run(events[..|events| - 1]), events[|events| - 1])
  }

  lemma RunEnqueued(events: seq<Event>)
    requires events != []
    ensures Run(events[..|events| - 1]).enqueued <= Run(events).enqueued
  {
    var s := Run(events[..|events| - 1]);
    match events[|events| - 1]
    case Create(_, _, _, _, _) =>
    case Sync(attempts) => SyncEnqueued(s, s.store, attempts);
  }

  lemma {:induction false} SyncEnqueued(s: State, current: seq<Order>, attempts: seq<Attempt>)
    ensures SyncOf(s, current, attempts).enqueued == s.enqueued
    decreases |current|
  {
    if current != [] && attempts != [] && GoesOn(attempts[0]) {
      SyncEnqueued(Drop(Post(s, current[0], attempts[0].answer), current[0].localId), current[1..], attempts[1..]);
    }
  }

  ghost predicate Suffix(a: seq<Order>, b: seq<Order>) {
    |a| <= |b| && a == b[|b| - |a|..]
  }

  lemma SuffixDistinct(a: seq<Order>, b: seq<Order>)
    requires Suffix(a, b) && DistinctIds(b)
    ensures DistinctIds(a)
  {
    var d := |b| - |a|;
    forall i, j | 0 <= i < j < |a| ensures a[i].localId != a[j].localId {
      assert a[i] == b[d + i] && a[j] == b[d + j];
    }
  }

  /** Whatever happens, the store holds the latest enqueued orders, so no id twice. */
  lemma {:induction false} StoreIsSuffix(events: seq<Event>)
    requires DistinctIds(Run(events).enqueued)
    ensures Suffix(Run(events).store, Run(events).enqueued) && DistinctIds(Run(events).store)
  {
    hide SyncOf, DistinctIds, Settled;
    var t := Run(events);
    if events != [] {
      var s := Run(events[..|events| - 1]);
      RunEnqueued(events);
      FrontDistinct(s.enqueued, t.enqueued);
      StoreIsSuffix(events[..|events| - 1]);
      match events[|events| - 1]
      case Create(_, _, _, _, _) =>
      case Sync(attempts) => SyncKeepsSuffix(s, attempts);
    }
    SuffixDistinct(t.store, t.enqueued);
  }

  lemma FrontDistinct(a: seq<Order>, b: seq<Order>)
    requires a <= b && DistinctIds(b)
    ensures DistinctIds(a)
  {
  }

  // ----- nothing is lost -----

  /** Nothing is lost and nothing is invented: the removed orders and then the stored ones are all
      orders ever enqueued, in their order; every removed order was answered; and the server saw
      enqueued orders only. */
  ghost predicate Safe(s: State) {
    && s.enqueued == s.removed + s.store
    && (forall o :: o in s.removed ==> o in s.taken || o in s.refused)
    && (forall o :: o in s.taken || o in s.refused ==> o in s.enqueued)
  }

  /** An order that is queued is added to a store that could be read, or to an empty one. */
  predicate ReadsStore(s: State, e: Event) {
    e.Create? && Queues(e.first, e.online) && e.written ==> e.readOk || s.store == []
  }

  ghost predicate ReadsStoreThroughout(events: seq<Event>) {
    forall n :: 0 <= n < |events| ==> ReadsStore(Run(events[..n]), events[n])
  }

  lemma ReadsFront(events: seq<Event>)
    requires events != []
    ensures var front := events[..|events| - 1];
            ReadsStoreThroughout(events) <==>
              ReadsStoreThroughout(front) && ReadsStore(Run(front), events[|events| - 1])
  {
    hide Run, ReadsStore;
    var front := events[..|events| - 1];
    assert forall n :: 0 <= n <= |front| ==> front[..n] == events[..n];
    if ReadsStoreThroughout(events) {
      assert ReadsStore(Run(events[..|front|]), events[|front|]);
      forall n | 0 <= n < |front| ensures ReadsStore(Run(front[..n]), front[n]) {
        assert ReadsStore(Run(events[..n]), events[n]);
      }
    }
  }

  lemma CreateSafe(s: State, o: Order, first: Answer)
    requires Safe(s)
    ensures Safe(EnqueueOf(Post(s, o, first), o, true))
  {
    assert s.removed + (s.store + [o]) == (s.removed + s.store) + [o];
    assert forall x :: x in s.enqueued ==> x in s.enqueued + [o];
  }

  lemma SyncSafe(s: State, attempts: seq<Attempt>)
    requires Safe(s) && DistinctIds(s.store)
    ensures Safe(SyncOf(s, s.store, attempts))
  {
    hide SyncOf, DistinctIds, Settled;
    SyncKeepsSuffix(s, attempts);
    var k, t := Settled(attempts, |s.store|), SyncOf(s, s.store, attempts);
    assert s.store == s.store[..k] + s.store[k..];
    assert t.removed + t.store == s.removed + s.store;
    forall o | o in t.removed ensures o in t.taken || o in t.refused {
      if o !in s.removed {
        assert o in s.store[..k];
        var i :| 0 <= i < k && s.store[i] == o;
      }
    }
    assert forall o :: o in s.store ==> o in s.enqueued;
  }

  lemma StepSafe(s: State, e: Event)
    requires Safe(s) && DistinctIds(s.store) && ReadsStore(s, e)
    ensures Safe(Step(s, e))
  {
    hide Safe, DistinctIds, SyncOf;
    match e
    case Create(o, first, online, readOk, written) =>
      if Queues(first, online) && written {
        assert EnqueueOf(Post(s, o, first), o, readOk) == EnqueueOf(Post(s, o, first), o, true);
        CreateSafe(s, o, first);
      }
    case Sync(attempts) =>
      SyncSafe(s, attempts);
  }

  /** Enqueued orders that are neither removed nor stored. */
  function Missing(s: State): int { |s.enqueued| - |s.removed| - |s.store| }

  /** Orders go missing exactly when an order is queued on top of a store that could not be read. */
  lemma StepMissing(s: State, e: Event)
    requires DistinctIds(s.store)
    ensures Missing(Step(s, e)) == Missing(s) + if ReadsStore(s, e) then 0 else |s.store|
    ensures !ReadsStore(s, e) ==> |s.store| > 0
  {
    hide SyncOf, DistinctIds, Settled;
    match e
    case Create(_, _, _, _, _) =>
    case Sync(attempts) => SyncKeepsSuffix(s, attempts);
  }

  lemma {:induction false} MissingIff(events: seq<Event>)
    requires DistinctIds(Run(events).enqueued)
    ensures Missing(Run(events)) >= 0
    ensures Missing(Run(events)) == 0 <==> ReadsStoreThroughout(events)
    ensures ReadsStoreThroughout(events) ==> Safe(Run(events))
  {
    hide Step, DistinctIds, Missing, ReadsStore, ReadsStoreThroughout, Safe;
    if events == [] {
      NothingYet();
      assert events == [];
    } else {
      var front, last := events[..|events| - 1], events[|events| - 1];
      RunEnqueued(events);
      FrontDistinct(Run(front).enqueued, Run(events).enqueued);
      MissingIff(front);
      StoreIsSuffix(front);
      StepMissing(Run(front), last);
      ReadsFront(events);
      if ReadsStoreThroughout(events) { StepSafe(Run(front), last); }
    }
  }

  lemma NothingYet()
    ensures Safe(EMPTY) && Once(EMPTY) && Missing(EMPTY) == Repeats(EMPTY) == 0
    ensures ReadsStoreThroughout([]) && NoAnswerLostThroughout([])
  {
  }

  /** Over any run, with answers, failures and crashes of every kind, each enqueued order is answered
      or still queued in its order exactly when no order was queued after a failed read of a
      non-empty store. */
  lemma RunsAreSafeIff(events: seq<Event>)
    requires DistinctIds(Run(events).enqueued)
    ensures Safe(Run(events)) <==> ReadsStoreThroughout(events)
  {
    hide Run, DistinctIds, ReadsStoreThroughout;
    MissingIff(events);
    if Safe(Run(events)) { assert Missing(Run(events)) == 0; }
  }

  // ----- exactly once -----

  /** The server answered a post of this event and the order stays queued all the same: the first
      post of a queued order was taken or refused, or the attempt at which a sync stops was. */
  predicate LosesAnswer(s: State, e: Event) {
    match e
    case Create(_, first, online, _, written) => Queues(first, online) && written && first != NoReply(false)
    case Sync(attempts) =>
      var k := Settled(attempts, |s.store|);
      k < |attempts| && k < |s.store| && attempts[k].answer != NoReply(false)
  }

  ghost predicate NoAnswerLostThroughout(events: seq<Event>) {
    forall n :: 0 <= n < |events| ==> !LosesAnswer(Run(events[..n]), events[n])
  }

  lemma AnswersFront(events: seq<Event>)
    requires events != []
    ensures var front := events[..|events| - 1];
            NoAnswerLostThroughout(events) <==>
              NoAnswerLostThroughout(front) && !LosesAnswer(Run(front), events[|events| - 1])
  {
    hide Run, LosesAnswer;
    var front := events[..|events| - 1];
    assert forall n :: 0 <= n <= |front| ==> front[..n] == events[..n];
    if NoAnswerLostThroughout(events) {
      assert !LosesAnswer(Run(events[..|front|]), events[|front|]);
      forall n | 0 <= n < |front| ensures !LosesAnswer(Run(front[..n]), front[n]) {
        assert !LosesAnswer(Run(events[..n]), events[n]);
      }
    }
  }

  /** The server has seen each removed order once and no other order at all. */
  ghost predicate Once(s: State) {
    multiset(s.taken) + multiset(s.refused) == multiset(s.removed)
  }

  /** How many answers the server gave beyond one for each removed order. */
  function Repeats(s: State): int { |s.taken| + |s.refused| - |s.removed| }

  lemma AnsweredOnce(s: State, a: Attempt)
    requires s.store != [] && DistinctIds(s.store) && GoesOn(a)
    ensures var t := Drop(Post(s, s.store[0], a.answer), s.store[0].localId);
            && t.store == s.store[1..] && DistinctIds(t.store) && Repeats(t) == Repeats(s) && (Once(s) ==> Once(t))
  {
    hide DistinctIds;
    DropHead(Post(s, s.store[0], a.answer));
    DistinctTail(s.store);
  }

  lemma {:induction false} SyncRepeats(s: State, attempts: seq<Attempt>)
    requires DistinctIds(s.store)
    ensures var t, lost := SyncOf(s, s.store, attempts), LosesAnswer(s, Sync(attempts));
            Repeats(t) == Repeats(s) + (if lost then 1 else 0) && (Once(s) && !lost ==> Once(t))
    decreases |s.store|
  {
    hide DistinctIds, Drop, Once;
    if s.store != [] && attempts != [] && GoesOn(attempts[0]) {
      var next := Drop(Post(s, s.store[0], attempts[0].answer), s.store[0].localId);
      AnsweredOnce(s, attempts[0]);
      SyncRepeats(next, attempts[1..]);
    }
  }

  lemma StepRepeats(s: State, e: Event)
    requires DistinctIds(s.store)
    ensures Repeats(Step(s, e)) == Repeats(s) + if LosesAnswer(s, e) then 1 else 0
    ensures Once(s) && !LosesAnswer(s, e) ==> Once(Step(s, e))
  {
    hide DistinctIds, SyncOf, Settled;
    match e
    case Create(_, _, _, _, _) =>
    case Sync(attempts) => SyncRepeats(s, attempts);
  }

  lemma {:induction false} RepeatsIff(events: seq<Event>)
    requires DistinctIds(Run(events).enqueued)
    ensures Repeats(Run(events)) >= 0
    ensures Repeats(Run(events)) == 0 <==> NoAnswerLostThroughout(events)
    ensures NoAnswerLostThroughout(events) ==> Once(Run(events))
  {
    hide Step, DistinctIds, Repeats, LosesAnswer, NoAnswerLostThroughout, Once;
    if events == [] {
      NothingYet();
      assert events == [];
    } else {
      var front, last := events[..|events| - 1], events[|events| - 1];
      RunEnqueued(events);
      FrontDistinct(Run(front).enqueued, Run(events).enqueued);
      RepeatsIff(front);
      StoreIsSuffix(front);
      StepRepeats(Run(front), last);
      AnswersFront(events);
    }
  }

  lemma OnceCounts(s: State)
    requires Once(s)
    ensures Repeats(s) == 0
  {
    assert |multiset(s.taken) + multiset(s.refused)| == |multiset(s.removed)|;
  }

  /** The server sees each removed order exactly once, and no queued order, exactly when no answer
      is lost. */
  lemma RunsOnceIff(events: seq<Event>)
    requires DistinctIds(Run(events).enqueued)
    ensures Once(Run(events)) <==> NoAnswerLostThroughout(events)
  {
    hide Run, DistinctIds, Once, Repeats, NoAnswerLostThroughout;
    RepeatsIff(events);
    if Once(Run(events)) { OnceCounts(Run(events)); }
  }

  /** Once the queue has drained, the server has seen every order that ever was in it exactly once,
      provided and only provided no answer was lost on the way. */
  lemma DrainedExactlyOnceIff(events: seq<Event>)
    requires DistinctIds(Run(events).enqueued) && ReadsStoreThroughout(events) && Run(events).store == []
    ensures var s := Run(events);
            multiset(s.taken) + multiset(s.refused) == multiset(s.enqueued) <==> NoAnswerLostThroughout(events)
  {
    hide Run, DistinctIds, ReadsStoreThroughout, NoAnswerLostThroughout;
    RunsAreSafeIff(events);
    RunsOnceIff(events);
    var s := Run(events);
    assert s.enqueued == s.removed;
  }

  // ----- the inputs that fail -----

  lemma RunStep(events: seq<Event>, e: Event)
    ensures Run(events + [e]) == Step(Run(events), e)
  {
    assert (events + [e])[..|events|] == events;
  }

  lemma OneAttempt(s: State, a: Attempt)
    requires s.store != []
    ensures SyncOf(s, s.store, [a]) ==
      if GoesOn(a) then Drop(Post(s, s.store[0], a.answer), s.store[0].localId) else Post(s, s.store[0], a.answer)
  {
    assert [a][1..] == [];
  }

  /** The same order is taken twice when the reply to a sync's post, or the write after it, is lost. */
  lemma LostReplyTakesTwice(o: Order, a: Attempt)
    requires a == Attempt(NoReply(true), false) || a == Attempt(Accepted, false)
    ensures var s := Run([Create(o, NoReply(false), true, true, true)] + [Sync([a])]
                         + [Sync([Attempt(Accepted, true)])]);
            s.taken == [o, o] && s.store == [] && Safe(s) && !Once(s)
  {
    hide Safe, Once, SyncOf;
    var e1, e2, e3 := [Create(o, NoReply(false), true, true, true)], [Sync([a])], [Sync([Attempt(Accepted, true)])];
    RunStep([], e1[0]);
    RunStep(e1, e2[0]);
    RunStep(e1 + e2, e3[0]);
    assert [] + e1 == e1;
    OneAttempt(Run(e1), a);
    OneAttempt(Run(e1 + e2), Attempt(Accepted, true));
    DropHead(Post(Run(e1 + e2), o, Accepted));
    assert Run(e1 + e2 + e3) == State([], [o], [o], [o, o], []);
    TakenTwice(o);
  }

  /** It is also taken twice when the reply to its first post is lost: an undisturbed sync repeats it. */
  lemma LostFirstReplyTakesTwice(o: Order, online: bool)
    ensures var s := Run([Create(o, NoReply(true), online, true, true)] + [Sync([Attempt(Accepted, true)])]);
            s.taken == [o, o] && s.store == [] && Safe(s) && !Once(s)
  {
    hide Safe, Once, SyncOf;
    var e1, e2 := [Create(o, NoReply(true), online, true, true)], [Sync([Attempt(Accepted, true)])];
    RunStep([], e1[0]);
    RunStep(e1, e2[0]);
    assert [] + e1 == e1;
    OneAttempt(Run(e1), Attempt(Accepted, true));
    DropHead(Post(Run(e1), o, Accepted));
    assert Run(e1 + e2) == State([], [o], [o], [o, o], []);
    TakenTwice(o);
  }

  lemma TakenTwice(o: Order)
    ensures var s := State([], [o], [o], [o, o], []); Safe(s) && !Once(s)
  {
    assert multiset([o, o])[o] == 2 && multiset([o])[o] == 1;
  }

  /** An order queued after a failed read takes the place of all orders stored before. */
  lemma FailedReadLoses(a: Order, b: Order)
    requires a.localId != b.localId
    ensures var lost := NoReply(false);
            var s := Run([Create(a, lost, true, true, true)] + [Create(b, lost, true, false, true)]);
            s.store == [b] && s.removed == [] && DistinctIds(s.enqueued) && !Safe(s)
  {
    var e1, e2 := [Create(a, NoReply(false), true, true, true)], [Create(b, NoReply(false), true, false, true)];
    RunStep([], e1[0]);
    RunStep(e1, e2[0]);
    assert [] + e1 == e1;
    assert Run(e1 + e2) == State([b], [a, b], [], [], []);
    assert [a, b] != [] + [b];
  }

  /** Distinct ids are needed: an order that shares its id with an answered one leaves the store
      without ever having been posted by a sync. Ids are the clock's milliseconds and random
      characters, so this takes a collision. */
  lemma SharedIdIsLost(a: Order, b: Order)
    requires a.localId == b.localId && a != b
    ensures var lost := NoReply(false);
            var s := Run([Create(a, lost, true, true, true)] + [Create(b, lost, true, true, true)]
                         + [Sync([Attempt(Accepted, true)])]);
            s.store == [] && b !in s.taken && b !in s.refused
  {
    var e1, e2 := [Create(a, NoReply(false), true, true, true)], [Create(b, NoReply(false), true, true, true)];
    var e3 := [Sync([Attempt(Accepted, true)])];
    RunStep([], e1[0]);
    RunStep(e1, e2[0]);
    RunStep(e1 + e2, e3[0]);
    assert [] + e1 == e1;
    assert Run(e1 + e2).store == [a, b];
    OneAttempt(Run(e1 + e2), Attempt(Accepted, true));
    assert [a, b][1..] == [b] && [b][1..] == [];
    assert Without([b], a.localId) == [];
  }
}

/**
 The point-of-sale cart with its undo history of at most thirty snapshots, compared with an
 unbounded history.
 */
module PosCart {
  import opened Numbers

  const HISTORY := 30

  type Cart = map<string, int>

  datatype State = State(cart: Cart, history: seq<Cart>)

  /** `plain` says whether the item is on the menu and has no customizations; otherwise `increase`
      opens a dialog or does nothing. */
  datatype Op = Increase(item: string, plain: bool) | Decrease(item: string) | Undo

  function Held(cart: Cart, item: string): int { if item in cart then cart[item] else 0 }

  function Increased(cart: Cart, item: string): Cart { cart[item := Held(cart, item) + 1] }

  function Decreased(cart: Cart, item: string): Cart {
    if Held(cart, item) == 0 then cart
    else if cart[item] == 1 then cart - {item}
    else cart[item := cart[item] - 1]
  }

  /** `[snapshot, ...prev].slice(0, bound)`. */
  function Push(history: seq<Cart>, cart: Cart, bound: nat): seq<Cart> {
    var longer := [cart] + history;
    if |longer| <= bound then longer else longer[..bound]
  }

  function Step(s: State, op: Op, bound: nat): State {
    match op
    case Increase(item, plain) =>
      if plain then State(Increased(s.cart, item), Push(s.history, s.cart, bound)) else s
    case Decrease(item) => State(Decreased(s.cart, item), Push(s.history, s.cart, bound))
    case Undo => if s.history == [] then s else State(s.history[0], s.history[1..])
  }

  class PosCart {
    var cart: Cart
    var cartHistory: seq<Cart>

    function Current(): State
      reads this
    {
      State(cart, cartHistory)
    }

    constructor ()
      ensures Current() == State(map[], [])
    {
      cart, cartHistory := map[], [];
    }

    method PushCartHistory(snapshot: Cart)
      modifies this`cartHistory
      ensures cartHistory == Push(old(cartHistory), snapshot, HISTORY)
    {
      cartHistory := [snapshot] + cartHistory;
      if |cartHistory| > HISTORY {
        cartHistory := cartHistory[..HISTORY];
      }
    }

    method IncreaseItem(item: string, plain: bool)
      modifies this
      ensures Current() == Step(old(Current()), Increase(item, plain), HISTORY)
    {
      if !plain { return; }
      PushCartHistory(cart);
      cart := cart[item := (if item in cart then cart[item] else 0) + 1];
    }

    method DecreaseItem(item: string)
      modifies this
      ensures Current() == Step(old(Current()), Decrease(item), HISTORY)
    {
      PushCartHistory(cart);
      if item !in cart || cart[item] == 0 { return; }
      if cart[item] == 1 {
        cart := cart - {item};
      } else {
        cart := cart[item := cart[item] - 1];
      }
    }

    method UndoCartChange()
      modifies this
      ensures Current() == Step(old(Current()), Undo, HISTORY)
    {
      if cartHistory == [] { return; }
      cart := cartHistory[0];
      cartHistory := cartHistory[1..];
    }
  }

  /** For a cart without zero entries `decrease` takes back what `increase` added; the history keeps
      both snapshots. */
  lemma DecreaseTakesBack(s: State, item: string, bound: nat)
    requires bound >= 2 && forall i :: i in s.cart ==> s.cart[i] > 0
    ensures var t := Step(Step(s, Increase(item, true), bound), Decrease(item), bound);
            t.cart == s.cart && |t.history| >= 2 && t.history[0] == Increased(s.cart, item) && t.history[1] == s.cart
  {
    assert Decreased(Increased(s.cart, item), item) == s.cart;
  }

  /** An increase adds one of a plain item, a decrease takes one if there is one, neither touches
      another item, and nothing is kept at zero. */
  lemma ChangeCounts(s: State, item: string, other: string, bound: nat)
    requires forall i :: i in s.cart ==> s.cart[i] > 0
    ensures var t := Step(s, Increase(item, true), bound).cart;
            && Held(t, item) == Held(s.cart, item) + 1 && (other != item ==> Held(t, other) == Held(s.cart, other))
            && forall i :: i in t ==> t[i] > 0
    ensures var t := Step(s, Decrease(item), bound).cart;
            && Held(t, item) == (if Held(s.cart, item) > 0 then Held(s.cart, item) - 1 else 0)
            && (other != item ==> Held(t, other) == Held(s.cart, other))
            && forall i :: i in t ==> t[i] > 0
    ensures Step(s, Increase(item, false), bound) == s
  {
  }

  /** Undo brings back the cart of the last change, even of one that changed nothing. */
  lemma UndoTakesBack(s: State, op: Op, bound: nat)
    requires op.Decrease? || (op.Increase? && op.plain)
    requires bound >= 1
    ensures Step(Step(s, op, bound), Undo, bound).cart == s.cart
    ensures s.history == [] ==> Step(s, Undo, bound) == s
  {
  }

  // ----- the bounded history against the unbounded one -----

  /** The same step with a history that is never cut. */
  function IdealStep(s: State, op: Op): State {
    Step(s, op, |s.history| + 1)
  }

  function Run(s: State, ops: seq<Op>): State {
    if ops == [] then s else Step(Run(s, ops[..|ops| - 1]), ops[|ops| - 1], HISTORY)
  }

  function IdealRun(s: State, ops: seq<Op>): State {
    if ops == [] then s else IdealStep(IdealRun(s, ops[..|ops| - 1]), ops[|ops| - 1])
  }

  /** No undo finds the bounded history empty while the unbounded one is not. */
  ghost predicate NeverStarved(s: State, ops: seq<Op>) {
    forall n :: 0 <= n < |ops| && ops[n] == Undo ==>
      Run(s, ops[..n]).history != [] || IdealRun(s, ops[..n]).history == []
  }

  lemma StepPrefix(b: State, i: State, op: Op)
    requires b.cart == i.cart && b.history <= i.history && |b.history| <= HISTORY
    requires op == Undo ==> b.history != [] || i.history == []
    ensures var b', i' := Step(b, op, HISTORY), IdealStep(i, op);
            b'.cart == i'.cart && b'.history <= i'.history && |b'.history| <= HISTORY
  {
    assert [b.cart] + b.history <= [i.cart] + i.history;
  }

  /** An operation that takes a snapshot, whether or not the cart changes. */
  predicate Changes(op: Op) {
    op.Decrease? || (op.Increase? && op.plain)
  }

  lemma {:induction false} RefinesUnlessStarved(s: State, ops: seq<Op>)
    requires |s.history| <= HISTORY && NeverStarved(s, ops)
    ensures var b, i := Run(s, ops), IdealRun(s, ops);
            b.cart == i.cart && b.history <= i.history && |b.history| <= HISTORY
  {
    if ops != [] {
      var n := |ops| - 1;
      NeverStarvedFront(s, ops);
      RefinesUnlessStarved(s, ops[..n]);
      StepPrefix(Run(s, ops[..n]), IdealRun(s, ops[..n]), ops[n]);
    }
  }

  lemma NeverStarvedFront(s: State, ops: seq<Op>)
    requires ops != []
    ensures var front := ops[..|ops| - 1];
            NeverStarved(s, ops) <==>
              NeverStarved(s, front)
              && (ops[|ops| - 1] == Undo ==> Run(s, front).history != [] || IdealRun(s, front).history == [])
  {
    hide Run, IdealRun;
    var n := |ops| - 1;
    assert forall k :: 0 <= k <= n ==> ops[..n][..k] == ops[..k];
    if NeverStarved(s, ops) {
      forall k | 0 <= k < n && ops[..n][k] == Undo
        ensures Run(s, ops[..n][..k]).history != [] || IdealRun(s, ops[..n][..k]).history == []
      {
        assert ops[k] == Undo;
      }
    }
  }

  /** How many changes can be taken back by an unbounded history that starts with `n` snapshots. */
  function Depth(n: nat, ops: seq<Op>): nat {
    if ops == [] then n
    else
      var before, last := Depth(n, ops[..|ops| - 1]), ops[|ops| - 1];
      if Changes(last) then before + 1
      else if last == Undo && before > 0 then before - 1
      else before
  }

  /** The greatest depth on the way. */
  function Peak(n: nat, ops: seq<Op>): (p: nat)
    ensures p >= Depth(n, ops)
  {
    if ops == [] then n else Max(Peak(n, ops[..|ops| - 1]), Depth(n, ops))
  }

  /** No undo goes more than thirty changes below the greatest depth reached before it. */
  ghost predicate WithinReach(n: nat, ops: seq<Op>) {
    forall k :: 0 <= k <= |ops| ==> Peak(n, ops[..k]) <= Depth(n, ops[..k]) + HISTORY
  }

  lemma WithinReachFront(n: nat, ops: seq<Op>)
    requires ops != []
    ensures WithinReach(n, ops) <==> WithinReach(n, ops[..|ops| - 1]) && Peak(n, ops) <= Depth(n, ops) + HISTORY
  {
    hide Peak, Depth;
    var m := |ops| - 1;
    assert ops[..|ops|] == ops;
    assert forall k :: 0 <= k <= m ==> ops[..m][..k] == ops[..k];
    if WithinReach(n, ops) {
      forall k | 0 <= k <= m ensures Peak(n, ops[..m][..k]) <= Depth(n, ops[..m][..k]) + HISTORY {
        assert Peak(n, ops[..k]) <= Depth(n, ops[..k]) + HISTORY;
      }
    }
  }

  /** The operations alone decide whether a run starves. */
  lemma {:induction false} NeverStarvedIff(s: State, ops: seq<Op>)
    requires |s.history| <= HISTORY
    ensures NeverStarved(s, ops) <==> WithinReach(|s.history|, ops)
    ensures |IdealRun(s, ops).history| == Depth(|s.history|, ops)
    ensures NeverStarved(s, ops) ==>
      |Run(s, ops).history| == Depth(|s.history|, ops) - Max(0, Peak(|s.history|, ops) - HISTORY)
  {
    hide NeverStarved, WithinReach, Step;
    if ops == [] {
      NothingStarves(s);
    } else {
      var front, last := ops[..|ops| - 1], ops[|ops| - 1];
      StepLength(Run(s, front), last, HISTORY);
      StepLength(IdealRun(s, front), last, |IdealRun(s, front).history| + 1);
      NeverStarvedIff(s, front);
      NeverStarvedFront(s, ops);
      WithinReachFront(|s.history|, ops);
    }
  }

  lemma StepLength(s: State, op: Op, bound: nat)
    ensures |Step(s, op, bound).history| ==
      if Changes(op) then Min(|s.history| + 1, bound)
      else if op == Undo && s.history != [] then |s.history| - 1
      else |s.history|
  {
  }

  lemma NothingStarves(s: State)
    requires |s.history| <= HISTORY
    ensures NeverStarved(s, []) && WithinReach(|s.history|, [])
  {
  }

  /** In any interleaving of increases, decreases and undos that stays within reach, the cart is that
      of the unbounded history, of which the kept history is a prefix. */
  lemma RunRefinesIdeal(s: State, ops: seq<Op>)
    requires |s.history| <= HISTORY && WithinReach(|s.history|, ops)
    ensures var b, i := Run(s, ops), IdealRun(s, ops);
            b.cart == i.cart && b.history <= i.history && |b.history| <= HISTORY
  {
    NeverStarvedIff(s, ops);
    RefinesUnlessStarved(s, ops);
  }

  // ----- n changes, then m undos -----

  function Undos(m: nat): (ops: seq<Op>)
    ensures |ops| == m && forall i :: 0 <= i < m ==> ops[i] == Undo
  {
    seq(m, _ => Undo)
  }

  lemma {:induction false} RunConcat(s: State, a: seq<Op>, b: seq<Op>)
    ensures Run(s, a + b) == Run(Run(s, a), b)
  {
    if b == [] {
      assert a + b == a;
    } else {
      assert (a + b)[..|a + b| - 1] == a + b[..|b| - 1];
      RunConcat(s, a, b[..|b| - 1]);
    }
  }

  lemma ChangePushes(s: State, op: Op)
    requires Changes(op)
    ensures Step(s, op, HISTORY).history == Push(s.history, s.cart, HISTORY)
  {
  }

  lemma PushAt(history: seq<Cart>, cart: Cart)
    requires |history| <= HISTORY
    ensures |Push(history, cart, HISTORY)| == Min(|history| + 1, HISTORY)
    ensures forall i :: 0 <= i < Min(|history| + 1, HISTORY) ==>
      Push(history, cart, HISTORY)[i] == if i == 0 then cart else history[i - 1]
  {
  }

  /** After `n` changes the history holds the last snapshots, the newest first. */
  lemma {:induction false} HistoryAfter(cart: Cart, ops: seq<Op>)
    requires forall i :: 0 <= i < |ops| ==> Changes(ops[i])
    ensures |Run(State(cart, []), ops).history| == Min(|ops|, HISTORY)
    ensures forall i :: 0 <= i < Min(|ops|, HISTORY) ==>
      Run(State(cart, []), ops).history[i] == Run(State(cart, []), ops[..|ops| - 1 - i]).cart
  {
    hide Step, Push;
    if ops != [] {
      var n := |ops| - 1;
      var front := ops[..n];
      HistoryAfter(cart, front);
      var before, after := Run(State(cart, []), front), Run(State(cart, []), ops);
      ChangePushes(before, ops[n]);
      PushAt(before.history, before.cart);
      forall i | 0 <= i < Min(|ops|, HISTORY)
        ensures after.history[i] == Run(State(cart, []), ops[..n - i]).cart
      {
        if i > 0 {
          assert front[..n - 1 - (i - 1)] == ops[..n - i];
        }
      }
    }
  }

  lemma {:induction false} UndoSeveral(s: State, m: nat)
    ensures var k := Min(m, |s.history|);
            Run(s, Undos(m)) == if k == 0 then s else State(s.history[k - 1], s.history[k..])
  {
    if m > 0 {
      assert Undos(m)[..m - 1] == Undos(m - 1);
      UndoSeveral(s, m - 1);
    }
  }

  /** After `n` changes and `m` undos the cart is the one after `n - min(m, n, 30)` changes, so undo
      is exact for up to thirty steps and the older changes stay. */
  lemma UndoExactly(cart: Cart, ops: seq<Op>, m: nat)
    requires forall i :: 0 <= i < |ops| ==> Changes(ops[i])
    ensures Run(State(cart, []), ops + Undos(m)).cart ==
      Run(State(cart, []), ops[..|ops| - Min(m, Min(|ops|, HISTORY))]).cart
  {
    var s, k := Run(State(cart, []), ops), Min(m, Min(|ops|, HISTORY));
    RunConcat(State(cart, []), ops, Undos(m));
    HistoryAfter(cart, ops);
    UndoSeveral(s, m);
    if k == 0 {
      assert ops[..|ops|] == ops;
    } else {
      assert s.history[k - 1] == Run(State(cart, []), ops[..|ops| - k]).cart;
    }
  }

  /** Starving matters: from thirty-one changes on, undoing them all leaves the first ones in the cart. */
  lemma StarvedUndoDiffers(item: string, n: nat)
    requires n > HISTORY
    ensures var ops := seq(n, _ => Increase(item, true));
            && Run(State(map[], []), ops + Undos(n)).cart == map[item := n - HISTORY]
            && IdealRun(State(map[], []), ops + Undos(n)).cart == map[]
  {
    var ops := seq(n, _ => Increase(item, true));
    UndoExactly(map[], ops, n);
    Increases(item, n - HISTORY);
    assert ops[..n - HISTORY] == seq(n - HISTORY, _ => Increase(item, true));
    IdealUndone(State(map[], []), ops, n);
    assert ops[..n] == ops;
  }

  lemma {:induction false} Increases(item: string, n: nat)
    ensures Run(State(map[], []), seq(n, _ => Increase(item, true))).cart == if n == 0 then map[] else map[item := n]
  {
    if n > 0 {
      Increases(item, n - 1);
      assert seq(n, _ => Increase(item, true))[..n - 1] == seq(n - 1, _ => Increase(item, true));
    }
  }

  lemma {:induction false} IdealUndone(s: State, ops: seq<Op>, m: nat)
    requires m <= |ops| && forall i :: 0 <= i < |ops| ==> Changes(ops[i])
    ensures IdealRun(s, ops + Undos(m)) == IdealRun(s, ops[..|ops| - m])
  {
    if m == 0 {
      assert ops + Undos(0) == ops && ops[..|ops|] == ops;
    } else {
      assert (ops + Undos(m))[..|ops| + m - 1] == ops + Undos(m - 1);
      IdealUndone(s, ops, m - 1);
      var k := |ops| - m;
      assert ops[..k + 1][..k] == ops[..k] && Changes(ops[k]);
      var before := IdealRun(s, ops[..k]);
      assert IdealRun(s, ops[..k + 1]).history == [before.cart] + before.history;
      assert ([before.cart] + before.history)[1..] == before.history;
    }
  }
}

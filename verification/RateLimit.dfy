/** The fixed-window rate limiter of the AI service. */
module RateLimit {
  const WINDOW := 60

  datatype Bucket = Bucket(count: int, resetAt: int)

  type Counters = map<string, Bucket>

  datatype Request = Request(key: string, now: int)

  predicate OpensWindow(c: Counters, r: Request) {
    r.key !in c || r.now >= c[r.key].resetAt
  }

  /** The counters after a request to a limited key. */
  function Counted(c: Counters, r: Request): Counters {
    if OpensWindow(c, r) then c[r.key := Bucket(1, r.now + WINDOW)]
    else c[r.key := c[r.key].(count := c[r.key].count + 1)]
  }

  function After(c: Counters, r: Request, max: int): Counters {
    if max <= 0 then c else Counted(c, r)
  }

  predicate Admits(c: Counters, r: Request, max: int) {
    max <= 0 || OpensWindow(c, r) || c[r.key].count + 1 <= max
  }

  /** The module-level table, updated in place. */
  class Limiter {
    var counters: Counters

    constructor ()
      ensures counters == map[]
    {
      counters := map[];
    }

    method Enforce(r: Request, max: int) returns (admitted: bool)
      modifies this
      ensures admitted == Admits(old(counters), r, max)
      ensures counters == After(old(counters), r, max)
      ensures max <= 0 ==> admitted && counters == old(counters)
      ensures forall k :: k != r.key ==>
        (k in counters <==> k in old(counters)) && (k in counters ==> counters[k] == old(counters)[k])
    {
      if max <= 0 { return true; }
      if r.key !in counters || r.now >= counters[r.key].resetAt {
        counters := counters[r.key := Bucket(1, r.now + WINDOW)];
        return true;
      }
      var current := counters[r.key].count + 1;
      counters := counters[r.key := counters[r.key].(count := current)];
      return current <= max;
    }
  }

  // ----- runs -----

  /** A non-decreasing clock. */
  ghost predicate Ordered(rs: seq<Request>) {
    forall i, j :: 0 <= i < j < |rs| ==> rs[i].now <= rs[j].now
  }

  /** How many requests for `k` are admitted in `[lo, hi)` by a run; `limit` is the limit of each key. */
  function AdmittedIn(c: Counters, rs: seq<Request>, limit: string -> int, k: string, lo: int, hi: int): nat
    decreases |rs|
  {
    if rs == [] then 0
    else
      var r := rs[0];
      (if r.key == k && lo <= r.now < hi && Admits(c, r, limit(r.key)) then 1 else 0)
      + AdmittedIn(After(c, r, limit(r.key)), rs[1..], limit, k, lo, hi)
  }

  lemma {:induction false} NothingAfterEnd(
      c: Counters, rs: seq<Request>, limit: string -> int, k: string, lo: int, hi: int)
    requires forall i :: 0 <= i < |rs| ==> rs[i].now >= hi
    ensures AdmittedIn(c, rs, limit, k, lo, hi) == 0
    decreases |rs|
  {
    if rs != [] {
      NothingAfterEnd(After(c, rs[0], limit(rs[0].key)), rs[1..], limit, k, lo, hi);
    }
  }

  function Left(max: int, count: int): nat { if count < max then max - count else 0 }

  /** While one window lasts, only what is left of its allowance is admitted. */
  lemma {:induction false} WithinWindow(
      c: Counters, rs: seq<Request>, limit: string -> int, k: string, lo: int, hi: int)
    requires Ordered(rs) && limit(k) > 0
    requires k in c && hi <= c[k].resetAt
    ensures AdmittedIn(c, rs, limit, k, lo, hi) <= Left(limit(k), c[k].count)
    decreases |rs|
  {
    if rs != [] {
      var r := rs[0];
      var next := After(c, r, limit(r.key));
      if r.key == k && r.now >= hi {
        NothingAfterEnd(next, rs[1..], limit, k, lo, hi);
      } else {
        WithinWindow(next, rs[1..], limit, k, lo, hi);
      }
    }
  }

  /** Once the interval has begun, at most one further window can open in it. */
  lemma {:induction false} FromStart(c: Counters, rs: seq<Request>, limit: string -> int, k: string, lo: int, hi: int)
    requires Ordered(rs) && limit(k) > 0 && hi - lo <= WINDOW
    requires forall i :: 0 <= i < |rs| ==> rs[i].now >= lo
    ensures AdmittedIn(c, rs, limit, k, lo, hi) <=
      limit(k) + if k in c then Left(limit(k), c[k].count) else 0
    decreases |rs|
  {
    if rs != [] {
      var r := rs[0];
      var next := After(c, r, limit(r.key));
      if r.key == k && OpensWindow(c, r) {
        if r.now < hi {
          WithinWindow(next, rs[1..], limit, k, lo, hi);
        } else {
          NothingAfterEnd(next, rs[1..], limit, k, lo, hi);
        }
      } else {
        FromStart(next, rs[1..], limit, k, lo, hi);
      }
    }
  }

  ghost predicate Started(c: Counters) {
    forall k :: k in c ==> c[k].count >= 1
  }

  /** From any counters the limiter can reach, an interval of at most a minute admits fewer than
      twice the limit. */
  lemma {:induction false} IntervalBound(
      c: Counters, rs: seq<Request>, limit: string -> int, k: string, lo: int, hi: int)
    requires Ordered(rs) && limit(k) > 0 && hi - lo <= WINDOW && Started(c)
    ensures AdmittedIn(c, rs, limit, k, lo, hi) <= 2 * limit(k) - 1
    decreases |rs|
  {
    if rs != [] {
      if rs[0].now < lo {
        IntervalBound(After(c, rs[0], limit(rs[0].key)), rs[1..], limit, k, lo, hi);
      } else {
        FromStart(c, rs, limit, k, lo, hi);
      }
    }
  }

  /** A window admits at most the limit: the bound on the minute that starts with its first request. */
  lemma WindowBound(c: Counters, rs: seq<Request>, limit: string -> int, k: string)
    requires Ordered(rs) && limit(k) > 0 && rs != [] && rs[0].key == k && OpensWindow(c, rs[0])
    ensures AdmittedIn(c, rs, limit, k, rs[0].now, rs[0].now + WINDOW) <= limit(k)
  {
    WithinWindow(After(c, rs[0], limit(k)), rs[1..], limit, k, rs[0].now, rs[0].now + WINDOW);
  }

  // ----- windows -----

  /** The times at which a run opens windows for `k`. */
  function Openings(c: Counters, rs: seq<Request>, limit: string -> int, k: string): seq<int>
    decreases |rs|
  {
    if rs == [] then []
    else
      var r := rs[0];
      (if r.key == k && OpensWindow(c, r) then [r.now] else [])
      + Openings(After(c, r, limit(r.key)), rs[1..], limit, k)
  }

  ghost predicate Apart(times: seq<int>) {
    forall i, j :: 0 <= i < j < |times| ==> times[j] - times[i] >= WINDOW
  }

  ghost predicate NotBefore(times: seq<int>, t: int) {
    forall i :: 0 <= i < |times| ==> times[i] >= t
  }

  lemma PrependApart(t: int, rest: seq<int>)
    requires Apart(rest) && NotBefore(rest, t + WINDOW)
    ensures Apart([t] + rest) && NotBefore([t] + rest, t)
  {
  }

  lemma NotBeforeEarlier(times: seq<int>, t: int, u: int)
    requires NotBefore(times, t) && u <= t
    ensures NotBefore(times, u)
  {
  }

  /** Windows of one key are disjoint: their starts are at least a minute apart. */
  lemma {:induction false} WindowsApart(c: Counters, rs: seq<Request>, limit: string -> int, k: string)
    requires Ordered(rs) && limit(k) > 0
    ensures Apart(Openings(c, rs, limit, k))
    ensures k in c ==> NotBefore(Openings(c, rs, limit, k), c[k].resetAt)
    decreases |rs|
  {
    hide Apart, NotBefore;
    if rs == [] {
      NoWindows();
    } else {
      var r := rs[0];
      var next := After(c, r, limit(r.key));
      WindowsApart(next, rs[1..], limit, k);
      var rest := Openings(next, rs[1..], limit, k);
      if r.key == k && OpensWindow(c, r) {
        assert Openings(c, rs, limit, k) == [r.now] + rest;
        PrependApart(r.now, rest);
        if k in c { NotBeforeEarlier([r.now] + rest, r.now, c[k].resetAt); }
      } else {
        assert Openings(c, rs, limit, k) == rest;
      }
    }
  }

  lemma NoWindows()
    ensures Apart([]) && forall t :: NotBefore([], t)
  {
  }

  // ----- how long a window lasts -----

  /** The counters after a run. */
  function RunCounters(c: Counters, rs: seq<Request>, limit: string -> int): Counters
    decreases |rs|
  {
    if rs == [] then c else RunCounters(After(c, rs[0], limit(rs[0].key)), rs[1..], limit)
  }

  function CountOf(rs: seq<Request>, k: string): nat
    decreases |rs|
  {
    if rs == [] then 0 else (if rs[0].key == k then 1 else 0) + CountOf(rs[1..], k)
  }

  lemma {:induction false} BucketGrows(c: Counters, rs: seq<Request>, limit: string -> int, k: string)
    requires k in c && limit(k) > 0
    requires forall i :: 0 <= i < |rs| && rs[i].key == k ==> rs[i].now < c[k].resetAt
    ensures var d := RunCounters(c, rs, limit);
            k in d && d[k] == Bucket(c[k].count + CountOf(rs, k), c[k].resetAt)
    decreases |rs|
  {
    if rs != [] {
      assert forall i :: 0 <= i < |rs[1..]| ==> rs[1..][i] == rs[i + 1];
      BucketGrows(After(c, rs[0], limit(rs[0].key)), rs[1..], limit, k);
    }
  }

  /**
   A window lasts exactly sixty seconds. Whatever is requested in between, the next window of the key
   opens with the first request sixty seconds or more after the one that opened the last; until then
   a request is admitted exactly if fewer than the limit came before it in the window.
   */
  lemma WindowLasts(c: Counters, first: Request, rs: seq<Request>, limit: string -> int, r: Request)
    requires limit(first.key) > 0 && OpensWindow(c, first) && r.key == first.key
    requires forall i :: 0 <= i < |rs| && rs[i].key == first.key ==> rs[i].now < first.now + 60
    ensures Admits(c, first, limit(first.key))
    ensures var d := RunCounters(c, [first] + rs, limit);
            && (OpensWindow(d, r) <==> r.now >= first.now + 60)
            && (r.now >= first.now + 60 ==> Admits(d, r, limit(r.key)))
            && (r.now < first.now + 60 ==>
                  (Admits(d, r, limit(r.key)) <==> 1 + CountOf(rs, r.key) < limit(r.key)))
  {
    assert ([first] + rs)[1..] == rs;
    BucketGrows(After(c, first, limit(first.key)), rs, limit, first.key);
  }

  /** The first request of a key opens its first window. */
  lemma FirstOpens(c: Counters, r: Request)
    requires r.key !in c
    ensures OpensWindow(c, r)
  {
  }

  // ----- the bound is attained -----

  function Repeat(k: string, n: nat, now: int): (rs: seq<Request>)
    ensures |rs| == n && forall i :: 0 <= i < n ==> rs[i] == Request(k, now)
  {
    seq(n, i => Request(k, now))
  }

  /** Requests that fit in the running window are all admitted. */
  lemma {:induction false} AllAdmitted(c: Counters, n: nat, now: int, rest: seq<Request>,
      limit: string -> int, k: string, lo: int, hi: int)
    requires k in c && now < c[k].resetAt && c[k].count + n <= limit(k) && limit(k) > 0 && lo <= now < hi
    ensures AdmittedIn(c, Repeat(k, n, now) + rest, limit, k, lo, hi) ==
      n + AdmittedIn(c[k := c[k].(count := c[k].count + n)], rest, limit, k, lo, hi)
  {
    var rs := Repeat(k, n, now) + rest;
    if n == 0 {
      assert rs == rest;
      assert c[k := c[k].(count := c[k].count + 0)] == c;
    } else {
      assert rs[1..] == Repeat(k, n - 1, now) + rest;
      AllAdmitted(After(c, rs[0], limit(k)), n - 1, now, rest, limit, k, lo, hi);
      assert After(c, rs[0], limit(k))[k := c[k].(count := c[k].count + n)]
          == c[k := c[k].(count := c[k].count + n)];
    }
  }

  /** A burst at the end of one window and a burst at the start of the next reach the bound, so
      no smaller bound holds for any limit. */
  lemma BoundAttained(k: string, limit: string -> int) returns (rs: seq<Request>, lo: int)
    requires limit(k) > 0
    ensures Ordered(rs) && AdmittedIn(map[], rs, limit, k, lo, lo + WINDOW) == 2 * limit(k) - 1
  {
    var max := limit(k);
    var late, fresh' := Repeat(k, max - 1, 59), Repeat(k, max, 60);
    rs, lo := [Request(k, 0)] + (late + fresh'), 1;
    var c1 := map[k := Bucket(1, 60)];
    assert rs[1..] == late + fresh';
    assert After(map[], rs[0], max) == c1;
    assert AdmittedIn(map[], rs, limit, k, lo, lo + WINDOW) == AdmittedIn(c1, late + fresh', limit, k, lo, lo + WINDOW);
    AllAdmitted(c1, max - 1, 59, fresh', limit, k, lo, lo + WINDOW);
    var c2 := c1[k := Bucket(max, 60)];
    assert fresh'[1..] == Repeat(k, max - 1, 60) + [];
    var c3 := After(c2, fresh'[0], max);
    assert AdmittedIn(c2, fresh', limit, k, lo, lo + WINDOW)
        == 1 + AdmittedIn(c3, Repeat(k, max - 1, 60) + [], limit, k, lo, lo + WINDOW);
    AllAdmitted(c3, max - 1, 60, [], limit, k, lo, lo + WINDOW);
  }
}

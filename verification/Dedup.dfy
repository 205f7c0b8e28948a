/**
 De-duplication of realtime notifications: an id is remembered for five minutes after it was
 accepted. The cache is compared with the full history of acceptances.
 */
module Dedup {
  import opened Text

  const TTL := 5 * 60 * 1000   // milliseconds

  datatype Acceptance = Acceptance(id: string, time: int)

  function LastTime(log: seq<Acceptance>, id: string): Option<int> {
    if log == [] then None
    else if log[|log| - 1].id == id then Some(log[|log| - 1].time)
    else LastTime(log[..|log| - 1], id)
  }

  /** The id was accepted within the last five minutes. */
  predicate Recent(log: seq<Acceptance>, id: string, now: int) {
    var last := LastTime(log, id);
    last.Some? && now - last.value <= TTL
  }

  /** Two acceptances of one id are more than five minutes apart. */
  ghost predicate Spaced(log: seq<Acceptance>) {
    forall i, j :: 0 <= i < j < |log| && log[i].id == log[j].id ==> log[j].time - log[i].time > TTL
  }

  ghost predicate UpTo(log: seq<Acceptance>, now: int) {
    forall i :: 0 <= i < |log| ==> 0 < log[i].time <= now
  }

  /** The cache holds, for some ids, the time of the last acceptance, and for every id accepted
      within five minutes before `now` it holds it. */
  ghost predicate Remembers(cache: map<string, int>, log: seq<Acceptance>, now: int) {
    && (forall id :: id in cache ==> LastTime(log, id) == Some(cache[id]))
    && (forall id :: Recent(log, id, now) ==> id in cache)
  }

  lemma {:induction false} LastTimeUpTo(log: seq<Acceptance>, id: string, now: int)
    requires UpTo(log, now)
    ensures LastTime(log, id).Some? ==> 0 < LastTime(log, id).value <= now
    ensures forall i :: 0 <= i < |log| && log[i].id == id && Spaced(log) ==>
      LastTime(log, id).Some? && log[i].time <= LastTime(log, id).value
  {
    if log != [] {
      var front := log[..|log| - 1];
      assert forall i :: 0 <= i < |front| ==> front[i] == log[i];
      LastTimeUpTo(front, id, now);
    }
  }

  /** Some acceptance of the id is not before `since`. */
  ghost predicate AcceptedWithin(log: seq<Acceptance>, id: string, since: int) {
    exists i :: 0 <= i < |log| && log[i].id == id && log[i].time >= since
  }

  /** In a spaced history an id is recent exactly when some acceptance of it is at most five minutes old. */
  lemma RecentIff(log: seq<Acceptance>, id: string, now: int)
    requires UpTo(log, now) && Spaced(log)
    ensures Recent(log, id, now) <==> AcceptedWithin(log, id, now - 300000)
  {
    LastTimeUpTo(log, id, now);
    LastTimeFound(log, id);
  }

  lemma {:induction false} LastTimeFound(log: seq<Acceptance>, id: string)
    ensures LastTime(log, id).Some? ==>
      exists i :: 0 <= i < |log| && log[i].id == id && log[i].time == LastTime(log, id).value
  {
    if log != [] && log[|log| - 1].id != id {
      var front := log[..|log| - 1];
      LastTimeFound(front, id);
      if LastTime(log, id).Some? {
        var i :| 0 <= i < |front| && front[i].id == id && front[i].time == LastTime(front, id).value;
        assert log[i] == front[i];
      }
    }
  }

  class RealtimeGuard {
    var cache: map<string, int>
    ghost var log: seq<Acceptance>
    ghost var clock: int

    ghost predicate Valid()
      reads this
    {
      && UpTo(log, clock)
      && Spaced(log)
      && Remembers(cache, log, clock)
    }

    constructor ()
      ensures Valid() && log == [] && clock == 0
    {
      cache, log, clock := map[], [], 0;
    }

    method AlreadyHandledRealtime(id: string, now: int) returns (handled: bool)
      requires Valid() && 0 < now && clock <= now
      modifies this
      ensures Valid() && clock == now
      ensures var key := Trim(id);
              && (handled <==> key != "" && Recent(old(log), key, now))
              && (handled <==> key != "" && AcceptedWithin(old(log), key, now - 300000))
              && log == if key == "" || handled then old(log) else old(log) + [Acceptance(key, now)]
    {
      var key := Trim(id);
      RecentShrinks(log, clock, now);
      RecentIff(log, key, now);
      clock := now;
      if key == "" { return false; }
      var pending := cache.Keys;
      while pending != {}
        invariant pending <= cache.Keys
        invariant Remembers(cache, log, now)
        invariant forall k :: k in cache && k !in pending ==> now - cache[k] <= TTL
        invariant log == old(log) && clock == now
        decreases |pending|
      {
        var cacheKey :| cacheKey in pending;
        if now - cache[cacheKey] > TTL {
          cache := cache - {cacheKey};
        }
        pending := pending - {cacheKey};
      }
      LastTimeUpTo(log, key, now);
      if key in cache && cache[key] != 0 { return true; }
      cache := cache[key := now];
      AcceptedIsRemembered(cache, log, key, now);
      log := log + [Acceptance(key, now)];
      return false;
    }
  }

  lemma RecentShrinks(log: seq<Acceptance>, before: int, now: int)
    requires before <= now
    ensures forall id :: Recent(log, id, now) ==> Recent(log, id, before)
    ensures UpTo(log, before) ==> UpTo(log, now)
  {
  }

  lemma AcceptedIsRemembered(cache: map<string, int>, log: seq<Acceptance>, key: string, now: int)
    requires UpTo(log, now) && Spaced(log) && !Recent(log, key, now) && 0 < now
    requires key in cache && cache[key] == now
    requires Remembers(cache - {key}, log, now)
    ensures var longer := log + [Acceptance(key, now)];
            UpTo(longer, now) && Spaced(longer) && Remembers(cache, longer, now)
  {
    var longer := log + [Acceptance(key, now)];
    assert longer[..|log|] == log;
    forall i | 0 <= i < |log| && log[i].id == key ensures now - log[i].time > TTL {
      LastTimeUpTo(log, key, now);
    }
    forall id | id in cache ensures LastTime(longer, id) == Some(cache[id]) {
      if id != key { assert id in cache - {key}; }
    }
    forall id | Recent(longer, id, now) ensures id in cache {
      if id != key { assert Recent(log, id, now); }
    }
  }
}

/**
 The bounded logs of the AI service: response counters with their timelines, the trend built
 from a timeline, and the list of experiment events. Each is compared with the full log.
 */
module Telemetry {
  import opened Numbers
  import opened Text
  import opened OrderedDict

  datatype Point = Point(timestamp: int, source: string)   // timestamp in seconds

  datatype Sample = Sample(endpoint: string, point: Point)

  /** The last `n` elements, or all of them when there are fewer. */
  function Latest<T>(s: seq<T>, n: nat): seq<T> {
    if |s| <= n then s else s[|s| - n..]
  }

  /** Trimming after every append keeps the latest elements of the whole history. */
  lemma LatestAppend<T>(s: seq<T>, x: T, n: nat)
    ensures Latest(Latest(s, n) + [x], n) == Latest(s + [x], n)
  {
  }

  // ----- the full log -----

  function PointsOf(log: seq<Sample>, endpoint: string): seq<Point> {
    if log == [] then []
    else
      var last := log[|log| - 1];
      PointsOf(log[..|log| - 1], endpoint) + if last.endpoint == endpoint then [last.point] else []
  }

  function CountIn(points: seq<Point>, source: string): nat {
    if points == [] then 0
    else CountIn(points[..|points| - 1], source) + if points[|points| - 1].source == source then 1 else 0
  }

  ghost function SumOf(m: map<string, int>): int {
    if m == map[] then 0
    else
      var k :| k in m;
      m[k] + SumOf(m - {k})
  }

  lemma {:induction false} SumWithout(m: map<string, int>, k: string)
    requires k in m
    ensures SumOf(m) == m[k] + SumOf(m - {k})
    decreases |m|
  {
    var c :| c in m && SumOf(m) == m[c] + SumOf(m - {c});
    if c != k {
      SumWithout(m - {c}, k);
      SumWithout(m - {k}, c);
      assert m - {c} - {k} == m - {k} - {c};
    }
  }

  lemma SumUpdated(m: map<string, int>, k: string, v: int)
    ensures SumOf(m[k := v]) == SumOf(m) + v - if k in m then m[k] else 0
  {
    SumWithout(m[k := v], k);
    if k in m {
      SumWithout(m, k);
      assert m[k := v] - {k} == m - {k};
    } else {
      assert m[k := v] - {k} == m;
    }
  }

  /** The counters of one endpoint agree with its points. */
  ghost predicate CountersAgree(counters: map<string, int>, points: seq<Point>) {
    && (forall s :: s in counters <==> CountIn(points, s) > 0)
    && (forall s :: s in counters ==> counters[s] == CountIn(points, s))
    && SumOf(counters) == |points|
  }

  lemma CountersStep(counters: map<string, int>, points: seq<Point>, p: Point)
    requires CountersAgree(counters, points)
    ensures var n := if p.source in counters then counters[p.source] else 0;
            CountersAgree(counters[p.source := n + 1], points + [p])
  {
    var n := if p.source in counters then counters[p.source] else 0;
    SumUpdated(counters, p.source, n + 1);
    assert (points + [p])[..|points|] == points;
  }

  lemma NoCounters()
    ensures CountersAgree(map[], [])
  {
  }

  type SourceCounts = map<string, map<string, int>>

  type Timelines = map<string, seq<Point>>

  /** What the two tables hold for one endpoint, compared with its points in the full log. */
  ghost predicate Tracks(sources: SourceCounts, timelines: Timelines, points: seq<Point>, endpoint: string, cap: nat) {
    && (endpoint in sources <==> points != [])
    && (endpoint in timelines <==> points != [])
    && (endpoint in sources ==> CountersAgree(sources[endpoint], points))
    && (endpoint in timelines ==> timelines[endpoint] == Latest(points, cap))
  }

  /** `SOURCE_TRACKING` and `FALLBACK_TREND_HISTORY`, updated in place. */
  class ResponseTracker {
    const maxPoints: int
    var sources: SourceCounts
    var timelines: Timelines
    ghost var log: seq<Sample>

    ghost predicate Valid()
      reads this
    {
      forall e :: Tracks(sources, timelines, PointsOf(log, e), e, Max(20, maxPoints))
    }

    constructor (maxPoints: int)
      ensures Valid() && log == [] && this.maxPoints == maxPoints
    {
      this.maxPoints := maxPoints;
      sources, timelines, log := map[], map[], [];
    }

    method TrackResponseSource(endpoint: string, source: string, now: int)
      requires Valid()
      modifies this
      ensures Valid() && log == old(log) + [Sample(endpoint, Point(now, source))]
    {
      hide PointsOf, Tracks;
      var point, cap := Point(now, source), Max(20, maxPoints);
      ghost var points := PointsOf(log, endpoint);
      assert Tracks(sources, timelines, points, endpoint, cap);

      var counters := if endpoint in sources then sources[endpoint] else map[];
      counters := counters[source := (if source in counters then counters[source] else 0) + 1];
      var timeline := if endpoint in timelines then timelines[endpoint] else [];
      timeline := timeline + [point];
      if |timeline| > cap {
        timeline := timeline[|timeline| - cap..];
      }
      TracksStep(sources, timelines, points, endpoint, cap, point, counters, timeline);

      forall e ensures Tracks(sources[endpoint := counters], timelines[endpoint := timeline],
                              PointsOf(log + [Sample(endpoint, point)], e), e, cap)
      {
        PointsStep(log, Sample(endpoint, point), e);
        if e != endpoint { TracksOther(sources, timelines, PointsOf(log, e), e, cap, endpoint, counters, timeline); }
      }
      sources := sources[endpoint := counters];
      timelines := timelines[endpoint := timeline];
      log := log + [Sample(endpoint, point)];
    }
  }

  lemma TracksOther(sources: SourceCounts, timelines: Timelines, points: seq<Point>, e: string, cap: nat,
      endpoint: string, counters: map<string, int>, timeline: seq<Point>)
    requires Tracks(sources, timelines, points, e, cap) && e != endpoint
    ensures Tracks(sources[endpoint := counters], timelines[endpoint := timeline], points, e, cap)
  {
  }

  lemma TracksStep(sources: SourceCounts, timelines: Timelines, points: seq<Point>, endpoint: string, cap: nat,
      point: Point, counters: map<string, int>, timeline: seq<Point>)
    requires Tracks(sources, timelines, points, endpoint, cap)
    requires var before := if endpoint in sources then sources[endpoint] else map[];
             counters == before[point.source := (if point.source in before then before[point.source] else 0) + 1]
    requires var longer := (if endpoint in timelines then timelines[endpoint] else []) + [point];
             timeline == if |longer| > cap then longer[|longer| - cap..] else longer
    ensures Tracks(sources[endpoint := counters], timelines[endpoint := timeline], points + [point], endpoint, cap)
  {
    hide CountersAgree;
    var before := if endpoint in sources then sources[endpoint] else map[];
    NoCounters();
    CountersStep(before, points, point);
    LatestAppend(points, point, cap);
  }

  lemma PointsStep(log: seq<Sample>, x: Sample, e: string)
    ensures PointsOf(log + [x], e) == if x.endpoint == e then PointsOf(log, e) + [x.point] else PointsOf(log, e)
  {
    assert (log + [x])[..|log|] == log;
  }

  // ----- the trend of one timeline -----

  datatype Tally = Tally(total: nat, fallback: nat)

  datatype Row = Row(minute: int, total: nat, fallback: nat)

  function Minute(timestamp: int): int { timestamp - timestamp % 60 }

  function SafeWindow(minutes: int): int {
    Max(5, if minutes < 24 * 60 then minutes else 24 * 60)
  }

  predicate InWindow(p: Point, now: int, minutes: int) {
    now - p.timestamp <= SafeWindow(minutes) * 60
  }

  /** A minute is the whole multiple of sixty seconds a time falls in. */
  lemma MinuteIff(timestamp: int, m: int)
    ensures Minute(timestamp) == m <==> m % 60 == 0 && m <= timestamp < m + 60
  {
  }

  /** The window reaches back the given minutes, but at least five and at most a day. */
  lemma InWindowIff(p: Point, now: int, minutes: int)
    ensures InWindow(p, now, minutes) <==>
      p.timestamp >= now - 300 || (p.timestamp >= now - 86400 && p.timestamp >= now - 60 * minutes)
  {
  }

  /** Points of a timeline that fall in the window, and in one minute if one is given. */
  function CountWindow(points: seq<Point>, now: int, minutes: int, minute: Option<int>, fallbackOnly: bool): nat {
    if points == [] then 0
    else
      var p := points[|points| - 1];
      CountWindow(points[..|points| - 1], now, minutes, minute, fallbackOnly) +
      if InWindow(p, now, minutes) && (minute.None? || Minute(p.timestamp) == minute.value)
         && (fallbackOnly ==> p.source == "fallback")
      then 1 else 0
  }

  function TallyOf(d: Dict<int, Tally>, minute: int): Tally {
    Find(d, minute).GetOr(Tally(0, 0))
  }

  function TotalOf(d: Dict<int, Tally>): nat {
    if d == [] then 0 else TotalOf(d[..|d| - 1]) + d[|d| - 1].value.total
  }

  lemma {:induction false} TotalUpdated(d: Dict<int, Tally>, i: nat, t: Tally)
    requires i < |d|
    ensures TotalOf(d[i := Entry(d[i].key, t)]) == TotalOf(d) - d[i].value.total + t.total
  {
    var front := d[..|d| - 1];
    var r := d[i := Entry(d[i].key, t)];
    if i < |front| {
      TotalUpdated(front, i, t);
      assert r[..|d| - 1] == front[i := Entry(d[i].key, t)];
    } else {
      assert r[..|d| - 1] == front;
    }
  }

  lemma TotalPut(d: Dict<int, Tally>, k: int, t: Tally)
    ensures TotalOf(Put(d, k, t)) == TotalOf(d) - TallyOf(d, k).total + t.total
  {
    var i := IndexOf(d, k);
    if i < |d| {
      TotalUpdated(d, i, t);
    } else {
      assert Put(d, k, t)[..|d|] == d;
    }
  }

  /** The buckets hold, minute by minute, the in-window points seen so far. */
  ghost predicate BucketsAgree(d: Dict<int, Tally>, points: seq<Point>, now: int, minutes: int) {
    && Distinct(d)
    && (forall m :: Has(d, m) <==> CountWindow(points, now, minutes, Some(m), false) > 0)
    && (forall m :: TallyOf(d, m).total == CountWindow(points, now, minutes, Some(m), false))
    && (forall m :: TallyOf(d, m).fallback == CountWindow(points, now, minutes, Some(m), true))
    && TotalOf(d) == CountWindow(points, now, minutes, None, false)
  }

  function AddPoint(d: Dict<int, Tally>, p: Point): Dict<int, Tally> {
    var t := TallyOf(d, Minute(p.timestamp));
    Put(d, Minute(p.timestamp), Tally(t.total + 1, t.fallback + if p.source == "fallback" then 1 else 0))
  }

  lemma AddPointTallies(d: Dict<int, Tally>, p: Point, m: int)
    ensures var k, next := Minute(p.timestamp), AddPoint(d, p);
      && (Has(next, m) <==> m == k || Has(d, m))
      && TallyOf(next, m).total == TallyOf(d, m).total + (if m == k then 1 else 0)
      && TallyOf(next, m).fallback == TallyOf(d, m).fallback + (if m == k && p.source == "fallback" then 1 else 0)
  {
    hide Put, IndexOf, Minute;
    var k, next := Minute(p.timestamp), AddPoint(d, p);
    var t := Tally(TallyOf(d, k).total + 1, TallyOf(d, k).fallback + if p.source == "fallback" then 1 else 0);
    if m != k { FindPut(d, k, t, m); }
    FindHas(d, m);
    FindHas(next, m);
  }

  lemma CountWindowStep(points: seq<Point>, p: Point, now: int, minutes: int, minute: Option<int>, fallbackOnly: bool)
    ensures CountWindow(points + [p], now, minutes, minute, fallbackOnly) ==
      CountWindow(points, now, minutes, minute, fallbackOnly) +
      if InWindow(p, now, minutes) && (minute.None? || Minute(p.timestamp) == minute.value)
         && (fallbackOnly ==> p.source == "fallback") then 1 else 0
  {
    assert (points + [p])[..|points|] == points;
  }

  lemma BucketsStep(d: Dict<int, Tally>, points: seq<Point>, p: Point, now: int, minutes: int)
    requires BucketsAgree(d, points, now, minutes)
    ensures BucketsAgree(if InWindow(p, now, minutes) then AddPoint(d, p) else d, points + [p], now, minutes)
  {
    hide InWindow, Minute, CountWindow, TallyOf, Has, Put, Distinct, TotalOf;
    forall m, fallbackOnly
      ensures CountWindow(points + [p], now, minutes, Some(m), fallbackOnly) ==
        CountWindow(points, now, minutes, Some(m), fallbackOnly) +
        if InWindow(p, now, minutes) && Minute(p.timestamp) == m && (fallbackOnly ==> p.source == "fallback")
        then 1 else 0
    {
      CountWindowStep(points, p, now, minutes, Some(m), fallbackOnly);
    }
    CountWindowStep(points, p, now, minutes, None, false);
    if InWindow(p, now, minutes) {
      var k := Minute(p.timestamp);
      TotalPut(d, k, Tally(TallyOf(d, k).total + 1, TallyOf(d, k).fallback + if p.source == "fallback" then 1 else 0));
      forall m
        ensures Has(AddPoint(d, p), m) <==> m == k || Has(d, m)
        ensures TallyOf(AddPoint(d, p), m).total == TallyOf(d, m).total + (if m == k then 1 else 0)
        ensures TallyOf(AddPoint(d, p), m).fallback ==
          TallyOf(d, m).fallback + (if m == k && p.source == "fallback" then 1 else 0)
      {
        AddPointTallies(d, p, m);
      }
    }
  }

  lemma FindHas<K, V>(d: Dict<K, V>, k: K)
    ensures Find(d, k).Some? <==> Has(d, k)
  {
  }

  function InsertRow(r: Row, rows: seq<Row>): seq<Row> {
    if rows == [] || r.minute < rows[0].minute then [r] + rows else [rows[0]] + InsertRow(r, rows[1..])
  }

  function SortedRows(d: Dict<int, Tally>): seq<Row> {
    if d == [] then []
    else
      var e := d[|d| - 1];
      InsertRow(Row(e.key, e.value.total, e.value.fallback), SortedRows(d[..|d| - 1]))
  }

  ghost predicate Chronological(rows: seq<Row>) {
    forall i, j :: 0 <= i < j < |rows| ==> rows[i].minute < rows[j].minute
  }

  function RowTotal(rows: seq<Row>): nat {
    if rows == [] then 0 else rows[0].total + RowTotal(rows[1..])
  }

  lemma {:induction false} InsertRowKeeps(r: Row, rows: seq<Row>)
    requires Chronological(rows) && forall i :: 0 <= i < |rows| ==> rows[i].minute != r.minute
    ensures Chronological(InsertRow(r, rows))
    ensures forall x :: x in InsertRow(r, rows) <==> x == r || x in rows
    ensures RowTotal(InsertRow(r, rows)) == RowTotal(rows) + r.total
  {
    if rows == [] || r.minute < rows[0].minute {
      assert ([r] + rows)[1..] == rows;
    } else {
      InsertRowKeeps(r, rows[1..]);
      var rest := InsertRow(r, rows[1..]);
      assert rows == [rows[0]] + rows[1..];
      assert InsertRow(r, rows)[1..] == rest;
      forall j | 0 <= j < |rest| ensures rows[0].minute < rest[j].minute {
        assert rest[j] in rest;
      }
    }
  }

  lemma {:induction false} SortedRowsKeep(d: Dict<int, Tally>)
    requires Distinct(d)
    ensures Chronological(SortedRows(d))
    ensures forall x :: x in SortedRows(d) <==>
      exists i :: 0 <= i < |d| && x == Row(d[i].key, d[i].value.total, d[i].value.fallback)
    ensures RowTotal(SortedRows(d)) == TotalOf(d)
  {
    if d != [] {
      var front, e := d[..|d| - 1], d[|d| - 1];
      SortedRowsKeep(front);
      var before := SortedRows(front);
      forall i | 0 <= i < |before| ensures before[i].minute != e.key {
        assert before[i] in before;
      }
      InsertRowKeeps(Row(e.key, e.value.total, e.value.fallback), before);
      assert d == front + [e];
    }
  }

  lemma FindAt<K, V>(d: Dict<K, V>, i: nat)
    requires Distinct(d) && i < |d|
    ensures Find(d, d[i].key) == Some(d[i].value) && Has(d, d[i].key)
  {
    assert IndexOf(d, d[i].key) == i;
  }

  /** Each row shows the tally of its minute, and every minute with a tally has a row. */
  lemma RowsOfBuckets(d: Dict<int, Tally>)
    requires Distinct(d)
    ensures forall r :: r in SortedRows(d) ==> Has(d, r.minute) && TallyOf(d, r.minute) == Tally(r.total, r.fallback)
    ensures forall m :: Has(d, m) ==> exists r :: r in SortedRows(d) && r.minute == m
  {
    hide Distinct, SortedRows, RowTotal, TotalOf, Chronological;
    var rows := SortedRows(d);
    SortedRowsKeep(d);
    forall r | r in rows ensures Has(d, r.minute) && TallyOf(d, r.minute) == Tally(r.total, r.fallback) {
      var i :| 0 <= i < |d| && r == Row(d[i].key, d[i].value.total, d[i].value.fallback);
      FindAt(d, i);
    }
    forall m | Has(d, m) ensures exists r :: r in rows && r.minute == m {
      var i := IndexOf(d, m);
      assert Row(d[i].key, d[i].value.total, d[i].value.fallback) in rows;
    }
  }

  /**
   The trend of a timeline: rows in time order, one for every minute that has points in the
   window, each with the counts of that minute, and together all points of the window.
   */
  method FallbackTrend(timeline: seq<Point>, now: int, minutes: int) returns (rows: seq<Row>)
    ensures Chronological(rows)
    ensures forall r :: r in rows ==>
      && r.total == CountWindow(timeline, now, minutes, Some(r.minute), false) > 0
      && r.fallback == CountWindow(timeline, now, minutes, Some(r.minute), true)
    ensures forall m :: CountWindow(timeline, now, minutes, Some(m), false) > 0 ==>
      exists r :: r in rows && r.minute == m
    ensures RowTotal(rows) == CountWindow(timeline, now, minutes, None, false)
  {
    hide CountWindow, InWindow, Minute, Put, Has, Find, AddPoint, TallyOf, TotalOf, SortedRows, Distinct, RowTotal,
      Chronological;
    var byBucket: Dict<int, Tally> := [];
    NoBuckets(now, minutes);
    for i := 0 to |timeline|
      invariant BucketsAgree(byBucket, timeline[..i], now, minutes)
    {
      assert timeline[..i + 1] == timeline[..i] + [timeline[i]];
      BucketsStep(byBucket, timeline[..i], timeline[i], now, minutes);
      if !InWindow(timeline[i], now, minutes) {
        continue;
      }
      byBucket := AddPoint(byBucket, timeline[i]);
    }
    assert timeline[..|timeline|] == timeline;
    rows := SortedRows(byBucket);
    SortedRowsKeep(byBucket);
    RowsOfBuckets(byBucket);
  }

  lemma NoBuckets(now: int, minutes: int)
    ensures BucketsAgree([], [], now, minutes)
  {
  }

  /** In every minute the fallback responses are among all responses. */
  lemma {:induction false} FallbackAmongAll(points: seq<Point>, now: int, minutes: int, minute: Option<int>)
    ensures CountWindow(points, now, minutes, minute, true) <= CountWindow(points, now, minutes, minute, false)
  {
    if points != [] { FallbackAmongAll(points[..|points| - 1], now, minutes, minute); }
  }

  // ----- experiment events -----

  /** `del events[:stop]` with Python's reading of a negative stop. */
  function DeleteUpTo<T>(events: seq<T>, stop: int): seq<T> {
    var n := if stop < 0 then Max(0, |events| + stop) else if stop > |events| then |events| else stop;
    events[n..]
  }

  function Recorded<T>(events: seq<T>, e: T, limit: int): seq<T> {
    var longer := events + [e];
    if |longer| > Max(100, limit) then DeleteUpTo(longer, 0 - limit) else longer
  }

  class EventLog<T> {
    const limit: int
    var events: seq<T>
    ghost var log: seq<T>

    ghost predicate Valid()
      reads this
    {
      events == Kept(log, limit)
    }

    constructor (limit: int)
      ensures Valid() && log == [] && this.limit == limit
    {
      this.limit := limit;
      events, log := [], [];
    }

    method Record(e: T)
      requires Valid()
      modifies this
      ensures Valid() && log == old(log) + [e]
    {
      log := log + [e];
      assert log[..|log| - 1] == old(log);
      events := events + [e];
      if |events| > Max(100, limit) {
        events := DeleteUpTo(events, 0 - limit);
      }
    }
  }

  /** The list after the whole log has been recorded. */
  function Kept<T>(log: seq<T>, limit: int): seq<T> {
    if log == [] then [] else Recorded(Kept(log[..|log| - 1], limit), log[|log| - 1], limit)
  }

  /** How many of `n` events are left when one more has been recorded. */
  function LeftOf(n: nat, limit: int): nat {
    if n <= Max(100, limit) then n
    else if limit >= 1 then limit
    else if n + limit >= 0 then n + limit else 0
  }

  lemma DeletedSuffix<T>(s: seq<T>, limit: int)
    requires |s| > Max(100, limit)
    ensures |DeleteUpTo(s, 0 - limit)| == LeftOf(|s|, limit) <= |s|
    ensures DeleteUpTo(s, 0 - limit) == s[|s| - LeftOf(|s|, limit)..]
  {
  }

  lemma RecordedIsSuffix<T>(events: seq<T>, e: T, limit: int)
    ensures LeftOf(|events| + 1, limit) <= |events| + 1
    ensures Recorded(events, e, limit) == (events + [e])[|events| + 1 - LeftOf(|events| + 1, limit)..]
  {
    hide DeleteUpTo;
    var longer := events + [e];
    if |longer| > Max(100, limit) { DeletedSuffix(longer, limit); }
  }

  function LastN<T>(s: seq<T>, n: nat): seq<T>
    requires n <= |s|
  {
    s[|s| - n..]
  }

  /** How many events are kept of a log of length `n`. */
  function KeptLength(n: nat, limit: int): (k: nat)
    ensures k <= n
    ensures limit >= 1 ==> k >= n || k >= limit
    ensures limit != 0 ==> k <= Max(100, limit)
    ensures limit == 0 ==> k == n
  {
    if n == 0 then 0 else LeftOf(KeptLength(n - 1, limit) + 1, limit)
  }

  lemma RecordLast<T>(front: seq<T>, last: T, n: nat, limit: int)
    requires n <= |front|
    ensures LeftOf(n + 1, limit) <= n + 1
    ensures Recorded(LastN(front, n), last, limit) == LastN(front + [last], LeftOf(n + 1, limit))
  {
    hide Recorded;
    RecordedIsSuffix(LastN(front, n), last, limit);
  }

  lemma {:induction false} KeptIsLast<T>(log: seq<T>, limit: int)
    ensures Kept(log, limit) == LastN(log, KeptLength(|log|, limit))
  {
    hide Recorded, LeftOf, LastN;
    if log == [] {
      LastOfNothing<T>();
    } else {
      var front, last := log[..|log| - 1], log[|log| - 1];
      KeptIsLast(front, limit);
      RecordLast(front, last, KeptLength(|front|, limit), limit);
      assert log == front + [last];
    }
  }

  lemma LastOfNothing<T>()
    ensures LastN<T>([], 0) == []
  {
  }

  /** The list is always a suffix of the log; for a positive limit it holds the latest `limit`
      events, and for any limit but zero it stays within the larger of 100 and the limit. */
  lemma KeptIsSuffix<T>(log: seq<T>, limit: int)
    ensures |Kept(log, limit)| <= |log| && Kept(log, limit) == log[|log| - |Kept(log, limit)|..]
    ensures limit >= 1 ==> |Kept(log, limit)| >= |log| || |Kept(log, limit)| >= limit
    ensures limit != 0 ==> |Kept(log, limit)| <= Max(100, limit)
    ensures limit == 0 ==> Kept(log, limit) == log
  {
    hide Kept, KeptLength;
    KeptIsLast(log, limit);
  }

  /** One more event: nothing is cut up to the larger of 100 and the limit; beyond it a positive limit
      cuts to the limit, a negative one cuts as many as it says, and zero cuts nothing. */
  lemma RecordedLength<T>(log: seq<T>, e: T, limit: int)
    ensures var n := |Kept(log, limit)| + 1;
            |Kept(log + [e], limit)| ==
              if n <= 100 || n <= limit then n
              else if limit > 0 then limit
              else Max(0, n + limit)
  {
    hide Recorded;
    assert (log + [e])[..|log|] == log;
    RecordedIsSuffix(Kept(log, limit), e, limit);
  }

  /** The list stays bounded exactly when the configured limit is not zero: a limit of zero deletes nothing. */
  lemma KeptBoundedIff<T(00)>(limit: int)
    ensures (forall log: seq<T> :: |Kept(log, limit)| <= Max(100, limit)) <==> limit != 0
  {
    forall log: seq<T> | limit != 0 ensures |Kept(log, limit)| <= Max(100, limit) { KeptIsSuffix(log, limit); }
    if limit == 0 {
      var x: T :| true;
      var log := seq(101, i => x);
      KeptIsSuffix(log, limit);
    }
  }

  lemma LatestKept<T>(log: seq<T>, limit: nat)
    requires limit >= 1
    ensures Latest(Kept(log, limit), limit) == Latest(log, limit)
  {
    KeptIsSuffix(log, limit);
  }
}

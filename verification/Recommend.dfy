/**
 Merging co-occurrence and popularity candidates into one ranked recommendation list. Scores
 are real numbers, rounded to four decimals, ties to the even digit.
 */
module Recommend {
  import opened Numbers
  import opened Text
  import opened OrderedDict

  datatype Candidate = Candidate(itemId: string, score: real)   // id stripped, "" when missing

  datatype Reason = HybridCfPopularity | PopularityFallback

  datatype Row = Row(itemId: string, score: real, reason: Reason)

  type ScoreMap = Dict<string, Row>

  // ----- arithmetic -----

  function RoundHalfEven(y: real): int {
    var f := y.Floor;
    var d := y - f as real;
    if d < 0.5 then f else if d > 0.5 then f + 1 else if f % 2 == 0 then f else f + 1
  }

  function Scaled(n: int): real { n as real / 10000.0 }

  function Round4(x: real): real { Scaled(RoundHalfEven(x * 10000.0)) }

  lemma RoundMonotone(x: real, y: real)
    requires x <= y
    ensures Round4(x) <= Round4(y)
  {
    var a, b := x * 10000.0, y * 10000.0;
    assert a.Floor <= b.Floor;
    assert RoundHalfEven(a) <= RoundHalfEven(b);
  }

  /** A number with at most four decimals. */
  ghost predicate FourDecimals(x: real) {
    exists n: int :: x == Scaled(n)
  }

  lemma RoundFixes(x: real)
    requires FourDecimals(x)
    ensures Round4(x) == x
  {
    var n: int :| x == Scaled(n);
    assert x * 10000.0 == n as real;
  }

  lemma RoundGivesFour(x: real)
    ensures FourDecimals(Round4(x))
  {
  }

  lemma CapRounded(x: real)
    ensures Round4(MinR(0.99, x)) <= 0.99
  {
    assert 0.99 == Scaled(9900);
    RoundFixes(0.99);
    RoundMonotone(MinR(0.99, x), 0.99);
  }

  function CoScore(score: real, idx: nat): real {
    Round4(MinR(0.99, 0.72 * score + MaxR(0.0, 0.28 - idx as real * 0.03)))
  }

  function PopWeight(score: real, idx: nat): real {
    0.40 * score + MaxR(0.0, 0.60 - idx as real * 0.04)
  }

  function PopScore(score: real, idx: nat): real { Round4(MinR(0.99, PopWeight(score, idx))) }

  function Boosted(score: real, weight: real): real { Round4(MinR(0.99, score + weight * 0.25)) }

  /** A boost never lowers a score already in the table exactly when rounding says so; a
      non-negative weight is enough. */
  lemma BoostRaises(score: real, weight: real)
    requires FourDecimals(score) && score <= 0.99 && weight >= 0.0
    ensures Boosted(score, weight) >= score
  {
    RoundFixes(score);
    RoundMonotone(score, MinR(0.99, score + weight * 0.25));
  }

  lemma MinMonotone(x: real, y: real)
    requires x <= y
    ensures MinR(0.99, x) <= MinR(0.99, y)
  {
  }

  /** In either list a candidate that stands earlier and scores no less never gets less. */
  lemma EarlierScoresHigher(s: real, i: nat, t: real, j: nat)
    requires i <= j && s >= t
    ensures CoScore(s, i) >= CoScore(t, j) && PopScore(s, i) >= PopScore(t, j)
  {
    hide Round4;
    assert i as real <= j as real;
    var a, b := 0.72 * t + MaxR(0.0, 0.28 - j as real * 0.03), 0.72 * s + MaxR(0.0, 0.28 - i as real * 0.03);
    assert a <= b;
    assert PopWeight(t, j) <= PopWeight(s, i);
    MinMonotone(a, b);
    MinMonotone(PopWeight(t, j), PopWeight(s, i));
    RoundMonotone(MinR(0.99, a), MinR(0.99, b));
    RoundMonotone(MinR(0.99, PopWeight(t, j)), MinR(0.99, PopWeight(s, i)));
  }

  // ----- the score table -----

  predicate Usable(id: string, inCart: set<string>) { id != "" && id !in inCart }

  function CoStep(m: ScoreMap, c: Candidate, idx: nat, inCart: set<string>): ScoreMap {
    if !Usable(c.itemId, inCart) then m
    else Put(m, c.itemId, Row(c.itemId, CoScore(c.score, idx), HybridCfPopularity))
  }

  function PopStep(m: ScoreMap, c: Candidate, idx: nat, inCart: set<string>): ScoreMap {
    if !Usable(c.itemId, inCart) then m
    else
      match Find(m, c.itemId)
      case Some(row) => Put(m, c.itemId, row.(score := Boosted(row.score, PopWeight(c.score, idx))))
      case None => Put(m, c.itemId, Row(c.itemId, PopScore(c.score, idx), PopularityFallback))
  }

  function CoTable(co: seq<Candidate>, inCart: set<string>): ScoreMap {
    if co == [] then []
    else CoStep(CoTable(co[..|co| - 1], inCart), co[|co| - 1], |co| - 1, inCart)
  }

  function Table(m: ScoreMap, pop: seq<Candidate>, inCart: set<string>): ScoreMap {
    if pop == [] then m
    else PopStep(Table(m, pop[..|pop| - 1], inCart), pop[|pop| - 1], |pop| - 1, inCart)
  }

  // ----- ranking -----

  function Rows(m: ScoreMap): (r: seq<Row>)
    ensures |r| == |m| && forall i :: 0 <= i < |m| ==> r[i] == m[i].value
  {
    seq(|m|, i requires 0 <= i < |m| => m[i].value)
  }

  function InsertRanked(r: Row, rows: seq<Row>): seq<Row> {
    if rows == [] || r.score >= rows[0].score then [r] + rows else [rows[0]] + InsertRanked(r, rows[1..])
  }

  /** `sorted(..., key=score, reverse=True)`: stable, best score first. */
  function Ranked(rows: seq<Row>): seq<Row> {
    if rows == [] then [] else InsertRanked(rows[0], Ranked(rows[1..]))
  }

  /** The first row after the head with another reason than the head's, or the length. */
  function OtherReason(rows: seq<Row>, reason: Reason, from: nat): (j: nat)
    requires from <= |rows|
    ensures from <= j <= |rows|
    ensures j < |rows| ==> rows[j].reason != reason
    ensures forall i :: from <= i < j ==> rows[i].reason == reason
    decreases |rows| - from
  {
    if from == |rows| || rows[from].reason != reason then from else OtherReason(rows, reason, from + 1)
  }

  /** Moves element `j` behind the head. */
  function Promote<T>(s: seq<T>, j: nat): seq<T>
    requires 1 <= j < |s|
  {
    [s[0], s[j]] + s[1..j] + s[j + 1..]
  }

  function Diversified(rows: seq<Row>): seq<Row> {
    if |rows| <= 3 then rows
    else
      var j := OtherReason(rows, rows[0].reason, 1);
      if j == |rows| then rows else Promote(rows, j)
  }

  function SafeLimit(limit: int): nat {
    if limit < 1 then 1 else if limit > 10 then 10 else limit
  }

  function Take(rows: seq<Row>, n: nat): seq<Row> { if |rows| <= n then rows else rows[..n] }

  function Merged(co: seq<Candidate>, pop: seq<Candidate>, inCart: set<string>, limit: int): seq<Row> {
    Take(Diversified(Ranked(Rows(Table(CoTable(co, inCart), pop, inCart)))), SafeLimit(limit))
  }

  method MergeRecommendationCandidates(co: seq<Candidate>, pop: seq<Candidate>, inCart: set<string>, limit: int)
    returns (result: seq<Row>)
    ensures result == Merged(co, pop, inCart, limit)
  {
    hide Put, Find, CoScore, PopScore, PopWeight, Boosted;
    var scoreMap: ScoreMap := [];
    for idx := 0 to |co|
      invariant scoreMap == CoTable(co[..idx], inCart)
    {
      assert co[..idx + 1][..idx] == co[..idx];
      var id := co[idx].itemId;
      if id == "" || id in inCart { continue; }
      scoreMap := Put(scoreMap, id, Row(id, CoScore(co[idx].score, idx), HybridCfPopularity));
    }
    assert co[..|co|] == co;
    for idx := 0 to |pop|
      invariant scoreMap == Table(CoTable(co, inCart), pop[..idx], inCart)
    {
      assert pop[..idx + 1][..idx] == pop[..idx];
      var id := pop[idx].itemId;
      if id == "" || id in inCart { continue; }
      var weighted := PopWeight(pop[idx].score, idx);
      var known := Find(scoreMap, id);
      if known.Some? {
        scoreMap := Put(scoreMap, id, known.value.(score := Boosted(known.value.score, weighted)));
        continue;
      }
      scoreMap := Put(scoreMap, id, Row(id, PopScore(pop[idx].score, idx), PopularityFallback));
    }
    assert pop[..|pop|] == pop;
    var ranked := Ranked(Rows(scoreMap));
    if |ranked| > 3 {
      var j := OtherReason(ranked, ranked[0].reason, 1);
      if j < |ranked| {
        ranked := Promote(ranked, j);
      }
    }
    result := Take(ranked, SafeLimit(limit));
  }

  // ----- what the table holds -----

  ghost predicate Offered(cs: seq<Candidate>, id: string) {
    exists i :: 0 <= i < |cs| && cs[i].itemId == id
  }

  ghost predicate GoodRow(k: string, row: Row) {
    row.itemId == k && row.score <= 0.99 && FourDecimals(row.score)
  }

  ghost predicate GoodTable(m: ScoreMap) {
    Distinct(m) && forall i :: 0 <= i < |m| ==> GoodRow(m[i].key, m[i].value)
  }

  lemma PutGoodRow(m: ScoreMap, k: string, row: Row)
    requires GoodTable(m) && GoodRow(k, row)
    ensures GoodTable(Put(m, k, row))
    ensures forall o :: Has(Put(m, k, row), o) <==> o == k || Has(m, o)
  {
    hide GoodRow;
    forall o ensures Has(Put(m, k, row), o) <==> o == k || Has(m, o) {
      if o != k { FindPut(m, k, row, o); }
    }
  }

  lemma FindGoodRow(m: ScoreMap, k: string)
    requires GoodTable(m)
    ensures Find(m, k).Some? <==> Has(m, k)
    ensures Find(m, k).Some? ==> GoodRow(k, Find(m, k).value)
  {
  }

  lemma CoRowGood(k: string, score: real, idx: nat)
    ensures GoodRow(k, Row(k, CoScore(score, idx), HybridCfPopularity))
  {
    var x := 0.72 * score + MaxR(0.0, 0.28 - idx as real * 0.03);
    CapRounded(x);
    RoundGivesFour(MinR(0.99, x));
  }

  lemma PopRowGood(k: string, score: real, idx: nat)
    ensures GoodRow(k, Row(k, PopScore(score, idx), PopularityFallback))
  {
    CapRounded(PopWeight(score, idx));
    RoundGivesFour(MinR(0.99, PopWeight(score, idx)));
  }

  lemma BoostedRowGood(k: string, row: Row, weight: real)
    requires row.itemId == k
    ensures GoodRow(k, row.(score := Boosted(row.score, weight)))
  {
    CapRounded(row.score + weight * 0.25);
    RoundGivesFour(MinR(0.99, row.score + weight * 0.25));
  }

  lemma OfferedStep(cs: seq<Candidate>, id: string)
    requires cs != []
    ensures Offered(cs, id) <==> cs[|cs| - 1].itemId == id || Offered(cs[..|cs| - 1], id)
  {
    var front := cs[..|cs| - 1];
    assert forall i :: 0 <= i < |front| ==> front[i] == cs[i];
    if i :| 0 <= i < |cs| && cs[i].itemId == id { assert i < |front| ==> front[i].itemId == id; }
  }

  lemma {:induction false} CoTableHolds(co: seq<Candidate>, inCart: set<string>)
    ensures GoodTable(CoTable(co, inCart))
    ensures forall id :: Has(CoTable(co, inCart), id) <==> id != "" && id !in inCart && Offered(co, id)
  {
    hide GoodTable, GoodRow, Has, Put, CoScore, Offered;
    if co == [] {
      EmptyTable();
    } else {
      var front, last := co[..|co| - 1], co[|co| - 1];
      CoTableHolds(front, inCart);
      CoRowGood(last.itemId, last.score, |co| - 1);
      PutGoodRow(CoTable(front, inCart), last.itemId,
        Row(last.itemId, CoScore(last.score, |co| - 1), HybridCfPopularity));
      forall id ensures Offered(co, id) <==> last.itemId == id || Offered(front, id) { OfferedStep(co, id); }
    }
  }

  lemma EmptyTable()
    ensures GoodTable([])
    ensures forall id :: !Has<string, Row>([], id) && !Offered([], id)
  {
  }

  lemma {:induction false} TableHolds(m: ScoreMap, pop: seq<Candidate>, inCart: set<string>)
    requires GoodTable(m)
    ensures GoodTable(Table(m, pop, inCart))
    ensures forall id :: Has(Table(m, pop, inCart), id) <==>
      Has(m, id) || (id != "" && id !in inCart && Offered(pop, id))
  {
    hide GoodTable, GoodRow, Has, Put, Find, PopScore, PopWeight, Boosted, Offered;
    if pop == [] {
      EmptyTable();
    } else {
      var front, last := pop[..|pop| - 1], pop[|pop| - 1];
      TableHolds(m, front, inCart);
      var before := Table(m, front, inCart);
      FindGoodRow(before, last.itemId);
      match Find(before, last.itemId) {
        case Some(row) =>
          RowKey(last.itemId, row);
          BoostedRowGood(last.itemId, row, PopWeight(last.score, |pop| - 1));
          PutGoodRow(before, last.itemId, row.(score := Boosted(row.score, PopWeight(last.score, |pop| - 1))));
        case None =>
          PopRowGood(last.itemId, last.score, |pop| - 1);
          PutGoodRow(before, last.itemId, Row(last.itemId, PopScore(last.score, |pop| - 1), PopularityFallback));
      }
      forall id ensures Offered(pop, id) <==> last.itemId == id || Offered(front, id) { OfferedStep(pop, id); }
    }
  }

  lemma RowKey(k: string, row: Row)
    requires GoodRow(k, row)
    ensures row.itemId == k && row.score <= 0.99 && FourDecimals(row.score)
  {
  }

  // ----- ranking properties -----

  ghost predicate BestFirst(rows: seq<Row>) {
    forall i, j :: 0 <= i < j < |rows| ==> rows[i].score >= rows[j].score
  }

  lemma {:induction false} InsertRankedPermutes(r: Row, rows: seq<Row>)
    ensures multiset(InsertRanked(r, rows)) == multiset{r} + multiset(rows)
  {
    if !(rows == [] || r.score >= rows[0].score) {
      InsertRankedPermutes(r, rows[1..]);
      assert rows == [rows[0]] + rows[1..];
    }
  }

  lemma {:induction false} InsertRankedMembers(r: Row, rows: seq<Row>)
    ensures forall x :: x in InsertRanked(r, rows) ==> x == r || x in rows
  {
    InsertRankedPermutes(r, rows);
    assert forall x :: x in InsertRanked(r, rows) ==> x in multiset(InsertRanked(r, rows));
  }

  lemma PrependBest(r: Row, rows: seq<Row>)
    requires BestFirst(rows) && forall x :: x in rows ==> r.score >= x.score
    ensures BestFirst([r] + rows)
  {
    assert forall j :: 0 <= j < |rows| ==> rows[j] in rows;
  }

  lemma HeadIsBest(rows: seq<Row>)
    requires BestFirst(rows) && rows != []
    ensures BestFirst(rows[1..])
    ensures forall x :: x in rows ==> rows[0].score >= x.score
  {
  }

  lemma {:induction false} InsertRankedKeeps(r: Row, rows: seq<Row>)
    requires BestFirst(rows)
    ensures BestFirst(InsertRanked(r, rows))
    ensures multiset(InsertRanked(r, rows)) == multiset{r} + multiset(rows)
  {
    hide BestFirst;
    InsertRankedPermutes(r, rows);
    if rows == [] {
      SingleBest(r);
    } else {
      HeadIsBest(rows);
      if r.score >= rows[0].score {
        PrependBest(r, rows);
      } else {
        InsertRankedKeeps(r, rows[1..]);
        InsertRankedMembers(r, rows[1..]);
        PrependBest(rows[0], InsertRanked(r, rows[1..]));
      }
    }
  }

  lemma SingleBest(r: Row)
    ensures InsertRanked(r, []) == [r] && BestFirst([r]) && BestFirst([])
  {
    assert [r] + [] == [r];
  }

  lemma {:induction false} RankedKeeps(rows: seq<Row>)
    ensures BestFirst(Ranked(rows)) && multiset(Ranked(rows)) == multiset(rows)
  {
    if rows != [] {
      RankedKeeps(rows[1..]);
      InsertRankedKeeps(rows[0], Ranked(rows[1..]));
      assert rows == [rows[0]] + rows[1..];
    }
  }

  /** The rows of one score. */
  function WithScore(rows: seq<Row>, score: real): seq<Row> {
    if rows == [] then []
    else (if rows[0].score == score then [rows[0]] else []) + WithScore(rows[1..], score)
  }

  lemma WithScoreCons(r: Row, rows: seq<Row>, score: real)
    ensures WithScore([r] + rows, score) ==
      if r.score == score then [r] + WithScore(rows, score) else WithScore(rows, score)
  {
    assert ([r] + rows)[1..] == rows;
    assert [] + WithScore(rows, score) == WithScore(rows, score);
  }

  lemma {:induction false} InsertRankedStable(r: Row, rows: seq<Row>, score: real)
    ensures WithScore(InsertRanked(r, rows), score) == WithScore([r] + rows, score)
  {
    hide WithScore;
    if rows != [] && r.score < rows[0].score {
      var first, rest := rows[0], rows[1..];
      InsertRankedStable(r, rest, score);
      WithScoreCons(first, InsertRanked(r, rest), score);
      WithScoreCons(first, rest, score);
      WithScoreCons(r, rest, score);
      WithScoreCons(r, rows, score);
      assert rows == [first] + rest;
    }
  }

  /** Rows of equal score keep the order of the table: co-occurrence first, then popularity. */
  lemma {:induction false} RankedStable(rows: seq<Row>, score: real)
    ensures WithScore(Ranked(rows), score) == WithScore(rows, score)
  {
    hide WithScore, InsertRanked;
    if rows != [] {
      var first, rest := rows[0], rows[1..];
      RankedStable(rest, score);
      InsertRankedStable(first, Ranked(rest), score);
      WithScoreCons(first, Ranked(rest), score);
      WithScoreCons(first, rest, score);
      assert rows == [first] + rest;
    }
  }

  /**
   Diversifying keeps the head and every row, puts a row of another reason second whenever there
   are more than three rows and one exists, and leaves the order by score intact elsewhere.
   */
  lemma DiversifiedKeeps(rows: seq<Row>)
    requires BestFirst(rows)
    ensures multiset(Diversified(rows)) == multiset(rows) && |Diversified(rows)| == |rows|
    ensures rows != [] ==> Diversified(rows)[0] == rows[0]
    ensures |rows| > 3 && (exists i :: 0 <= i < |rows| && rows[i].reason != rows[0].reason) ==>
      Diversified(rows)[1].reason != rows[0].reason
    ensures forall p, q :: 0 <= p < q < |rows| && p != 1 ==> Diversified(rows)[p].score >= Diversified(rows)[q].score
  {
    hide BestFirst, Diversified;
    if |rows| > 3 {
      var j := OtherReason(rows, rows[0].reason, 1);
      DiversifiedAt(rows);
      DiversifiedPermutes(rows);
      if j < |rows| {
        forall p, q | 0 <= p < q < |rows| && p != 1
          ensures Diversified(rows)[p].score >= Diversified(rows)[q].score
        {
          Before(rows, j, p, q);
        }
      } else {
        BestFirstAt(rows);
      }
    } else {
      DiversifiedAt(rows);
      BestFirstAt(rows);
    }
  }

  lemma BestFirstAt(rows: seq<Row>)
    requires BestFirst(rows)
    ensures forall i, j :: 0 <= i < j < |rows| ==> rows[i].score >= rows[j].score
  {
  }

  /** The row that diversifying around position `j` puts at position `p`. */
  function Origin(j: nat, p: nat): nat {
    if p == 0 then 0 else if p == 1 then j else if p <= j then p - 1 else p
  }

  lemma Before(rows: seq<Row>, j: nat, p: nat, q: nat)
    requires BestFirst(rows) && 1 <= j < |rows| && p < q < |rows| && p != 1
    ensures rows[Origin(j, p)].score >= rows[Origin(j, q)].score
  {
    assert Origin(j, p) < Origin(j, q);
  }

  lemma PromoteAt<T>(s: seq<T>, j: nat)
    requires 1 <= j < |s|
    ensures |Promote(s, j)| == |s|
    ensures forall p :: 0 <= p < |s| ==> Promote(s, j)[p] == s[Origin(j, p)]
  {
  }

  lemma PromotePermutes<T>(s: seq<T>, j: nat)
    requires 1 <= j < |s|
    ensures multiset(Promote(s, j)) == multiset(s)
  {
    var a, b, c, d := [s[0]], s[1..j], [s[j]], s[j + 1..];
    assert s == a + b + c + d;
    assert Promote(s, j) == a + c + b + d;
  }

  lemma DiversifiedAt(rows: seq<Row>)
    ensures |Diversified(rows)| == |rows|
    ensures |rows| > 3 && OtherReason(rows, rows[0].reason, 1) < |rows| ==>
      forall p :: 0 <= p < |rows| ==>
        Diversified(rows)[p] == rows[Origin(OtherReason(rows, rows[0].reason, 1), p)]
    ensures |rows| <= 3 || OtherReason(rows, rows[0].reason, 1) == |rows| ==> Diversified(rows) == rows
  {
    hide Promote, Origin, OtherReason;
    if |rows| > 3 && OtherReason(rows, rows[0].reason, 1) < |rows| {
      PromoteAt(rows, OtherReason(rows, rows[0].reason, 1));
    }
  }

  lemma DiversifiedPermutes(rows: seq<Row>)
    ensures multiset(Diversified(rows)) == multiset(rows)
  {
    hide Promote, OtherReason;
    if |rows| > 3 && OtherReason(rows, rows[0].reason, 1) < |rows| {
      PromotePermutes(rows, OtherReason(rows, rows[0].reason, 1));
    }
  }

  /** Of the rows with another reason the best one is promoted; up to three rows, and rows of one
      reason, stay as they are. */
  lemma PromotedIsBest(rows: seq<Row>)
    requires BestFirst(rows)
    ensures |rows| > 3 ==> forall i :: 0 <= i < |rows| && rows[i].reason != rows[0].reason ==>
      Diversified(rows)[1].reason != rows[0].reason && Diversified(rows)[1].score >= rows[i].score
    ensures |rows| <= 3 || (forall i :: 0 <= i < |rows| ==> rows[i].reason == rows[0].reason) ==>
      Diversified(rows) == rows
  {
    hide Promote, Origin, BestFirst;
    if |rows| > 3 {
      var j := OtherReason(rows, rows[0].reason, 1);
      if j < |rows| {
        PromotedSecond(rows, j);
        forall i | 0 <= i < |rows| && rows[i].reason != rows[0].reason ensures rows[j].score >= rows[i].score {
          assert j <= i;
          BestFirstPair(rows, j, i);
        }
      }
    }
  }

  lemma BestFirstPair(rows: seq<Row>, i: nat, j: nat)
    requires BestFirst(rows) && i <= j < |rows|
    ensures rows[i].score >= rows[j].score
  {
  }

  lemma PromotedSecond(rows: seq<Row>, j: nat)
    requires 1 <= j < |rows|
    ensures Promote(rows, j)[1] == rows[j]
  {
  }

  // ----- one item at a time -----

  /** The co-occurrence score of one item: that of its last mention. */
  function CoScoreFor(co: seq<Candidate>, id: string): Option<real> {
    if co == [] then None
    else
      var idx := |co| - 1;
      if co[idx].itemId != id then CoScoreFor(co[..idx], id)
      else Some(Round4(MinR(0.99, 0.72 * co[idx].score + MaxR(0.0, 0.28 - idx as real * 0.03))))
  }

  /** Its score once the popular items are counted: every mention adds a quarter of its weight to a
      score there is, and is the score if there is none. */
  function ScoreFor(start: Option<real>, pop: seq<Candidate>, id: string): (r: Option<real>)
    ensures start.Some? ==> r.Some?
  {
    if pop == [] then start
    else
      var idx := |pop| - 1;
      var before := ScoreFor(start, pop[..idx], id);
      if pop[idx].itemId != id then before
      else
        var weight := 0.40 * pop[idx].score + MaxR(0.0, 0.60 - idx as real * 0.04);
        match before
        case None => Some(Round4(MinR(0.99, weight)))
        case Some(score) => Some(Round4(MinR(0.99, score + weight * 0.25)))
  }

  lemma {:induction false} CoRow(co: seq<Candidate>, inCart: set<string>, id: string)
    requires id != "" && id !in inCart
    ensures Find(CoTable(co, inCart), id) ==
      match CoScoreFor(co, id) case None => None case Some(score) => Some(Row(id, score, HybridCfPopularity))
  {
    hide Put, Find, Round4;
    if co == [] {
      NoRow(id);
    } else {
      var front, last := co[..|co| - 1], co[|co| - 1];
      CoRow(front, inCart, id);
      if last.itemId != id && Usable(last.itemId, inCart) {
        FindPut(CoTable(front, inCart), last.itemId,
          Row(last.itemId, CoScore(last.score, |co| - 1), HybridCfPopularity), id);
      }
    }
  }

  lemma NoRow(id: string)
    ensures Find<string, Row>([], id) == None
  {
  }

  /** The row of an item in the table depends on its own mentions and their places alone. */
  lemma {:induction false} ItemRow(co: seq<Candidate>, pop: seq<Candidate>, inCart: set<string>, id: string)
    requires id != "" && id !in inCart
    ensures Find(Table(CoTable(co, inCart), pop, inCart), id) ==
      match ScoreFor(CoScoreFor(co, id), pop, id)
      case None => None
      case Some(score) =>
        Some(Row(id, score, if CoScoreFor(co, id).Some? then HybridCfPopularity else PopularityFallback))
  {
    hide Put, Find, Round4, CoTable, CoScoreFor, PopStep;
    if pop == [] {
      CoRow(co, inCart, id);
    } else {
      var idx := |pop| - 1;
      ItemRow(co, pop[..idx], inCart, id);
      PopStepRow(Table(CoTable(co, inCart), pop[..idx], inCart), pop[idx], idx, inCart, id);
    }
  }

  lemma PopStepRow(m: ScoreMap, c: Candidate, idx: nat, inCart: set<string>, id: string)
    requires id != "" && id !in inCart
    ensures Find(PopStep(m, c, idx, inCart), id) ==
      if c.itemId != id then Find(m, id)
      else
        match Find(m, id)
        case None => Some(Row(id, PopScore(c.score, idx), PopularityFallback))
        case Some(row) => Some(row.(score := Boosted(row.score, PopWeight(c.score, idx))))
  {
    hide Put, Find, PopScore, PopWeight, Boosted;
    if c.itemId != id && Usable(c.itemId, inCart) {
      match Find(m, c.itemId)
      case Some(row) => FindPut(m, c.itemId, row.(score := Boosted(row.score, PopWeight(c.score, idx))), id);
      case None => FindPut(m, c.itemId, Row(c.itemId, PopScore(c.score, idx), PopularityFallback), id);
    }
  }

  /** Rounding to four decimals moves a score by at most half a unit, and a tie goes to the even digit. */
  lemma RoundedNear(x: real)
    ensures FourDecimals(Round4(x)) && -0.00005 <= Round4(x) - x <= 0.00005
    ensures forall n: int :: x == Scaled(n) + 0.00005 ==> Round4(x) == Scaled(if n % 2 == 0 then n else n + 1)
  {
    RoundGivesFour(x);
    var y := x * 10000.0;
    assert y - 0.5 <= RoundHalfEven(y) as real <= y + 0.5;
    forall n: int | x == Scaled(n) + 0.00005 ensures Round4(x) == Scaled(if n % 2 == 0 then n else n + 1) {
      assert y == n as real + 0.5;
      assert y.Floor == n;
    }
  }

  // ----- the result -----

  ghost function IdsOf(rows: seq<Row>): set<string> { set i | 0 <= i < |rows| :: rows[i].itemId }

  /** The items a caller can be offered. */
  ghost predicate Eligible(co: seq<Candidate>, pop: seq<Candidate>, inCart: set<string>, id: string) {
    id != "" && id !in inCart && (Offered(co, id) || Offered(pop, id))
  }

  ghost function EligibleIds(co: seq<Candidate>, pop: seq<Candidate>, inCart: set<string>): set<string> {
    (set i | 0 <= i < |co| && co[i].itemId != "" && co[i].itemId !in inCart :: co[i].itemId) +
    (set i | 0 <= i < |pop| && pop[i].itemId != "" && pop[i].itemId !in inCart :: pop[i].itemId)
  }

  lemma EligibleIff(co: seq<Candidate>, pop: seq<Candidate>, inCart: set<string>, id: string)
    ensures id in EligibleIds(co, pop, inCart) <==> Eligible(co, pop, inCart, id)
  {
  }

  ghost predicate DistinctRows(rows: seq<Row>) {
    forall i, j :: 0 <= i < j < |rows| ==> rows[i].itemId != rows[j].itemId
  }

  lemma IdsGrow(rows: seq<Row>)
    requires rows != []
    ensures var front, last := rows[..|rows| - 1], rows[|rows| - 1].itemId;
            && IdsOf(rows) == IdsOf(front) + {last}
            && (DistinctRows(rows) <==> DistinctRows(front) && last !in IdsOf(front))
  {
    var front, last := rows[..|rows| - 1], rows[|rows| - 1].itemId;
    assert forall i :: 0 <= i < |front| ==> front[i] == rows[i];
    forall id ensures id in IdsOf(rows) <==> id in IdsOf(front) + {last} {
      if id in IdsOf(front) {
        var i :| 0 <= i < |front| && front[i].itemId == id;
        assert rows[i].itemId == id;
      }
    }
  }

  lemma {:induction false} DistinctRowsCount(rows: seq<Row>)
    ensures DistinctRows(rows) <==> |IdsOf(rows)| == |rows|
    ensures |IdsOf(rows)| <= |rows|
  {
    hide DistinctRows, IdsOf;
    if rows == [] {
      NoIds();
    } else {
      var front, last := rows[..|rows| - 1], rows[|rows| - 1].itemId;
      DistinctRowsCount(front);
      IdsGrow(rows);
      if last in IdsOf(front) { assert IdsOf(front) + {last} == IdsOf(front); }
    }
  }

  lemma NoIds()
    ensures IdsOf([]) == {} && DistinctRows([])
  {
  }

  lemma SameRowsSameIds(a: seq<Row>, b: seq<Row>)
    requires multiset(a) == multiset(b)
    ensures IdsOf(a) == IdsOf(b) && |a| == |b|
    ensures DistinctRows(a) <==> DistinctRows(b)
    ensures forall r :: r in a <==> r in b
  {
    assert forall r :: r in a <==> r in multiset(a);
    assert forall r :: r in b <==> r in multiset(b);
    assert |multiset(a)| == |multiset(b)|;
    forall id | id in IdsOf(a) ensures id in IdsOf(b) {
      var i :| 0 <= i < |a| && a[i].itemId == id;
      assert a[i] in b;
    }
    forall id | id in IdsOf(b) ensures id in IdsOf(a) {
      var i :| 0 <= i < |b| && b[i].itemId == id;
      assert b[i] in a;
    }
    DistinctRowsCount(a);
    DistinctRowsCount(b);
  }

  /** All rows before the cut. */
  function Candidates(co: seq<Candidate>, pop: seq<Candidate>, inCart: set<string>): seq<Row> {
    Diversified(Ranked(Rows(Table(CoTable(co, inCart), pop, inCart))))
  }

  lemma TableRows(co: seq<Candidate>, pop: seq<Candidate>, inCart: set<string>)
    ensures var rows := Rows(Table(CoTable(co, inCart), pop, inCart));
            && DistinctRows(rows) && IdsOf(rows) == EligibleIds(co, pop, inCart)
            && forall i :: 0 <= i < |rows| ==> rows[i].score <= 0.99
  {
    var m := Table(CoTable(co, inCart), pop, inCart);
    CoTableHolds(co, inCart);
    TableHolds(CoTable(co, inCart), pop, inCart);
    GoodTableRows(m);
    forall id ensures id in IdsOf(Rows(m)) <==> id in EligibleIds(co, pop, inCart) {
      assert id in IdsOf(Rows(m)) <==> Has(m, id);
    }
  }

  lemma GoodTableRows(m: ScoreMap)
    requires GoodTable(m)
    ensures DistinctRows(Rows(m))
    ensures forall i :: 0 <= i < |m| ==> Rows(m)[i].score <= 0.99
    ensures forall id :: id in IdsOf(Rows(m)) <==> Has(m, id)
  {
    forall i | 0 <= i < |m| ensures Rows(m)[i].itemId == m[i].key && Rows(m)[i].score <= 0.99 {
      assert GoodRow(m[i].key, m[i].value);
    }
    forall id ensures id in IdsOf(Rows(m)) <==> Has(m, id) {
      HasIff(m, id);
    }
  }

  lemma CandidatesHold(co: seq<Candidate>, pop: seq<Candidate>, inCart: set<string>)
    ensures var all := Candidates(co, pop, inCart);
            && DistinctRows(all) && IdsOf(all) == EligibleIds(co, pop, inCart)
            && forall i :: 0 <= i < |all| ==> all[i].score <= 0.99
  {
    var rows := Rows(Table(CoTable(co, inCart), pop, inCart));
    TableRows(co, pop, inCart);
    RankedKeeps(rows);
    DiversifiedKeeps(Ranked(rows));
    var all := Candidates(co, pop, inCart);
    SameRowsSameIds(all, rows);
    forall i | 0 <= i < |all| ensures all[i].score <= 0.99 {
      assert all[i] in rows;
    }
  }

  /**
   The result: as many rows as the clamped limit and the number of eligible items allow, with
   distinct eligible items and scores of at most 0.99; and no eligible item that was cut off
   scores higher than any returned row but the promoted second one.
   */
  lemma MergedResult(co: seq<Candidate>, pop: seq<Candidate>, inCart: set<string>, limit: int)
    ensures var r, eligible := Merged(co, pop, inCart, limit), EligibleIds(co, pop, inCart);
            && |r| <= |eligible| && |r| <= (if limit < 1 then 1 else if limit > 10 then 10 else limit)
            && (|r| == |eligible| || |r| == (if limit < 1 then 1 else if limit > 10 then 10 else limit))
            && DistinctRows(r)
            && (forall i :: 0 <= i < |r| ==> Eligible(co, pop, inCart, r[i].itemId) && r[i].score <= 0.99)
    ensures var r, all := Merged(co, pop, inCart, limit), Candidates(co, pop, inCart);
            && |r| <= |all| && r == all[..|r|]
            && forall i, q :: 0 <= i < |r| && i != 1 && |r| <= q < |all| ==> r[i].score >= all[q].score
  {
    hide Table, CoTable, Diversified, Ranked, Rows, EligibleIds, Eligible;
    var all := Candidates(co, pop, inCart);
    CandidatesHold(co, pop, inCart);
    DistinctRowsCount(all);
    forall i | 0 <= i < |all| ensures Eligible(co, pop, inCart, all[i].itemId) {
      assert all[i].itemId in IdsOf(all);
      EligibleIff(co, pop, inCart, all[i].itemId);
    }
    var rows := Rows(Table(CoTable(co, inCart), pop, inCart));
    RankedKeeps(rows);
    DiversifiedKeeps(Ranked(rows));
  }

  /** Every returned row is the one of its item. */
  lemma MergedRow(co: seq<Candidate>, pop: seq<Candidate>, inCart: set<string>, limit: int, i: nat)
    requires i < |Merged(co, pop, inCart, limit)|
    ensures var r := Merged(co, pop, inCart, limit)[i];
            && ScoreFor(CoScoreFor(co, r.itemId), pop, r.itemId) == Some(r.score)
            && (r.reason == HybridCfPopularity <==> CoScoreFor(co, r.itemId).Some?)
  {
    hide Table, CoTable, Diversified, Ranked, ScoreFor, CoScoreFor;
    var m := Table(CoTable(co, inCart), pop, inCart);
    var all, r := Candidates(co, pop, inCart), Merged(co, pop, inCart, limit)[i];
    CoTableHolds(co, inCart);
    TableHolds(CoTable(co, inCart), pop, inCart);
    RankedKeeps(Rows(m));
    DiversifiedKeeps(Ranked(Rows(m)));
    SameRowsSameIds(all, Rows(m));
    assert all[i] == r && r in Rows(m);
    var j :| 0 <= j < |m| && Rows(m)[j] == r;
    FindRow(m, j);
    assert Has(m, r.itemId);
    ItemRow(co, pop, inCart, r.itemId);
  }

  lemma FindRow(m: ScoreMap, j: nat)
    requires GoodTable(m) && j < |m|
    ensures m[j].key == m[j].value.itemId && Find(m, m[j].key) == Some(m[j].value) && Has(m, m[j].key)
  {
    assert GoodRow(m[j].key, m[j].value);
    assert IndexOf(m, m[j].key) == j;
  }

  /** With more than three candidates of two reasons, the first two rows differ in reason as soon
      as the limit leaves room for two. */
  lemma MergedDiverse(co: seq<Candidate>, pop: seq<Candidate>, inCart: set<string>, limit: int)
    requires |Candidates(co, pop, inCart)| > 3 && limit >= 2
    requires exists r, s :: r in Candidates(co, pop, inCart) && s in Candidates(co, pop, inCart) && r.reason != s.reason
    ensures var r := Merged(co, pop, inCart, limit); |r| >= 2 && r[0].reason != r[1].reason
  {
    hide Table, CoTable, Rows, Diversified, Ranked;
    var rows := Rows(Table(CoTable(co, inCart), pop, inCart));
    var ranked := Ranked(rows);
    RankedKeeps(rows);
    DiversifiedKeeps(ranked);
    SameRowsSameIds(Candidates(co, pop, inCart), ranked);
    var r, s :| r in Candidates(co, pop, inCart) && s in Candidates(co, pop, inCart) && r.reason != s.reason;
    assert r in ranked && s in ranked;
  }

  /** With non-negative weights, popularity only adds to the scores already in the table. */
  lemma {:induction false} PopularityOnlyAdds(m: ScoreMap, pop: seq<Candidate>, inCart: set<string>, id: string)
    requires GoodTable(m) && Has(m, id)
    requires forall i :: 0 <= i < |pop| ==> PopWeight(pop[i].score, i) >= 0.0
    ensures Has(Table(m, pop, inCart), id)
    ensures Find(Table(m, pop, inCart), id).value.score >= Find(m, id).value.score
  {
    hide GoodTable, GoodRow, Has, Put, PopScore, PopWeight, Boosted, Find;
    FindGoodRow(m, id);
    if pop != [] {
      var front, last := pop[..|pop| - 1], pop[|pop| - 1];
      var before := Table(m, front, inCart);
      PopularityOnlyAdds(m, front, inCart, id);
      TableHolds(m, front, inCart);
      TableHolds(m, pop, inCart);
      FindGoodRow(before, id);
      FindGoodRow(before, last.itemId);
      FindGoodRow(Table(m, pop, inCart), id);
      if Usable(last.itemId, inCart) && last.itemId != id {
        match Find(before, last.itemId)
        case Some(row) =>
          FindPut(before, last.itemId, row.(score := Boosted(row.score, PopWeight(last.score, |pop| - 1))), id);
        case None =>
          FindPut(before, last.itemId, Row(last.itemId, PopScore(last.score, |pop| - 1), PopularityFallback), id);
      } else if Usable(last.itemId, inCart) {
        var row := Find(before, id).value;
        RowKey(id, row);
        BoostRaises(row.score, PopWeight(last.score, |pop| - 1));
      }
    }
  }

  lemma WeightNonNegative(score: real, idx: nat)
    requires score >= 0.0
    ensures PopWeight(score, idx) >= 0.0
  {
  }

  /**
   An item of both lists is never ranked below its co-occurrence score, for non-negative
   popularity scores.
   */
  lemma CandidateKeepsCoScore(co: seq<Candidate>, pop: seq<Candidate>, inCart: set<string>, row: Row)
    requires row in Candidates(co, pop, inCart) && Offered(co, row.itemId)
    requires forall i :: 0 <= i < |pop| ==> pop[i].score >= 0.0
    ensures Has(CoTable(co, inCart), row.itemId)
    ensures row.score >= Find(CoTable(co, inCart), row.itemId).value.score
  {
    hide Diversified, Ranked, CoTable, Table, Offered, PopWeight;
    var m := CoTable(co, inCart);
    var full := Table(m, pop, inCart);
    var rows := Rows(full);
    CoTableHolds(co, inCart);
    TableHolds(m, pop, inCart);
    RankedKeeps(rows);
    DiversifiedKeeps(Ranked(rows));
    SameRowsSameIds(Candidates(co, pop, inCart), rows);
    var i :| 0 <= i < |rows| && rows[i] == row;
    assert GoodRow(full[i].key, full[i].value);
    assert IndexOf(full, row.itemId) == i;
    assert Usable(row.itemId, inCart) by { TableRowUsable(co, pop, inCart, row.itemId); }
    forall j | 0 <= j < |pop| ensures PopWeight(pop[j].score, j) >= 0.0 { WeightNonNegative(pop[j].score, j); }
    PopularityOnlyAdds(m, pop, inCart, row.itemId);
  }

  lemma TableRowUsable(co: seq<Candidate>, pop: seq<Candidate>, inCart: set<string>, id: string)
    requires Has(Table(CoTable(co, inCart), pop, inCart), id)
    ensures Usable(id, inCart)
  {
    CoTableHolds(co, inCart);
    TableHolds(CoTable(co, inCart), pop, inCart);
  }
}

/**
 * The event table (store.py): rows with a rising row id, one row per
 * (unit, kind, source id), and inserts that ignore a key already present.
 */
module EventStore {
  import opened Prelude

  datatype Event = Event(
    unit: string,
    kind: string,
    sourceId: int,
    address: Option<string>,
    body: Option<string>,
    ts: Option<int>,
    direction: Option<string>,
    duration: Option<int>)

  datatype Key = Key(unit: string, kind: string, sourceId: int)

  datatype Row = Row(id: int, event: Event, receivedAt: int)

  const KIND_SMS := "sms"
  const MAX_QUERY_LIMIT := 1000

  function KeyOf(e: Event): Key {
    Key(e.unit, e.kind, e.sourceId)
  }

  predicate HasKey(rows: seq<Row>, k: Key) {
    exists r :: r in rows && KeyOf(r.event) == k
  }

  /** SQLite's choice for an INTEGER PRIMARY KEY: one above the largest present. */
  function NextRowId(rows: seq<Row>): int {
    LatestId(rows) + 1
  }

  function LatestId(rows: seq<Row>): int {
    if rows == [] then 0 else rows[|rows| - 1].id
  }

  ghost predicate Ascending(rows: seq<Row>) {
    && (forall i, j :: 0 <= i < j < |rows| ==> rows[i].id < rows[j].id)
    && (forall r :: r in rows ==> r.id >= 1)
  }

  ghost predicate KeysUnique(rows: seq<Row>) {
    forall i, j :: 0 <= i < j < |rows| ==> KeyOf(rows[i].event) != KeyOf(rows[j].event)
  }

  ghost predicate ValidTable(rows: seq<Row>) {
    Ascending(rows) && KeysUnique(rows)
  }

  // ------------------------------------------------------------------ inserts

  function AfterInsert(rows: seq<Row>, e: Event, at: int): seq<Row> {
    if HasKey(rows, KeyOf(e)) then rows else rows + [Row(NextRowId(rows), e, at)]
  }

  function AfterInserts(rows: seq<Row>, events: seq<Event>, at: int): seq<Row> {
    if events == [] then rows
    else AfterInsert(AfterInserts(rows, events[..|events| - 1], at), events[|events| - 1], at)
  }

  /** The events of a batch whose insert was not ignored, in batch order. */
  function NewOnes(rows: seq<Row>, events: seq<Event>, at: int): seq<Event> {
    if events == [] then []
    else
      var init, last := events[..|events| - 1], events[|events| - 1];
      NewOnes(rows, init, at)
      + (if HasKey(AfterInserts(rows, init, at), KeyOf(last)) then [] else [last])
  }

  lemma InsertKeepsTable(rows: seq<Row>, e: Event, at: int)
    requires ValidTable(rows)
    ensures ValidTable(AfterInsert(rows, e, at))
    ensures rows <= AfterInsert(rows, e, at)
    ensures HasKey(AfterInsert(rows, e, at), KeyOf(e))
  {
    var after := AfterInsert(rows, e, at);
    if !HasKey(rows, KeyOf(e)) {
      assert after[|rows|] == Row(NextRowId(rows), e, at);
      forall i | 0 <= i < |rows|
        ensures rows[i].id < NextRowId(rows) && KeyOf(rows[i].event) != KeyOf(e)
      {
        assert rows[i] in rows;
      }
    }
  }

  lemma {:induction false} BatchKeepsTable(rows: seq<Row>, events: seq<Event>, at: int)
    requires ValidTable(rows)
    ensures ValidTable(AfterInserts(rows, events, at)) && rows <= AfterInserts(rows, events, at)
    ensures forall e :: e in events ==> HasKey(AfterInserts(rows, events, at), KeyOf(e))
  {
    if events != [] {
      var init, last := events[..|events| - 1], events[|events| - 1];
      BatchKeepsTable(rows, init, at);
      var mid := AfterInserts(rows, init, at);
      InsertKeepsTable(mid, last, at);
      KeysStay(mid, AfterInsert(mid, last, at));
      forall e | e in events
        ensures HasKey(AfterInserts(rows, events, at), KeyOf(e))
      {
        assert e in init || e == last;
        assert e in init ==> HasKey(mid, KeyOf(e));
      }
    }
  }

  lemma {:induction false} NewOnesWereMissing(rows: seq<Row>, events: seq<Event>, at: int)
    requires ValidTable(rows)
    ensures forall e :: e in NewOnes(rows, events, at) ==> !HasKey(rows, KeyOf(e)) && e in events
  {
    if events != [] {
      var init, last := events[..|events| - 1], events[|events| - 1];
      NewOnesWereMissing(rows, init, at);
      BatchKeepsTable(rows, init, at);
      KeysStay(rows, AfterInserts(rows, init, at));
      assert events == init + [last];
    }
  }

  lemma {:induction false} RowsAddedAreNewOnes(rows: seq<Row>, events: seq<Event>, at: int)
    ensures var after, added := AfterInserts(rows, events, at), NewOnes(rows, events, at);
            && |after| == |rows| + |added|
            && (forall i :: 0 <= i < |added| ==> after[|rows| + i].event == added[i] && after[|rows| + i].receivedAt == at)
  {
    if events != [] {
      var init, last := events[..|events| - 1], events[|events| - 1];
      RowsAddedAreNewOnes(rows, init, at);
      var mid := AfterInserts(rows, init, at);
      assert HasKey(mid, KeyOf(last)) || AfterInserts(rows, events, at) == mid + [Row(NextRowId(mid), last, at)];
    }
  }

  /**
   * What one batch does: the table grows at its end by exactly the events
   * reported new, in order; none of those was stored before; afterwards every
   * key of the batch is stored.
   */
  lemma BatchAppendsExactlyTheNewOnes(rows: seq<Row>, events: seq<Event>, at: int)
    requires ValidTable(rows)
    ensures var after, added := AfterInserts(rows, events, at), NewOnes(rows, events, at);
            && ValidTable(after)
            && rows <= after
            && |after| == |rows| + |added|
            && (forall i :: 0 <= i < |added| ==> after[|rows| + i].event == added[i] && after[|rows| + i].receivedAt == at)
            && (forall e :: e in added ==> !HasKey(rows, KeyOf(e)) && e in events)
            && (forall e :: e in events ==> HasKey(after, KeyOf(e)))
  {
    BatchKeepsTable(rows, events, at);
    NewOnesWereMissing(rows, events, at);
    RowsAddedAreNewOnes(rows, events, at);
  }

  lemma KeysStay(rows: seq<Row>, more: seq<Row>)
    requires rows <= more
    ensures forall k :: HasKey(rows, k) ==> HasKey(more, k)
  {
    forall k | HasKey(rows, k)
      ensures HasKey(more, k)
    {
      var r :| r in rows && KeyOf(r.event) == k;
      assert r in more;
    }
  }

  /** A batch none of whose keys is missing changes nothing and reports nothing. */
  lemma {:induction false} StoredBatchIsANoOp(rows: seq<Row>, events: seq<Event>, at: int)
    requires forall e :: e in events ==> HasKey(rows, KeyOf(e))
    ensures AfterInserts(rows, events, at) == rows
    ensures NewOnes(rows, events, at) == []
  {
    if events != [] {
      StoredBatchIsANoOp(rows, events[..|events| - 1], at);
      assert events[|events| - 1] in events;
    }
  }

  /** Redelivering a batch, whole or in any part, stores nothing and reports nothing. */
  lemma RedeliveryIsANoOp(rows: seq<Row>, events: seq<Event>, again: seq<Event>, at: int, later: int)
    requires ValidTable(rows)
    requires forall e :: e in again ==> e in events
    ensures AfterInserts(AfterInserts(rows, events, at), again, later) == AfterInserts(rows, events, at)
    ensures NewOnes(AfterInserts(rows, events, at), again, later) == []
  {
    BatchAppendsExactlyTheNewOnes(rows, events, at);
    StoredBatchIsANoOp(AfterInserts(rows, events, at), again, later);
  }

  // -------------------------------------------------------------------- sends

  /** COALESCE(MIN(source_id), 0) over one unit's SMS. */
  function LowestSms(rows: seq<Row>, unit: string): Option<int> {
    if rows == [] then None
    else
      var r := rows[|rows| - 1];
      var rest := LowestSms(rows[..|rows| - 1], unit);
      if r.event.unit != unit || r.event.kind != KIND_SMS then rest
      else Some(Min(r.event.sourceId, rest.GetOr(r.event.sourceId)))
  }

  function SentId(rows: seq<Row>, unit: string, timestamp: int): int {
    Min(-timestamp, LowestSms(rows, unit).GetOr(0) - 1)
  }

  function SentEvent(rows: seq<Row>, unit: string, address: string, body: string, timestamp: int): Event {
    Event(unit, KIND_SMS, SentId(rows, unit, timestamp),
          Some(address), Some(body), Some(timestamp), Some("out"), None)
  }

  lemma {:induction false} LowestIsLowest(rows: seq<Row>, unit: string, r: Row)
    requires r in rows && r.event.unit == unit && r.event.kind == KIND_SMS
    ensures LowestSms(rows, unit).Some? && LowestSms(rows, unit).value <= r.event.sourceId
  {
    var init := rows[..|rows| - 1];
    if r in init {
      LowestIsLowest(init, unit, r);
    } else {
      assert r == rows[|rows| - 1];
    }
  }

  /**
   * A send's id is below every SMS id stored for its unit, whatever the table
   * holds, so its insert is never ignored; stamped with a positive time it is
   * negative, so it is never the id of an arrival either.
   */
  lemma SentIdIsBelowEverything(rows: seq<Row>, unit: string, timestamp: int)
    ensures var id := SentId(rows, unit, timestamp);
            && !HasKey(rows, Key(unit, KIND_SMS, id))
            && (forall r :: r in rows && r.event.unit == unit && r.event.kind == KIND_SMS
                            ==> id < r.event.sourceId)
            && (timestamp > 0 ==> id < 0)
  {
    var id := SentId(rows, unit, timestamp);
    forall r | r in rows && r.event.unit == unit && r.event.kind == KIND_SMS
      ensures id < r.event.sourceId
    {
      LowestIsLowest(rows, unit, r);
    }
  }

  lemma {:induction false} LowestIsThere(rows: seq<Row>, unit: string)
    ensures var lowest := LowestSms(rows, unit);
            lowest.Some? ==>
              exists r :: r in rows && r.event.unit == unit && r.event.kind == KIND_SMS && r.event.sourceId == lowest.value
  {
    if rows != [] {
      LowestIsThere(rows[..|rows| - 1], unit);
    }
  }

  /** It is the highest id with that property that is no higher than the time of the send, negated. */
  lemma SentIdIsTheHighest(rows: seq<Row>, unit: string, timestamp: int, id: int)
    requires forall r :: r in rows && r.event.unit == unit && r.event.kind == "sms" ==> id < r.event.sourceId
    requires (forall r :: r in rows && r.event.unit == unit ==> r.event.kind != "sms") ==> id < 0
    ensures id <= SentId(rows, unit, timestamp) <==> id <= -timestamp
  {
    LowestIsThere(rows, unit);
    forall r | r in rows && r.event.unit == unit && r.event.kind == "sms"
      ensures LowestSms(rows, unit).Some?
    {
      LowestIsLowest(rows, unit, r);
    }
  }

  // ---------------------------------------------------------------- retention

  /** Days to keep each kind; zero keeps it for ever. */
  datatype Policy = Policy(kind: string, days: int)

  function AgeStamp(r: Row): int {
    match r.event.ts
    case Some(ms) => TruncDiv(ms, 1000)
    case None => r.receivedAt
  }

  predicate ExpiredUnder(r: Row, p: Policy, now: int) {
    p.days != 0 && r.event.kind == p.kind && AgeStamp(r) < now - p.days * 24 * 60 * 60
  }

  function AfterDelete(rows: seq<Row>, p: Policy, now: int): seq<Row> {
    if rows == [] then []
    else
      AfterDelete(rows[..|rows| - 1], p, now)
      + (if ExpiredUnder(rows[|rows| - 1], p, now) then [] else [rows[|rows| - 1]])
  }

  function AfterPrune(rows: seq<Row>, retention: seq<Policy>, now: int): seq<Row> {
    if retention == [] then rows
    else AfterDelete(AfterPrune(rows, retention[..|retention| - 1], now), retention[|retention| - 1], now)
  }

  lemma {:induction false} DeleteFilters(rows: seq<Row>, p: Policy, now: int)
    ensures |AfterDelete(rows, p, now)| <= |rows|
    ensures forall r :: r in AfterDelete(rows, p, now) <==> r in rows && !ExpiredUnder(r, p, now)
  {
    if rows != [] {
      var init, last := rows[..|rows| - 1], rows[|rows| - 1];
      DeleteFilters(init, p, now);
      assert rows == init + [last];
    }
  }

  ghost predicate Follows(rows: seq<Row>, last: Row) {
    forall r :: r in rows ==> r.id < last.id && KeyOf(r.event) != KeyOf(last.event)
  }

  lemma LastFollows(rows: seq<Row>)
    requires ValidTable(rows) && rows != []
    ensures ValidTable(rows[..|rows| - 1])
    ensures Follows(rows[..|rows| - 1], rows[|rows| - 1])
    ensures LatestId(rows[..|rows| - 1]) < LatestId(rows)
  {
    assert rows[|rows| - 1] in rows;
  }

  lemma AppendKeepsTable(rows: seq<Row>, last: Row)
    requires ValidTable(rows) && Follows(rows, last) && last.id >= 1
    ensures ValidTable(rows + [last])
  {
    forall i | 0 <= i < |rows|
      ensures rows[i].id < last.id && KeyOf(rows[i].event) != KeyOf(last.event)
    {
      assert rows[i] in rows;
    }
  }

  lemma {:induction false} DeleteKeepsTable(rows: seq<Row>, p: Policy, now: int)
    requires ValidTable(rows)
    ensures ValidTable(AfterDelete(rows, p, now))
    ensures LatestId(AfterDelete(rows, p, now)) <= LatestId(rows)
  {
    if rows != [] {
      var init, last := rows[..|rows| - 1], rows[|rows| - 1];
      LastFollows(rows);
      DeleteKeepsTable(init, p, now);
      DeleteFilters(init, p, now);
      assert last in rows;
      AppendKeepsTable(AfterDelete(init, p, now), last);
    }
  }

  /**
   * Pruning removes exactly the rows some policy has expired, and leaves a
   * valid table in the same order.
   */
  lemma {:induction false} PruneRemovesExactlyTheExpired(rows: seq<Row>, retention: seq<Policy>, now: int)
    ensures var after := AfterPrune(rows, retention, now);
            && |after| <= |rows|
            && (forall r :: r in after <==>
                            r in rows && forall p :: p in retention ==> !ExpiredUnder(r, p, now))
            && (ValidTable(rows) ==> ValidTable(after) && LatestId(after) <= LatestId(rows))
  {
    if retention != [] {
      var init, last := retention[..|retention| - 1], retention[|retention| - 1];
      PruneRemovesExactlyTheExpired(rows, init, now);
      DeleteFilters(AfterPrune(rows, init, now), last, now);
      if ValidTable(rows) {
        DeleteKeepsTable(AfterPrune(rows, init, now), last, now);
      }
      assert retention == init + [last];
    }
  }

  // ------------------------------------------------------------------ queries

  /** ORDER BY ts DESC, id DESC: a missing ts sorts below every present one. */
  predicate Newer(a: Row, b: Row) {
    if a.event.ts == b.event.ts then a.id > b.id
    else if a.event.ts.None? then false
    else if b.event.ts.None? then true
    else a.event.ts.value > b.event.ts.value
  }

  predicate Matches(r: Row, kind: Option<string>, unit: Option<string>, since: Option<int>) {
    && (kind.GetOr("") == "" || r.event.kind == kind.value)
    && (unit.GetOr("") == "" || r.event.unit == unit.value)
    && (since.None? || (r.event.ts.Some? && r.event.ts.value >= since.value))
  }

  function Matching(rows: seq<Row>, kind: Option<string>, unit: Option<string>, since: Option<int>): seq<Row> {
    if rows == [] then []
    else
      Matching(rows[..|rows| - 1], kind, unit, since)
      + (if Matches(rows[|rows| - 1], kind, unit, since) then [rows[|rows| - 1]] else [])
  }

  function InsertNewest(r: Row, sorted: seq<Row>): seq<Row> {
    if sorted == [] then [r]
    else if Newer(r, sorted[0]) then [r] + sorted
    else [sorted[0]] + InsertNewest(r, sorted[1..])
  }

  function NewestFirst(rows: seq<Row>): seq<Row> {
    if rows == [] then [] else InsertNewest(rows[|rows| - 1], NewestFirst(rows[..|rows| - 1]))
  }

  function ClampLimit(limit: int): nat {
    Max(1, Min(limit, MAX_QUERY_LIMIT))
  }

  function Top(rows: seq<Row>, limit: nat): seq<Row> {
    var sorted := NewestFirst(rows);
    sorted[..Min(limit, |sorted|)]
  }

  function Query(rows: seq<Row>, kind: Option<string>, unit: Option<string>, since: Option<int>, limit: int): seq<Row> {
    Top(Matching(rows, kind, unit, since), ClampLimit(limit))
  }

  /** How many rows come before `r` in the query order. */
  function Rank(rows: seq<Row>, r: Row): nat {
    if rows == [] then 0
    else Rank(rows[..|rows| - 1], r) + (if Newer(rows[|rows| - 1], r) then 1 else 0)
  }

  ghost predicate IdsDistinct(rows: seq<Row>) {
    forall i, j :: 0 <= i < j < |rows| ==> rows[i].id != rows[j].id
  }

  ghost predicate SortedNewest(rows: seq<Row>) {
    forall i, j :: 0 <= i < j < |rows| ==> Newer(rows[i], rows[j])
  }

  lemma {:induction false} RankOfCons(x: Row, s: seq<Row>, r: Row)
    ensures Rank([x] + s, r) == (if Newer(x, r) then 1 else 0) + Rank(s, r)
  {
    if s != [] {
      RankOfCons(x, s[..|s| - 1], r);
      assert ([x] + s)[..|s|] == [x] + s[..|s| - 1];
    }
  }

  lemma {:induction false} InsertNewestHolds(x: Row, s: seq<Row>)
    ensures |InsertNewest(x, s)| == |s| + 1
    ensures forall q :: q in InsertNewest(x, s) <==> q == x || q in s
  {
    if s != [] && !Newer(x, s[0]) {
      InsertNewestHolds(x, s[1..]);
      assert s == [s[0]] + s[1..];
    }
  }

  lemma {:induction false} InsertNewestRanks(x: Row, s: seq<Row>, r: Row)
    ensures Rank(InsertNewest(x, s), r) == (if Newer(x, r) then 1 else 0) + Rank(s, r)
  {
    if s == [] {
    } else if Newer(x, s[0]) {
      RankOfCons(x, s, r);
    } else {
      InsertNewestRanks(x, s[1..], r);
      assert s == [s[0]] + s[1..];
      RankOfCons(s[0], s[1..], r);
      RankOfCons(s[0], InsertNewest(x, s[1..]), r);
    }
  }

  lemma {:induction false} InsertNewestSorts(x: Row, s: seq<Row>)
    requires SortedNewest(s) && (forall q :: q in s ==> q.id != x.id)
    ensures SortedNewest(InsertNewest(x, s))
  {
    if s != [] && !Newer(x, s[0]) {
      var t := InsertNewest(x, s[1..]);
      InsertNewestSorts(x, s[1..]);
      InsertNewestHolds(x, s[1..]);
      forall i | 0 <= i < |t|
        ensures Newer(s[0], t[i])
      {
        assert t[i] in t;
        assert t[i] == x || t[i] in s[1..];
      }
    }
  }

  lemma {:induction false} NewestFirstSorts(rows: seq<Row>, r: Row)
    requires IdsDistinct(rows)
    ensures var s := NewestFirst(rows);
            && SortedNewest(s)
            && |s| == |rows|
            && (forall q :: q in s <==> q in rows)
            && Rank(s, r) == Rank(rows, r)
  {
    if rows != [] {
      var init, last := rows[..|rows| - 1], rows[|rows| - 1];
      NewestFirstSorts(init, r);
      assert rows == init + [last];
      InsertNewestHolds(last, NewestFirst(init));
      InsertNewestRanks(last, NewestFirst(init), r);
      InsertNewestSorts(last, NewestFirst(init));
    }
  }

  lemma {:induction false} RankInSorted(s: seq<Row>, i: nat)
    requires SortedNewest(s) && i < |s|
    ensures Rank(s, s[i]) == i
  {
    var init := s[..|s| - 1];
    if i < |s| - 1 {
      RankInSorted(init, i);
      assert Newer(s[i], s[|s| - 1]);
    } else {
      AllNewer(init, s[i]);
    }
  }

  lemma {:induction false} AllNewer(s: seq<Row>, r: Row)
    requires forall q :: q in s ==> Newer(q, r)
    ensures Rank(s, r) == |s|
  {
    if s != [] {
      assert s[|s| - 1] in s;
      AllNewer(s[..|s| - 1], r);
    }
  }

  /**
   * The query returns, newest first and each once, exactly the rows with fewer
   * than `limit` rows before them.
   */
  lemma TopIsRankBelowLimit(rows: seq<Row>, limit: nat, r: Row)
    requires IdsDistinct(rows)
    ensures SortedNewest(Top(rows, limit))
    ensures r in Top(rows, limit) <==> r in rows && Rank(rows, r) < limit
  {
    var s := NewestFirst(rows);
    NewestFirstSorts(rows, r);
    if r in rows {
      var i :| 0 <= i < |s| && s[i] == r;
      RankInSorted(s, i);
      if i < limit {
        assert Top(rows, limit)[i] == r;
      }
    }
  }

  lemma {:induction false} MatchingIsFilter(rows: seq<Row>, kind: Option<string>, unit: Option<string>, since: Option<int>)
    ensures var m := Matching(rows, kind, unit, since);
            && (forall r :: r in m <==> r in rows && Matches(r, kind, unit, since))
            && (IdsDistinct(rows) ==> IdsDistinct(m))
  {
    if rows != [] {
      var init, last := rows[..|rows| - 1], rows[|rows| - 1];
      MatchingIsFilter(init, kind, unit, since);
      assert rows == init + [last];
      if IdsDistinct(rows) {
        var m := Matching(init, kind, unit, since);
        forall i | 0 <= i < |m|
          ensures m[i].id != last.id
        {
          assert m[i] in init;
        }
      }
    }
  }

  lemma {:induction false} MatchingEverything(rows: seq<Row>)
    ensures Matching(rows, None, None, None) == rows
  {
    if rows != [] {
      MatchingEverything(rows[..|rows| - 1]);
    }
  }

  // ------------------------------------------------- in the columns' own terms

  /** ts falls, a missing one comes last, and among equal ones the row id falls. */
  predicate ComesBefore(a: Row, b: Row) {
    && (b.event.ts.None? || (a.event.ts.Some? && a.event.ts.value >= b.event.ts.value))
    && (a.event.ts == b.event.ts ==> a.id > b.id)
  }

  lemma NewerComesBefore(a: Row, b: Row)
    ensures Newer(a, b) <==> ComesBefore(a, b)
  {}

  /** A row that does not fit into the answer comes after every row that does. */
  lemma LeftOutComesLater(rows: seq<Row>, limit: nat, r: Row, q: Row)
    requires IdsDistinct(rows) && r in rows && r !in Top(rows, limit)
    ensures |Top(rows, limit)| == limit
    ensures q in Top(rows, limit) ==> ComesBefore(q, r)
  {
    var s := NewestFirst(rows);
    NewestFirstSorts(rows, r);
    var i :| 0 <= i < |s| && s[i] == r;
    var top := Top(rows, limit);
    assert forall k :: 0 <= k < |top| ==> s[k] == top[k] && top[k] in top;
    if q in Top(rows, limit) {
      var j :| 0 <= j < |Top(rows, limit)| && Top(rows, limit)[j] == q;
      assert s[j] == q && Newer(s[j], s[i]);
      NewerComesBefore(q, r);
    }
  }

  /** What a query asks for: an empty or missing kind or unit asks for any. */
  predicate Wanted(r: Row, kind: Option<string>, unit: Option<string>, since: Option<int>) {
    && (kind == None || kind == Some("") || kind == Some(r.event.kind))
    && (unit == None || unit == Some("") || unit == Some(r.event.unit))
    && (since.Some? ==> r.event.ts.Some? && r.event.ts.value >= since.value)
  }

  /**
   * A row survives pruning exactly if it is young enough for every policy of its
   * kind that does not keep for ever; it is as old as its own time stamp says, or
   * without one as its arrival here.
   */
  lemma SurvivesIffYoung(rows: seq<Row>, retention: seq<Policy>, now: int, r: Row)
    ensures r in AfterPrune(rows, retention, now) <==>
            && r in rows
            && forall p :: p in retention && p.kind == r.event.kind && p.days != 0 ==>
                 (if r.event.ts.Some? then TruncDiv(r.event.ts.value, 1000) else r.receivedAt)
                 >= now - p.days * 86_400
  {
    PruneRemovesExactlyTheExpired(rows, retention, now);
    assert forall p :: ExpiredUnder(r, p, now) <==>
        p.kind == r.event.kind && p.days != 0
        && (if r.event.ts.Some? then TruncDiv(r.event.ts.value, 1000) else r.receivedAt) < now - p.days * 86_400;
  }

  // -------------------------------------------------------------- the object

  /** The answer to a query, in those terms. */
  lemma AnswerIs(rows: seq<Row>, kind: Option<string>, unit: Option<string>, since: Option<int>, limit: int)
    requires Ascending(rows)
    ensures var found := Query(rows, kind, unit, since, limit);
            var most := if limit < 1 then 1 else if limit > 1000 then 1000 else limit;
            && |found| <= most
            && (forall i, j :: 0 <= i < j < |found| ==> ComesBefore(found[i], found[j]))
            && (forall r :: r in found ==> r in rows && Wanted(r, kind, unit, since))
            && (forall r :: r in rows && Wanted(r, kind, unit, since) && r !in found ==>
                  |found| == most && forall q :: q in found ==> ComesBefore(q, r))
  {
    var matching := Matching(rows, kind, unit, since);
    var found := Query(rows, kind, unit, since, limit);
    MatchingIsFilter(rows, kind, unit, since);
    assert forall r :: Matches(r, kind, unit, since) <==> Wanted(r, kind, unit, since);
    forall r
      ensures SortedNewest(found) && (r in found ==> r in matching)
    {
      TopIsRankBelowLimit(matching, ClampLimit(limit), r);
    }
    forall i, j | 0 <= i < j < |found|
      ensures ComesBefore(found[i], found[j])
    {
      NewerComesBefore(found[i], found[j]);
    }
    forall r | r in matching && r !in found
      ensures |found| == ClampLimit(limit) && forall q :: q in found ==> ComesBefore(q, r)
    {
      forall q | q in found
        ensures ComesBefore(q, r)
      {
        LeftOutComesLater(matching, ClampLimit(limit), r, q);
      }
      LeftOutComesLater(matching, ClampLimit(limit), r, r);
    }
  }

  class Store {
    var rows: seq<Row>

    constructor ()
      ensures rows == []
    {
      rows := [];
    }

    method AddEvents(events: seq<Event>, receivedAt: int) returns (stored: seq<Event>)
      modifies this
      ensures rows == AfterInserts(old(rows), events, receivedAt)
      ensures stored == NewOnes(old(rows), events, receivedAt)
    {
      stored := [];
      for i := 0 to |events|
        invariant rows == AfterInserts(old(rows), events[..i], receivedAt)
        invariant stored == NewOnes(old(rows), events[..i], receivedAt)
      {
        assert events[..i + 1][..i] == events[..i];
        if !HasKey(rows, KeyOf(events[i])) {
          rows := rows + [Row(NextRowId(rows), events[i], receivedAt)];
          stored := stored + [events[i]];
        }
      }
      assert events[..|events|] == events;
    }

    /** The row count check in the source can never fail: the insert is never ignored. */
    method AddSent(unit: string, address: string, body: string, timestamp: int, now: int) returns (row: Row)
      modifies this
      ensures rows == old(rows) + [row]
      ensures row == Row(NextRowId(old(rows)), SentEvent(old(rows), unit, address, body, timestamp), now)
      ensures row.event.unit == unit && row.event.kind == "sms" && row.event.direction == Some("out")
      ensures row.event.address == Some(address) && row.event.body == Some(body)
      ensures row.event.ts == Some(timestamp) && row.event.duration == None && row.receivedAt == now
    {
      var event := SentEvent(rows, unit, address, body, timestamp);
      SentIdIsBelowEverything(rows, unit, timestamp);
      if !HasKey(rows, KeyOf(event)) {
        rows := rows + [Row(NextRowId(rows), event, now)];
      }
      row := rows[|rows| - 1];
    }

    method Prune(retention: seq<Policy>, now: int) returns (removed: nat)
      modifies this
      ensures rows == AfterPrune(old(rows), retention, now)
      ensures removed == |old(rows)| - |rows|
    {
      removed := 0;
      for i := 0 to |retention|
        invariant rows == AfterPrune(old(rows), retention[..i], now)
        invariant removed == |old(rows)| - |rows|
      {
        assert retention[..i + 1][..i] == retention[..i];
        if retention[i].days == 0 {
          NothingExpires(rows, retention[i], now);
          continue;
        }
        DeleteFilters(rows, retention[i], now);
        var kept := AfterDelete(rows, retention[i], now);
        removed := removed + (|rows| - |kept|);
        rows := kept;
      }
      assert retention[..|retention|] == retention;
    }

    method QueryEvents(kind: Option<string>, unit: Option<string>, since: Option<int>, limit: int)
      returns (found: seq<Row>)
      requires Ascending(rows)
      ensures found == Query(rows, kind, unit, since, limit)
      ensures |found| <= (if limit < 1 then 1 else if limit > 1000 then 1000 else limit)
      ensures forall i, j :: 0 <= i < j < |found| ==> ComesBefore(found[i], found[j])
      ensures forall r :: r in found ==> r in rows && Wanted(r, kind, unit, since)
      ensures forall r :: r in rows && Wanted(r, kind, unit, since) && r !in found ==>
                && |found| == (if limit < 1 then 1 else if limit > 1000 then 1000 else limit)
                && forall q :: q in found ==> ComesBefore(q, r)
    {
      var matching := Matching(rows, kind, unit, since);
      found := Top(matching, ClampLimit(limit));
      AnswerIs(rows, kind, unit, since, limit);
    }

    method LatestEventId() returns (id: int)
      requires ValidTable(rows)
      ensures forall r :: r in rows ==> r.id <= id
      ensures rows == [] ==> id == 0
      ensures rows != [] ==> exists r :: r in rows && r.id == id
    {
      id := LatestId(rows);
      if rows != [] {
        assert rows[|rows| - 1] in rows;
      }
    }
  }

  lemma {:induction false} NothingExpires(rows: seq<Row>, p: Policy, now: int)
    requires p.days == 0
    ensures AfterDelete(rows, p, now) == rows
  {
    if rows != [] {
      NothingExpires(rows[..|rows| - 1], p, now);
    }
  }
}

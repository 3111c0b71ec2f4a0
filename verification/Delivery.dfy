/**
 * Delivery from the phones to the store (Inbox.kt, drain.py, store.py) as one
 * state machine: several phones, one host that drains, commits and acks, and a
 * host crash possible between any two steps.
 */
module Delivery {
  import opened Prelude
  import Phone = PhoneInbox
  import opened EventStore

  // ----------------------------------------------------------- spool lines

  /**
   * One line of a drain's output. A raising line is JSON that is not an object
   * or whose id is not a number: it makes the whole drain fail.
   */
  datatype Line = Blank | NotJson | FieldMissing | Raising | Good(spooled: Phone.Spooled)

  datatype Parsed = Skipped | Raised | Usable(event: Event)

  function HostEvent(unit: string, e: Phone.Spooled): Event {
    Event(unit, e.payload.kind, e.id, e.payload.address, e.payload.body,
          e.payload.ts, e.payload.direction, e.payload.duration)
  }

  /** An event of the host says of its unit what the phone recorded: id and every field under its own name. */
  predicate Tells(ev: Event, unit: string, e: Phone.Spooled) {
    && ev.unit == unit
    && ev.sourceId == e.id
    && ev.kind == e.payload.kind
    && ev.address == e.payload.address
    && ev.body == e.payload.body
    && ev.ts == e.payload.ts
    && ev.direction == e.payload.direction
    && ev.duration == e.payload.duration
  }

  lemma HostEventTells(unit: string, e: Phone.Spooled)
    ensures Tells(HostEvent(unit, e), unit, e)
    ensures forall ev :: Tells(ev, unit, e) ==> ev == HostEvent(unit, e)
  {}

  function FromSpoolLine(unit: string, line: Line): Parsed {
    match line
    case Blank => Skipped
    case NotJson => Skipped
    case FieldMissing => Skipped
    case Raising => Raised
    case Good(e) => Usable(HostEvent(unit, e))
  }

  type BadLine = l: Line | !l.Good? witness Blank

  /** Lines of a batch that do not arrive as the phone printed them. */
  type Damage = map<nat, BadLine>

  /** What the host reads of a batch: one good line per event, but for the damaged ones. */
  function Received(batch: seq<Phone.Spooled>, damage: Damage): seq<Line> {
    seq(|batch|, i requires 0 <= i < |batch| => if i in damage then damage[i] else Good(batch[i]))
  }

  function Kept(batch: seq<Phone.Spooled>, damage: Damage): seq<Phone.Spooled> {
    if batch == [] then []
    else
      var n := |batch| - 1;
      Kept(batch[..n], damage) + (if n in damage then [] else [batch[n]])
  }

  function Spoilt(batch: seq<Phone.Spooled>, damage: Damage): seq<Phone.Spooled> {
    if batch == [] then []
    else
      var n := |batch| - 1;
      Spoilt(batch[..n], damage) + (if n in damage then [batch[n]] else [])
  }

  function HostEvents(unit: string, batch: seq<Phone.Spooled>): seq<Event> {
    seq(|batch|, i requires 0 <= i < |batch| => HostEvent(unit, batch[i]))
  }

  function UsableEvents(unit: string, lines: seq<Line>): seq<Event> {
    if lines == [] then []
    else
      var last := FromSpoolLine(unit, lines[|lines| - 1]);
      UsableEvents(unit, lines[..|lines| - 1]) + (if last.Usable? then [last.event] else [])
  }

  /** The records of the lines that arrived whole, in order. */
  function Whole(lines: seq<Line>): seq<Phone.Spooled> {
    if lines == [] then []
    else
      var last := lines[|lines| - 1];
      Whole(lines[..|lines| - 1]) + (if last.Good? then [last.spooled] else [])
  }

  lemma {:induction false} UsableTellTheWhole(unit: string, lines: seq<Line>)
    ensures |UsableEvents(unit, lines)| == |Whole(lines)|
    ensures forall i :: 0 <= i < |Whole(lines)| ==> Tells(UsableEvents(unit, lines)[i], unit, Whole(lines)[i])
  {
    if lines != [] {
      UsableTellTheWhole(unit, lines[..|lines| - 1]);
    }
  }

  predicate AllBlank(lines: seq<Line>) {
    forall l :: l in lines ==> l.Blank?
  }

  predicate Raises(lines: seq<Line>) {
    exists l :: l in lines && l.Raising?
  }

  /** The host gets exactly the events whose lines arrived whole, in order. */
  lemma {:induction false} ParsingKeepsTheWhole(unit: string, batch: seq<Phone.Spooled>, damage: Damage)
    ensures UsableEvents(unit, Received(batch, damage)) == HostEvents(unit, Kept(batch, damage))
  {
    if batch != [] {
      var n := |batch| - 1;
      ParsingKeepsTheWhole(unit, batch[..n], damage);
      var lines := Received(batch, damage);
      assert lines[..n] == Received(batch[..n], damage);
      assert lines[n] == if n in damage then damage[n] else Good(batch[n]);
      if n !in damage {
        assert HostEvents(unit, Kept(batch, damage))
            == HostEvents(unit, Kept(batch[..n], damage)) + [HostEvent(unit, batch[n])];
      }
    }
  }

  lemma {:induction false} KeptOrSpoilt(batch: seq<Phone.Spooled>, damage: Damage, e: Phone.Spooled)
    ensures e in batch <==> e in Kept(batch, damage) || e in Spoilt(batch, damage)
    ensures damage == map[] ==> Spoilt(batch, damage) == []
  {
    if batch != [] {
      var n := |batch| - 1;
      KeptOrSpoilt(batch[..n], damage, e);
      assert batch == batch[..n] + [batch[n]];
    }
  }

  // ------------------------------------------------------------ the protocol

  /** Where the single host is: it forgets what it holds when it crashes. */
  datatype Host =
    | Idle
    | Holding(unit: string, batch: seq<Phone.Spooled>, damage: Damage)
    | Committed(unit: string, batch: seq<Phone.Spooled>)

  /**
   * The phones with their histories, the host, the table, and four histories of
   * the host: all it ever committed, all it skipped for an unreadable line, all
   * `add_events` reported as new, and all rows ever pruned.
   */
  datatype System = System(
    phones: map<string, Phone.Ledger>,
    host: Host,
    rows: seq<Row>,
    committed: seq<Event>,
    skipped: seq<Event>,
    reported: seq<Event>,
    pruned: seq<Row>)

  type Timestamp = t: int | t > 0 witness 1

  datatype Step =
    | PhoneStep(unit: string, op: Phone.Op)
    | HostDrain(drained: string, damage: Damage)
    | HostCommit(receivedAt: int)
    | HostAck
    | HostCrash
    | HostSend(sender: string, address: string, body: string, timestamp: Timestamp, now: int)
    | HostPrune(retention: seq<Policy>, now: int)

  /** The phone's own steps: it records, and may be reset; drain and ack are the host's. */
  predicate OwnStep(op: Phone.Op) {
    op.Record? || op.Reset?
  }

  function OnPhone(s: System, unit: string, op: Phone.Op): System
    requires unit in s.phones
  {
    s.(phones := s.phones[unit := Phone.Step(s.phones[unit], op)])
  }

  function Removed(before: seq<Row>, after: seq<Row>): seq<Row> {
    if before == [] then []
    else
      Removed(before[..|before| - 1], after)
      + (if before[|before| - 1] in after then [] else [before[|before| - 1]])
  }

  /** One step; a step that is not possible in a state leaves it as it is. */
  function Next(s: System, step: Step): System {
    match step
    case PhoneStep(unit, op) =>
      if unit in s.phones && OwnStep(op) then OnPhone(s, unit, op) else s
    case HostDrain(unit, damage) =>
      if s.host.Idle? && unit in s.phones then
        var s' := OnPhone(s, unit, Phone.Drain);
        var batch := Phone.Lines(s'.phones[unit].files.inflight);
        if AllBlank(Received(batch, damage)) then s' else s'.(host := Holding(unit, batch, damage))
      else s
    case HostCommit(at) =>
      if !s.host.Holding? then s
      else if Raises(Received(s.host.batch, s.host.damage)) then s.(host := Idle)
      else
        var events := UsableEvents(s.host.unit, Received(s.host.batch, s.host.damage));
        s.(host := Committed(s.host.unit, s.host.batch),
           rows := AfterInserts(s.rows, events, at),
           committed := s.committed + events,
           skipped := s.skipped + HostEvents(s.host.unit, Spoilt(s.host.batch, s.host.damage)),
           reported := s.reported + NewOnes(s.rows, events, at))
    case HostAck =>
      if s.host.Committed? && s.host.unit in s.phones
      then OnPhone(s, s.host.unit, Phone.Ack).(host := Idle)
      else s
    case HostCrash => s.(host := Idle)
    case HostSend(unit, address, body, ts, now) =>
      s.(rows := AfterInsert(s.rows, SentEvent(s.rows, unit, address, body, ts), now))
    case HostPrune(retention, now) =>
      var after := AfterPrune(s.rows, retention, now);
      s.(rows := after, pruned := s.pruned + Removed(s.rows, after))
  }

  function Run(s: System, steps: seq<Step>): System {
    if steps == [] then s else Next(Run(s, steps[..|steps| - 1]), steps[|steps| - 1])
  }

  /** Phones with nothing recorded and any non-negative stored sequence; an empty table. */
  function Started(sequences: map<string, nat>): System {
    System(map u | u in sequences :: Phone.Opened(sequences[u]), Idle, [], [], [], [], [])
  }

  // --------------------------------------------------------------- invariants

  ghost predicate PhoneValid(l: Phone.Ledger) {
    && Phone.Valid(l)
    && l.files.sequence >= 0
    && forall e :: e in l.recorded ==> e.id >= 1
  }

  ghost predicate PhonesValid(s: System) {
    forall u :: u in s.phones ==> PhoneValid(s.phones[u])
  }

  /** What the host holds is still in flight, unless a reset deleted it meanwhile. */
  ghost predicate HostAgrees(s: System) {
    match s.host
    case Idle => true
    case Holding(u, batch, _) => BatchAgrees(s, u, batch)
    case Committed(u, batch) => BatchAgrees(s, u, batch) && forall e :: e in batch ==> Settled(s, HostEvent(u, e))
  }

  predicate Settled(s: System, ev: Event) {
    ev in s.committed || ev in s.skipped
  }

  ghost predicate BatchAgrees(s: System, u: string, batch: seq<Phone.Spooled>) {
    && u in s.phones
    && (s.phones[u].files.inflight == Some(batch) || s.phones[u].files.inflight == None)
    && forall e :: e in batch ==> e in s.phones[u].recorded
  }

  ghost predicate AckedIsSettled(s: System) {
    forall u, e :: u in s.phones && e in s.phones[u].acked ==> Settled(s, HostEvent(u, e))
  }

  /** An event some phone recorded, as the host sees it. */
  ghost predicate Arrived(s: System, ev: Event) {
    ev.unit in s.phones && exists e :: e in s.phones[ev.unit].recorded && HostEvent(ev.unit, e) == ev
  }

  ghost predicate CommittedArrived(s: System) {
    forall ev :: ev in s.committed ==> Arrived(s, ev)
  }

  ghost predicate RowsAccounted(s: System) {
    forall r :: r in s.rows ==> r.event in s.committed || r.event.sourceId < 0
  }

  function RowsWith(rows: seq<Row>, k: Key): nat {
    if rows == [] then 0
    else RowsWith(rows[..|rows| - 1], k) + (if KeyOf(rows[|rows| - 1].event) == k then 1 else 0)
  }

  function EventsWith(events: seq<Event>, k: Key): nat {
    if events == [] then 0
    else EventsWith(events[..|events| - 1], k) + (if KeyOf(events[|events| - 1]) == k then 1 else 0)
  }

  /** For an arrival's key: times reported new = row present now + times its row was pruned. */
  ghost predicate ReportsBalance(s: System) {
    forall k: Key :: k.sourceId > 0 ==>
      EventsWith(s.reported, k) == RowsWith(s.rows, k) + RowsWith(s.pruned, k)
  }

  ghost predicate Valid(s: System) {
    && PhonesValid(s)
    && HostAgrees(s)
    && AckedIsSettled(s)
    && CommittedArrived(s)
    && ValidTable(s.rows)
    && RowsAccounted(s)
    && ReportsBalance(s)
  }

  // ---------------------------------------------------------- phone-side steps

  lemma PhoneStepKeeps(l: Phone.Ledger, op: Phone.Op)
    requires PhoneValid(l)
    ensures PhoneValid(Phone.Step(l, op))
    ensures l.recorded <= Phone.Step(l, op).recorded
  {
    Phone.StepKeeps(l, op);
  }

  /** A phone step other than an ack changes nothing the host relies on but a reset's deletion. */
  lemma OnPhoneKeeps(s: System, unit: string, op: Phone.Op)
    requires Valid(s) && unit in s.phones && !op.Ack?
    requires op.Drain? ==> s.host.Idle?
    ensures Valid(OnPhone(s, unit, op))
  {
    var s' := OnPhone(s, unit, op);
    PhoneStepKeeps(s.phones[unit], op);
    ArrivalsStay(s, unit, op);
    if s.host.Holding? || s.host.Committed? {
      assert BatchAgrees(s, s.host.unit, s.host.batch);
      assert BatchAgrees(s', s.host.unit, s.host.batch);
    }
  }

  lemma ArrivalsStay(s: System, unit: string, op: Phone.Op)
    requires PhonesValid(s) && unit in s.phones
    ensures forall ev :: Arrived(s, ev) ==> Arrived(OnPhone(s, unit, op), ev)
  {
    var s' := OnPhone(s, unit, op);
    PhoneStepKeeps(s.phones[unit], op);
    forall ev | Arrived(s, ev)
      ensures Arrived(s', ev)
    {
      var e :| e in s.phones[ev.unit].recorded && HostEvent(ev.unit, e) == ev;
      assert e in s'.phones[ev.unit].recorded;
    }
  }

  lemma DrainKeeps(s: System, unit: string, damage: Damage)
    requires Valid(s)
    ensures Valid(Next(s, HostDrain(unit, damage)))
  {
    if s.host.Idle? && unit in s.phones {
      var s' := OnPhone(s, unit, Phone.Drain);
      OnPhoneKeeps(s, unit, Phone.Drain);
      var l := s'.phones[unit];
      assert PhoneValid(l);
      Phone.PendingClimbs(l);
      forall e | e in Phone.Lines(l.files.inflight)
        ensures e in l.recorded
      {
        assert e in Phone.Pending(l.files);
      }
    }
  }

  lemma AckKeeps(s: System)
    requires Valid(s)
    ensures Valid(Next(s, HostAck))
  {
    if s.host.Committed? && s.host.unit in s.phones {
      var u, batch := s.host.unit, s.host.batch;
      var s' := OnPhone(s, u, Phone.Ack);
      PhoneStepKeeps(s.phones[u], Phone.Ack);
      ArrivalsStay(s, u, Phone.Ack);
      assert BatchAgrees(s, u, batch);
      forall v, e | v in s'.phones && e in s'.phones[v].acked
        ensures Settled(s', HostEvent(v, e))
      {
        if v == u && e !in s.phones[u].acked {
          assert e in batch;
        }
      }
    }
  }

  // ----------------------------------------------------------- host-side steps

  lemma {:induction false} CountsAdd(a: seq<Event>, b: seq<Event>, k: Key)
    ensures EventsWith(a + b, k) == EventsWith(a, k) + EventsWith(b, k)
  {
    if b == [] {
      assert a + b == a;
    } else {
      CountsAdd(a, b[..|b| - 1], k);
      assert (a + b)[..|a + b| - 1] == a + b[..|b| - 1];
    }
  }

  lemma {:induction false} RowCountsAdd(a: seq<Row>, b: seq<Row>, k: Key)
    ensures RowsWith(a + b, k) == RowsWith(a, k) + RowsWith(b, k)
  {
    if b == [] {
      assert a + b == a;
    } else {
      RowCountsAdd(a, b[..|b| - 1], k);
      assert (a + b)[..|a + b| - 1] == a + b[..|b| - 1];
    }
  }

  /** Each new row comes with one report: rows and reports of a key grow together. */
  lemma {:induction false} ReportsFollowRows(rows: seq<Row>, events: seq<Event>, at: int, k: Key)
    ensures RowsWith(AfterInserts(rows, events, at), k)
            == RowsWith(rows, k) + EventsWith(NewOnes(rows, events, at), k)
  {
    if events != [] {
      var init, last := events[..|events| - 1], events[|events| - 1];
      ReportsFollowRows(rows, init, at, k);
      var mid := AfterInserts(rows, init, at);
      if !HasKey(mid, KeyOf(last)) {
        RowCountsAdd(mid, [Row(NextRowId(mid), last, at)], k);
        CountsAdd(NewOnes(rows, init, at), [last], k);
      } else {
        assert NewOnes(rows, events, at) == NewOnes(rows, init, at);
      }
    }
  }

  lemma RowsComeFromTheBatch(rows: seq<Row>, events: seq<Event>, at: int, r: Row)
    requires ValidTable(rows) && r in AfterInserts(rows, events, at)
    ensures r in rows || r.event in events
  {
    BatchAppendsExactlyTheNewOnes(rows, events, at);
    var after, added := AfterInserts(rows, events, at), NewOnes(rows, events, at);
    var i :| 0 <= i < |after| && after[i] == r;
    if i < |rows| {
      assert after[i] == rows[i];
    } else {
      assert after[|rows| + (i - |rows|)].event == added[i - |rows|];
      assert r.event in added;
    }
  }

  lemma CommitSettles(s: System, at: int)
    requires s.host.Holding? && !Raises(Received(s.host.batch, s.host.damage))
    ensures var s' := Next(s, HostCommit(at)); var u, batch := s.host.unit, s.host.batch;
            var events := HostEvents(u, Kept(batch, s.host.damage));
            && s'.committed == s.committed + events
            && s'.rows == AfterInserts(s.rows, events, at)
            && s'.reported == s.reported + NewOnes(s.rows, events, at)
            && (forall e :: e in batch ==> Settled(s', HostEvent(u, e)))
            && (forall ev :: ev in events ==> exists e :: e in batch && HostEvent(u, e) == ev)
            && |events| == |Kept(batch, s.host.damage)|
            && forall i :: 0 <= i < |events| ==> Tells(events[i], u, Kept(batch, s.host.damage)[i])
  {
    var s' := Next(s, HostCommit(at));
    var u, batch, damage := s.host.unit, s.host.batch, s.host.damage;
    var kept, spoilt := Kept(batch, damage), Spoilt(batch, damage);
    ParsingKeepsTheWhole(u, batch, damage);
    forall e | e in batch
      ensures Settled(s', HostEvent(u, e))
    {
      KeptOrSpoilt(batch, damage, e);
      if i :| 0 <= i < |kept| && kept[i] == e {
        assert HostEvents(u, kept)[i] == HostEvent(u, e);
      } else {
        var i :| 0 <= i < |spoilt| && spoilt[i] == e;
        assert HostEvents(u, spoilt)[i] == HostEvent(u, e);
      }
    }
    forall ev | ev in HostEvents(u, kept)
      ensures exists e :: e in batch && HostEvent(u, e) == ev
    {
      var i :| 0 <= i < |kept| && HostEvents(u, kept)[i] == ev;
      KeptOrSpoilt(batch, damage, kept[i]);
      assert kept[i] in batch && HostEvent(u, kept[i]) == ev;
    }
  }

  lemma CommitKeeps(s: System, at: int)
    requires Valid(s)
    ensures Valid(Next(s, HostCommit(at)))
  {
    if s.host.Holding? && !Raises(Received(s.host.batch, s.host.damage)) {
      var u, batch := s.host.unit, s.host.batch;
      var events := HostEvents(u, Kept(batch, s.host.damage));
      var s' := Next(s, HostCommit(at));
      CommitSettles(s, at);
      assert BatchAgrees(s, u, batch);
      assert BatchAgrees(s', u, batch);
      BatchAppendsExactlyTheNewOnes(s.rows, events, at);
      forall ev | ev in s'.committed
        ensures Arrived(s', ev)
      {
        if ev in s.committed {
          assert Arrived(s, ev);
        } else {
          var e :| e in batch && HostEvent(u, e) == ev;
          assert e in s.phones[u].recorded;
        }
      }
      forall r | r in s'.rows
        ensures r.event in s'.committed || r.event.sourceId < 0
      {
        RowsComeFromTheBatch(s.rows, events, at, r);
      }
      forall k: Key | k.sourceId > 0
        ensures EventsWith(s'.reported, k) == RowsWith(s'.rows, k) + RowsWith(s'.pruned, k)
      {
        ReportsFollowRows(s.rows, events, at, k);
        CountsAdd(s.reported, NewOnes(s.rows, events, at), k);
      }
    } else if s.host.Holding? {
      assert forall ev :: Arrived(s, ev) ==> Arrived(s.(host := Idle), ev);
    }
  }

  lemma SendKeeps(s: System, unit: string, address: string, body: string, ts: Timestamp, now: int)
    requires Valid(s)
    ensures Valid(Next(s, HostSend(unit, address, body, ts, now)))
  {
    var sent := SentEvent(s.rows, unit, address, body, ts);
    var s' := Next(s, HostSend(unit, address, body, ts, now));
    SentIdIsBelowEverything(s.rows, unit, ts);
    InsertKeepsTable(s.rows, sent, now);
    forall k: Key | k.sourceId > 0
      ensures RowsWith(s'.rows, k) == RowsWith(s.rows, k)
    {
      RowCountsAdd(s.rows, [Row(NextRowId(s.rows), sent, now)], k);
    }
    if s.host.Holding? || s.host.Committed? {
      assert BatchAgrees(s', s.host.unit, s.host.batch);
    }
    assert forall ev :: Arrived(s, ev) ==> Arrived(s', ev);
  }

  lemma HasKeyOfLast(rows: seq<Row>, last: Row, k: Key)
    ensures HasKey(rows + [last], k) <==> HasKey(rows, k) || KeyOf(last.event) == k
  {
    if KeyOf(last.event) == k {
      assert (rows + [last])[|rows|] == last;
    }
    if HasKey(rows, k) {
      var r :| r in rows && KeyOf(r.event) == k;
      assert r in rows + [last];
    }
  }

  lemma LastKeyIsNew(rows: seq<Row>)
    requires KeysUnique(rows) && rows != []
    ensures !HasKey(rows[..|rows| - 1], KeyOf(rows[|rows| - 1].event))
  {
    var init, last := rows[..|rows| - 1], rows[|rows| - 1];
    forall r | r in init
      ensures KeyOf(r.event) != KeyOf(last.event)
    {
      var i :| 0 <= i < |init| && init[i] == r;
      assert rows[i] == r;
    }
  }

  lemma {:induction false} RowsWithIsPresence(rows: seq<Row>, k: Key)
    requires KeysUnique(rows)
    ensures RowsWith(rows, k) == if HasKey(rows, k) then 1 else 0
  {
    if rows != [] {
      var init, last := rows[..|rows| - 1], rows[|rows| - 1];
      RowsWithIsPresence(init, k);
      assert rows == init + [last];
      HasKeyOfLast(init, last, k);
      LastKeyIsNew(rows);
    }
  }

  lemma {:induction false} RemovedSplits(before: seq<Row>, after: seq<Row>, k: Key)
    requires KeysUnique(before)
    ensures forall r :: r in Removed(before, after) <==> r in before && r !in after
    ensures KeysUnique(Removed(before, after))
  {
    if before != [] {
      var init, last := before[..|before| - 1], before[|before| - 1];
      RemovedSplits(init, after, k);
      assert before == init + [last];
      var gone := Removed(init, after);
      forall i | 0 <= i < |gone|
        ensures KeyOf(gone[i].event) != KeyOf(last.event)
      {
        assert gone[i] in init;
      }
    }
  }

  lemma PruneBalances(before: seq<Row>, after: seq<Row>, k: Key)
    requires KeysUnique(before) && KeysUnique(after)
    requires forall r :: r in after ==> r in before
    ensures RowsWith(before, k) == RowsWith(after, k) + RowsWith(Removed(before, after), k)
  {
    RemovedSplits(before, after, k);
    RowsWithIsPresence(before, k);
    RowsWithIsPresence(after, k);
    RowsWithIsPresence(Removed(before, after), k);
    if HasKey(before, k) {
      var r :| r in before && KeyOf(r.event) == k;
      forall q | q in before && KeyOf(q.event) == k
        ensures q == r
      {
        var i :| 0 <= i < |before| && before[i] == r;
        var j :| 0 <= j < |before| && before[j] == q;
      }
    }
  }

  lemma PruneKeepsBalance(s: System, retention: seq<Policy>, now: int)
    requires ValidTable(s.rows) && ReportsBalance(s)
    ensures ReportsBalance(Next(s, HostPrune(retention, now)))
  {
    var s' := Next(s, HostPrune(retention, now));
    PruneRemovesExactlyTheExpired(s.rows, retention, now);
    forall k: Key | k.sourceId > 0
      ensures EventsWith(s'.reported, k) == RowsWith(s'.rows, k) + RowsWith(s'.pruned, k)
    {
      PruneBalances(s.rows, s'.rows, k);
      RowCountsAdd(s.pruned, Removed(s.rows, s'.rows), k);
    }
  }

  lemma PruneKeeps(s: System, retention: seq<Policy>, now: int)
    requires Valid(s)
    ensures Valid(Next(s, HostPrune(retention, now)))
  {
    var s' := Next(s, HostPrune(retention, now));
    PruneRemovesExactlyTheExpired(s.rows, retention, now);
    PruneKeepsBalance(s, retention, now);
    if s.host.Holding? || s.host.Committed? {
      assert BatchAgrees(s', s.host.unit, s.host.batch);
    }
    assert forall ev :: Arrived(s, ev) ==> Arrived(s', ev);
  }

  /** Every step of the protocol keeps the invariant. */
  lemma NextKeeps(s: System, step: Step)
    requires Valid(s)
    ensures Valid(Next(s, step))
  {
    match step
    case PhoneStep(unit, op) =>
      if unit in s.phones && OwnStep(op) {
        OnPhoneKeeps(s, unit, op);
      }
    case HostDrain(unit, damage) => DrainKeeps(s, unit, damage);
    case HostCommit(at) => CommitKeeps(s, at);
    case HostAck => AckKeeps(s);
    case HostCrash => assert forall ev :: Arrived(s, ev) ==> Arrived(s.(host := Idle), ev);
    case HostSend(unit, address, body, ts, now) => SendKeeps(s, unit, address, body, ts, now);
    case HostPrune(retention, now) => PruneKeeps(s, retention, now);
  }

  lemma {:induction false} RunKeeps(s: System, steps: seq<Step>)
    requires Valid(s)
    ensures Valid(Run(s, steps))
  {
    if steps != [] {
      RunKeeps(s, steps[..|steps| - 1]);
      NextKeeps(Run(s, steps[..|steps| - 1]), steps[|steps| - 1]);
    }
  }

  lemma StartedIsValid(sequences: map<string, nat>)
    ensures Valid(Started(sequences))
  {
    forall u | u in sequences
      ensures PhoneValid(Phone.Opened(sequences[u]))
    {
      Phone.OpenedIsValid(sequences[u]);
    }
  }

  // ------------------------------------------------------------- main results

  /**
   * At-least-once: in every run, an event a phone recorded is still on the phone,
   * or was committed, or is one of those the phone itself gave up (counted at the
   * cap, or deleted by a reset), or its line could not be read when its batch was
   * committed; and without such lines none is skipped.
   */
  lemma NothingIsLost(sequences: map<string, nat>, steps: seq<Step>, unit: string, e: Phone.Spooled)
    ensures var s := Run(Started(sequences), steps);
            unit in s.phones && e in s.phones[unit].recorded ==>
              || e in Phone.Pending(s.phones[unit].files)
              || (exists ev :: ev in s.committed && Tells(ev, unit, e))
              || e in s.phones[unit].dropped
              || e in s.phones[unit].discarded
              || (exists ev :: ev in s.skipped && Tells(ev, unit, e))
    ensures Undamaged(steps) ==> Run(Started(sequences), steps).skipped == []
  {
    var s := Run(Started(sequences), steps);
    StartedIsValid(sequences);
    RunKeeps(Started(sequences), steps);
    if unit in s.phones && e in s.phones[unit].recorded {
      var l := s.phones[unit];
      assert PhoneValid(l);
      assert Phone.Count(l.recorded, e) == Phone.Places(l, e);
      Phone.CountedIfPresent(l.recorded, e);
      Phone.CountedIfPresent(l.acked, e);
      Phone.CountedIfPresent(l.dropped, e);
      Phone.CountedIfPresent(l.discarded, e);
      Phone.CountedIfPresent(Phone.Lines(l.files.inflight), e);
      Phone.CountedIfPresent(Phone.Lines(l.files.spool), e);
      HostEventTells(unit, e);
    }
    if Undamaged(steps) {
      UndamagedSkipsNothing(Started(sequences), steps);
    }
  }

  predicate Undamaged(steps: seq<Step>) {
    forall step :: step in steps && step.HostDrain? ==> step.damage == map[]
  }

  lemma {:induction false} UndamagedSkipsNothing(s: System, steps: seq<Step>)
    requires Undamaged(steps) && s.skipped == [] && (s.host.Holding? ==> s.host.damage == map[])
    ensures var s' := Run(s, steps);
            s'.skipped == [] && (s'.host.Holding? ==> s'.host.damage == map[])
  {
    if steps != [] {
      var init, last := steps[..|steps| - 1], steps[|steps| - 1];
      assert last in steps;
      UndamagedSkipsNothing(s, init);
      var mid := Run(s, init);
      if last.HostCommit? && mid.host.Holding? && mid.host.batch != [] {
        KeptOrSpoilt(mid.host.batch, map[], mid.host.batch[0]);
      }
    }
  }

  /** An ack never deletes an event that was not committed before it, unless its line could not be read. */
  lemma AckDeletesOnlyCommitted(sequences: map<string, nat>, steps: seq<Step>, unit: string, e: Phone.Spooled)
    ensures var s := Run(Started(sequences), steps);
            unit in s.phones
            && e in Phone.Pending(s.phones[unit].files)
            && e !in Phone.Pending(Next(s, HostAck).phones[unit].files)
            ==> exists ev :: (ev in s.committed || ev in s.skipped) && Tells(ev, unit, e)
    ensures Undamaged(steps) ==> Run(Started(sequences), steps).skipped == []
  {
    var s := Run(Started(sequences), steps);
    StartedIsValid(sequences);
    RunKeeps(Started(sequences), steps);
    AckDeletesTheBatch(s, unit, e);
    HostEventTells(unit, e);
    if Undamaged(steps) {
      UndamagedSkipsNothing(Started(sequences), steps);
    }
  }

  lemma AckDeletesTheBatch(s: System, unit: string, e: Phone.Spooled)
    requires HostAgrees(s)
    ensures unit in s.phones
            && e in Phone.Pending(s.phones[unit].files)
            && e !in Phone.Pending(Next(s, HostAck).phones[unit].files)
            ==> Settled(s, HostEvent(unit, e))
  {
    if s.host.Committed? && s.host.unit == unit && unit in s.phones {
      assert BatchAgrees(s, unit, s.host.batch);
      var files := s.phones[unit].files;
      assert Next(s, HostAck).phones[unit].files == Phone.AfterAck(files);
      assert Phone.Pending(Phone.AfterAck(files)) == Phone.Lines(files.spool);
      if e in Phone.Pending(files) && e !in Phone.Lines(files.spool) {
        assert e in Phone.Lines(files.inflight);
      }
    }
  }

  /**
   * And nothing else is: what the host committed, and every row of an arrival,
   * tells of an event its phone recorded.
   */
  lemma StoredTellsWhatWasRecorded(sequences: map<string, nat>, steps: seq<Step>, ev: Event, r: Row)
    ensures var s := Run(Started(sequences), steps);
            ev in s.committed || (r in s.rows && r.event == ev && ev.sourceId > 0) ==>
              ev.unit in s.phones && exists e :: e in s.phones[ev.unit].recorded && Tells(ev, ev.unit, e)
  {
    var s := Run(Started(sequences), steps);
    StartedIsValid(sequences);
    RunKeeps(Started(sequences), steps);
    if ev in s.committed || (r in s.rows && r.event == ev && ev.sourceId > 0) {
      assert Arrived(s, ev);
      var e :| e in s.phones[ev.unit].recorded && HostEvent(ev.unit, e) == ev;
      HostEventTells(ev.unit, e);
    }
  }

  lemma SameKeySameEvent(s: System, a: Event, b: Event)
    requires PhonesValid(s) && Arrived(s, a) && Arrived(s, b) && KeyOf(a) == KeyOf(b)
    ensures a == b && a.sourceId >= 1
  {
    var l := s.phones[a.unit];
    assert PhoneValid(l);
    var d :| d in l.recorded && HostEvent(a.unit, d) == a;
    var e :| e in l.recorded && HostEvent(b.unit, e) == b;
    var i :| 0 <= i < |l.recorded| && l.recorded[i] == d;
    var j :| 0 <= j < |l.recorded| && l.recorded[j] == e;
  }

  /**
   * `INSERT OR IGNORE` drops only duplicates: when the key of an event the host
   * holds is already stored, the stored row is a copy of that very event.
   */
  lemma IgnoredInsertIsACopy(sequences: map<string, nat>, steps: seq<Step>, e: Phone.Spooled, r: Row)
    ensures var s := Run(Started(sequences), steps);
            s.host.Holding? && e in s.host.batch && r in s.rows
            && r.event.unit == s.host.unit && r.event.kind == e.payload.kind && r.event.sourceId == e.id
            ==> Tells(r.event, s.host.unit, e)
  {
    var s := Run(Started(sequences), steps);
    StartedIsValid(sequences);
    RunKeeps(Started(sequences), steps);
    if s.host.Holding? && e in s.host.batch && r in s.rows
       && r.event.unit == s.host.unit && r.event.kind == e.payload.kind && r.event.sourceId == e.id {
      assert BatchAgrees(s, s.host.unit, s.host.batch);
      var ev := HostEvent(s.host.unit, e);
      assert Arrived(s, ev);
      SameKeySameEvent(s, ev, ev);
      assert r.event in s.committed;
      SameKeySameEvent(s, r.event, ev);
    }
  }

  /**
   * Exactly-once storage: an arrival has been reported new as often as its row
   * was pruned, once more if its row is there now; so at most once between prunes.
   */
  lemma ReportedOnceBetweenPrunes(sequences: map<string, nat>, steps: seq<Step>, k: Key)
    requires k.sourceId > 0
    ensures var s := Run(Started(sequences), steps);
            EventsWith(s.reported, k) == (if HasKey(s.rows, k) then 1 else 0) + RowsWith(s.pruned, k)
    ensures (forall step :: step in steps ==> !step.HostPrune?)
            ==> EventsWith(Run(Started(sequences), steps).reported, k) <= 1
  {
    var s := Run(Started(sequences), steps);
    StartedIsValid(sequences);
    RunKeeps(Started(sequences), steps);
    RowsWithIsPresence(s.rows, k);
    if forall step :: step in steps ==> !step.HostPrune? {
      NoPruneNoneGone(Started(sequences), steps);
    }
  }

  lemma {:induction false} NoPruneNoneGone(s: System, steps: seq<Step>)
    requires forall step :: step in steps ==> !step.HostPrune?
    ensures Run(s, steps).pruned == s.pruned
  {
    if steps != [] {
      NoPruneNoneGone(s, steps[..|steps| - 1]);
      assert steps[|steps| - 1] in steps;
    }
  }

  lemma RunExtends(s: System, steps: seq<Step>, step: Step)
    ensures Run(s, steps + [step]) == Next(Run(s, steps), step)
  {
    assert (steps + [step])[..|steps|] == steps;
  }

  function FirstDrain(p: Phone.Payload): seq<Step> {
    [PhoneStep("u", Phone.Record(p, 0, 1))] + [HostDrain("u", map[])]
  }

  function FirstDelivery(p: Phone.Payload): seq<Step> {
    FirstDrain(p) + [HostCommit(0)] + [HostAck]
  }

  lemma OneLine(e: Phone.Spooled)
    ensures Received([e], map[]) == [Good(e)]
    ensures UsableEvents("u", Received([e], map[])) == [HostEvent("u", e)]
    ensures !AllBlank(Received([e], map[])) && !Raises(Received([e], map[]))
  {
    var lines := Received([e], map[]);
    assert lines == [Good(e)];
    assert lines[..0] == [] && Good(e) in lines;
  }

  lemma FirstDrainHandsOut(p: Phone.Payload)
    ensures var s := Run(Started(map["u" := 0]), FirstDrain(p)); var e := Phone.Spooled(1, p);
            && s.phones == map["u" := Phone.Ledger(Phone.Files(1, None, Some([e]), 0), [e], [], [], [])]
            && s.host == Holding("u", [e], map[])
            && s.committed == []
  {
    var e := Phone.Spooled(1, p);
    var s0 := Started(map["u" := 0]);
    var record := PhoneStep("u", Phone.Record(p, 0, 1));
    RunExtends(s0, [], record);
    assert [] + [record] == [record];
    var s1 := Next(s0, record);
    assert s1.phones["u"] == Phone.Ledger(Phone.Files(1, Some([e]), None, 0), [e], [], [], []);
    RunExtends(s0, [record], HostDrain("u", map[]));
    OneLine(e);
  }

  lemma FirstDeliveryEmptiesThePhone(p: Phone.Payload)
    ensures var s := Run(Started(map["u" := 0]), FirstDelivery(p)); var e := Phone.Spooled(1, p);
            && s.phones == map["u" := Phone.Ledger(Phone.Files(1, None, None, 0), [e], [e], [], [])]
            && s.host == Idle
            && s.committed == [HostEvent("u", e)]
  {
    var s0, e := Started(map["u" := 0]), Phone.Spooled(1, p);
    FirstDrainHandsOut(p);
    var s2 := Run(s0, FirstDrain(p));
    RunExtends(s0, FirstDrain(p), HostCommit(0));
    var s3 := Next(s2, HostCommit(0));
    OneLine(e);
    assert s3.phones == s2.phones && s3.host == Committed("u", [e]);
    RunExtends(s0, FirstDrain(p) + [HostCommit(0)], HostAck);
    var l := Phone.Step(s2.phones["u"], Phone.Ack);
    assert l.acked == [e];
    assert Next(s3, HostAck).phones == map["u" := l];
  }

  /**
   * Why a device command must take effect before it returns or never: one more
   * ack reaching the phone late, when the next batch has been handed out, deletes
   * an event the host never committed.
   */
  lemma LateAckDeletesAnUncommittedEvent(p: Phone.Payload)
    ensures var second := [PhoneStep("u", Phone.Record(p, 0, 1))] + [HostDrain("u", map[])] + [HostCrash];
            var s := Run(Run(Started(map["u" := 0]), FirstDelivery(p)), second);
            var e := Phone.Spooled(2, p);
            && "u" in s.phones
            && e in Phone.Pending(s.phones["u"].files)
            && HostEvent("u", e) !in s.committed
            && e !in Phone.Pending(OnPhone(s, "u", Phone.Ack).phones["u"].files)
  {
    FirstDeliveryEmptiesThePhone(p);
    var e := Phone.Spooled(2, p);
    var s0 := Run(Started(map["u" := 0]), FirstDelivery(p));
    var record := PhoneStep("u", Phone.Record(p, 0, 1));
    RunExtends(s0, [], record);
    assert [] + [record] == [record];
    assert Next(s0, record).phones["u"].files == Phone.Files(2, Some([e]), None, 0);
    RunExtends(s0, [record], HostDrain("u", map[]));
    OneLine(e);
    RunExtends(s0, [record] + [HostDrain("u", map[])], HostCrash);
  }
}

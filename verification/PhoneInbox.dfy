/**
 * The phone's spool (Inbox.kt): ids are handed out, events are appended to one
 * file, rotated into a second, and deleted only on ack.
 */
module PhoneInbox {
  import opened Prelude

  /** What the phone reports about one event, before it has an id. */
  datatype Payload = Payload(
    kind: string,
    address: Option<string>,
    body: Option<string>,
    ts: Option<int>,
    direction: Option<string>,
    duration: Option<int>)

  datatype Spooled = Spooled(id: int, payload: Payload)

  /** A file that does not exist is None; one line of a file is one event. */
  datatype Files = Files(
    sequence: int,
    spool: Option<seq<Spooled>>,
    inflight: Option<seq<Spooled>>,
    dropped: nat)

  /** Config.inboxCap is coerced to at least one. */
  type Cap = c: int | c >= 1 witness 1

  function Lines(file: Option<seq<Spooled>>): seq<Spooled> {
    file.GetOr([])
  }

  /** What the phone still owes the host, oldest first. */
  function Pending(f: Files): seq<Spooled> {
    Lines(f.inflight) + Lines(f.spool)
  }

  function ClockSeconds(clockMs: int): int {
    TruncDiv(clockMs, 1000)
  }

  function NextId(sequence: int, clockMs: int): int {
    Max(sequence + 1, ClockSeconds(clockMs))
  }

  function AfterRecord(f: Files, payload: Payload, clockMs: int, cap: Cap): Files {
    var id := NextId(f.sequence, clockMs);
    var lines := Lines(f.spool) + [Spooled(id, payload)];
    var excess := Max(0, |lines| - cap);
    f.(sequence := id, spool := Some(lines[excess..]), dropped := f.dropped + excess)
  }

  function AfterDrain(f: Files): Files {
    if f.inflight.None? && f.spool.Some? then f.(spool := None, inflight := f.spool) else f
  }

  function AfterAck(f: Files): Files {
    f.(inflight := None)
  }

  function AfterReset(f: Files): Files {
    f.(spool := None, inflight := None)
  }

  /** The object itself: two files and two stored counters, changed in place. */
  class Inbox {
    var sequence: int
    var spool: Option<seq<Spooled>>
    var inflight: Option<seq<Spooled>>
    var dropped: nat

    function State(): Files
      reads this
    {
      Files(sequence, spool, inflight, dropped)
    }

    constructor (initialSequence: int)
      ensures State() == Files(initialSequence, None, None, 0)
    {
      sequence, spool, inflight, dropped := initialSequence, None, None, 0;
    }

    method TakeId(clockMs: int) returns (id: int)
      modifies this`sequence
      ensures id == sequence == NextId(old(sequence), clockMs)
    {
      id := Max(sequence + 1, ClockSeconds(clockMs));
      sequence := id;
    }

    method Record(payload: Payload, clockMs: int, cap: Cap) returns (id: int)
      modifies this
      ensures State() == AfterRecord(old(State()), payload, clockMs, cap)
      ensures id == sequence
    {
      id := TakeId(clockMs);
      spool := Some(Lines(spool) + [Spooled(id, payload)]);
      Trim(cap);
    }

    method Trim(cap: Cap)
      requires spool.Some?
      modifies this`spool, this`dropped
      ensures var excess := Max(0, |Lines(old(spool))| - cap);
              && spool == Some(Lines(old(spool))[excess..])
              && dropped == old(dropped) + excess
    {
      var lines := spool.value;
      if |lines| > cap {
        var gone := |lines| - cap;
        spool := Some(lines[gone..]);
        dropped := dropped + gone;
      }
    }

    method Drain() returns (text: seq<Spooled>)
      modifies this
      ensures State() == AfterDrain(old(State()))
      ensures text == Lines(inflight)
    {
      if inflight.None? {
        if spool.None? {
          return [];
        }
        inflight, spool := spool, None;
      }
      text := Lines(inflight);
    }

    method Ack()
      modifies this`inflight
      ensures State() == AfterAck(old(State()))
    {
      inflight := None;
    }

    method Reset()
      modifies this`spool, this`inflight
      ensures State() == AfterReset(old(State()))
    {
      spool := None;
      inflight := None;
    }

    method Peek() returns (text: seq<Spooled>)
      ensures text == Pending(State())
    {
      text := Lines(inflight) + Lines(spool);
    }
  }

  // ---------------------------------------------------------------- histories

  datatype Op =
    | Record(payload: Payload, clockMs: int, cap: Cap)
    | Drain
    | Ack
    | Reset

  /**
   * The files together with what an observer of the files has seen: every event
   * recorded, and every event that left a file, filed under the operation that
   * removed it.
   */
  datatype Ledger = Ledger(
    files: Files,
    recorded: seq<Spooled>,
    acked: seq<Spooled>,
    dropped: seq<Spooled>,
    discarded: seq<Spooled>)

  function Opened(initialSequence: int): Ledger {
    Ledger(Files(initialSequence, None, None, 0), [], [], [], [])
  }

  function Step(l: Ledger, op: Op): Ledger {
    match op
    case Record(payload, clockMs, cap) =>
      var after := AfterRecord(l.files, payload, clockMs, cap);
      var offered := Lines(l.files.spool) + [Spooled(after.sequence, payload)];
      l.(files := after,
         recorded := l.recorded + [Spooled(after.sequence, payload)],
         dropped := l.dropped + offered[..|offered| - |Lines(after.spool)|])
    case Drain => l.(files := AfterDrain(l.files))
    case Ack => l.(files := AfterAck(l.files), acked := l.acked + Lines(l.files.inflight))
    case Reset => l.(files := AfterReset(l.files), discarded := l.discarded + Pending(l.files))
  }

  function Run(l: Ledger, ops: seq<Op>): Ledger {
    if ops == [] then l else Step(Run(l, ops[..|ops| - 1]), ops[|ops| - 1])
  }

  ghost predicate IdsClimb(s: seq<Spooled>) {
    forall i, j :: 0 <= i < j < |s| ==> s[i].id < s[j].id
  }

  /** The in-flight file is an unbroken stretch of the record, older than the spool. */
  ghost predicate InFlightAt(l: Ledger, a: nat) {
    && a + |Lines(l.files.inflight)| + |Lines(l.files.spool)| <= |l.recorded|
    && Lines(l.files.inflight) == l.recorded[a..a + |Lines(l.files.inflight)|]
  }

  /** The spool is exactly the newest part of the record. */
  ghost predicate SpoolIsNewest(l: Ledger) {
    && |Lines(l.files.spool)| <= |l.recorded|
    && Lines(l.files.spool) == l.recorded[|l.recorded| - |Lines(l.files.spool)|..]
  }

  function Count(s: seq<Spooled>, e: Spooled): nat {
    if s == [] then 0 else Count(s[..|s| - 1], e) + (if s[|s| - 1] == e then 1 else 0)
  }

  /** How many copies of an event there are, over all the places it can be. */
  function Places(l: Ledger, e: Spooled): nat {
    Count(l.acked, e) + Count(l.dropped, e) + Count(l.discarded, e)
    + Count(Lines(l.files.inflight), e) + Count(Lines(l.files.spool), e)
  }

  ghost predicate Conserved(l: Ledger) {
    forall e :: Count(l.recorded, e) == Places(l, e)
  }

  ghost predicate Valid(l: Ledger) {
    && IdsClimb(l.recorded)
    && (forall e :: e in l.recorded ==> e.id <= l.files.sequence)
    && SpoolIsNewest(l)
    && (exists a: nat :: InFlightAt(l, a))
    && Conserved(l)
    && l.files.dropped == |l.dropped|
    && l.files.spool != Some([])
    && l.files.inflight != Some([])
  }

  /** What a record offers the spool, and what the cap cuts off its front. */
  lemma RecordMovesTheWindow(l: Ledger, payload: Payload, clockMs: int, cap: Cap)
    requires SpoolIsNewest(l)
    ensures var l' := Step(l, Record(payload, clockMs, cap));
            var offered := Lines(l.files.spool) + [Spooled(l'.files.sequence, payload)];
            var excess := Max(0, |offered| - cap);
            && Lines(l'.files.spool) == offered[excess..]
            && l'.dropped == l.dropped + offered[..excess]
            && offered == l'.recorded[|l'.recorded| - |offered|..]
            && SpoolIsNewest(l')
  {
    var l' := Step(l, Record(payload, clockMs, cap));
    var e := Spooled(l'.files.sequence, payload);
    var offered := Lines(l.files.spool) + [e];
    var excess := Max(0, |offered| - cap);
    NewestExtends(l.recorded, Lines(l.files.spool), e, excess);
    assert Lines(l'.files.spool) == offered[excess..];
    assert |offered| - |Lines(l'.files.spool)| == excess;
  }

  lemma NewestExtends(recorded: seq<Spooled>, spool: seq<Spooled>, e: Spooled, excess: nat)
    requires |spool| <= |recorded| && spool == recorded[|recorded| - |spool|..] && excess <= |spool| + 1
    ensures spool + [e] == (recorded + [e])[|recorded| - |spool|..]
    ensures (spool + [e])[excess..] == (recorded + [e])[|recorded| - |spool| + excess..]
  {}

  lemma {:induction false} Counted(a: seq<Spooled>, b: seq<Spooled>, e: Spooled)
    ensures Count(a + b, e) == Count(a, e) + Count(b, e)
  {
    if b == [] {
      assert a + b == a;
    } else {
      Counted(a, b[..|b| - 1], e);
      assert (a + b)[..|a + b| - 1] == a + b[..|b| - 1];
    }
  }

  lemma {:induction false} CountedIfPresent(s: seq<Spooled>, e: Spooled)
    ensures e in s <==> Count(s, e) > 0
  {
    if s != [] {
      CountedIfPresent(s[..|s| - 1], e);
      assert s == s[..|s| - 1] + [s[|s| - 1]];
    }
  }

  lemma RecordConserves(l: Ledger, payload: Payload, clockMs: int, cap: Cap)
    requires SpoolIsNewest(l) && Conserved(l)
    ensures Conserved(Step(l, Record(payload, clockMs, cap)))
  {
    var l' := Step(l, Record(payload, clockMs, cap));
    RecordMovesTheWindow(l, payload, clockMs, cap);
    var arrival := [Spooled(l'.files.sequence, payload)];
    var offered := Lines(l.files.spool) + arrival;
    var excess := Max(0, |offered| - cap);
    assert offered == offered[..excess] + offered[excess..];
    forall e
      ensures Count(l'.recorded, e) == Places(l', e)
    {
      assert Count(l.recorded, e) == Places(l, e);
      Counted(l.recorded, arrival, e);
      Counted(Lines(l.files.spool), arrival, e);
      Counted(offered[..excess], offered[excess..], e);
      Counted(l.dropped, offered[..excess], e);
    }
  }

  lemma RecordKeepsInFlight(l: Ledger, payload: Payload, clockMs: int, cap: Cap, a: nat)
    requires InFlightAt(l, a)
    ensures InFlightAt(Step(l, Record(payload, clockMs, cap)), a)
  {
    var l' := Step(l, Record(payload, clockMs, cap));
    var n := |Lines(l.files.inflight)|;
    assert l'.recorded[a..a + n] == l.recorded[a..a + n];
  }

  lemma RecordKeeps(l: Ledger, payload: Payload, clockMs: int, cap: Cap)
    requires Valid(l)
    ensures Valid(Step(l, Record(payload, clockMs, cap)))
    ensures |Lines(Step(l, Record(payload, clockMs, cap)).files.spool)| <= cap
  {
    var l' := Step(l, Record(payload, clockMs, cap));
    assert Conserved(l') by {
      RecordConserves(l, payload, clockMs, cap);
    }
    RecordMovesTheWindow(l, payload, clockMs, cap);
    var a: nat :| InFlightAt(l, a);
    RecordKeepsInFlight(l, payload, clockMs, cap, a);
  }

  lemma DrainKeeps(l: Ledger)
    requires Valid(l)
    ensures Valid(Step(l, Drain))
  {
    var l' := Step(l, Drain);
    var a: nat :| InFlightAt(l, a);
    if l.files.inflight.None? && l.files.spool.Some? {
      assert InFlightAt(l', |l.recorded| - |Lines(l.files.spool)|);
    } else {
      assert InFlightAt(l', a);
    }
    forall e
      ensures Count(l'.recorded, e) == Places(l', e)
    {
      assert Count(l.recorded, e) == Places(l, e);
    }
  }

  lemma DeletionConserves(l: Ledger, op: Op)
    requires Conserved(l) && (op.Ack? || op.Reset?)
    ensures Conserved(Step(l, op))
  {
    var l' := Step(l, op);
    forall e
      ensures Count(l'.recorded, e) == Places(l', e)
    {
      assert Count(l.recorded, e) == Places(l, e);
      Counted(l.acked, Lines(l.files.inflight), e);
      Counted(l.discarded, Pending(l.files), e);
      Counted(Lines(l.files.inflight), Lines(l.files.spool), e);
    }
  }

  lemma DeletionKeeps(l: Ledger, op: Op)
    requires Valid(l) && (op.Ack? || op.Reset?)
    ensures Valid(Step(l, op))
  {
    var a: nat :| InFlightAt(l, a);
    assert InFlightAt(Step(l, op), a);
    DeletionConserves(l, op);
  }

  lemma StepKeeps(l: Ledger, op: Op)
    requires Valid(l)
    ensures Valid(Step(l, op))
  {
    match op
    case Record(payload, clockMs, cap) => RecordKeeps(l, payload, clockMs, cap);
    case Drain => DrainKeeps(l);
    case Ack => DeletionKeeps(l, op);
    case Reset => DeletionKeeps(l, op);
  }

  lemma {:induction false} RunKeeps(l: Ledger, ops: seq<Op>)
    requires Valid(l)
    ensures Valid(Run(l, ops))
  {
    if ops != [] {
      RunKeeps(l, ops[..|ops| - 1]);
      StepKeeps(Run(l, ops[..|ops| - 1]), ops[|ops| - 1]);
    }
  }

  lemma OpenedIsValid(initialSequence: int)
    ensures Valid(Opened(initialSequence))
  {
    var l := Opened(initialSequence);
    assert InFlightAt(l, 0);
    assert Lines(l.files.spool) == [] && Lines(l.files.inflight) == [];
    assert Conserved(l);
  }

  lemma {:induction false} OnceInAClimb(s: seq<Spooled>, e: Spooled)
    requires IdsClimb(s)
    ensures Count(s, e) == if e in s then 1 else 0
  {
    if s != [] {
      var init := s[..|s| - 1];
      assert s == init + [s[|s| - 1]];
      OnceInAClimb(init, e);
    }
  }

  /**
   * Conservation: after any operations, every recorded event is in exactly one
   * place, nothing is anywhere that was not recorded, and what is pending is in
   * the order it was recorded.
   */
  lemma EveryEventIsInOnePlace(initialSequence: int, ops: seq<Op>, e: Spooled)
    ensures var l := Run(Opened(initialSequence), ops);
            && Places(l, e) == (if e in l.recorded then 1 else 0)
            && IdsClimb(Pending(l.files))
            && l.files.dropped == |l.dropped|
  {
    var l := Run(Opened(initialSequence), ops);
    OpenedIsValid(initialSequence);
    RunKeeps(Opened(initialSequence), ops);
    OnceInAClimb(l.recorded, e);
    PendingClimbs(l);
  }

  lemma PendingClimbs(l: Ledger)
    requires Valid(l)
    ensures IdsClimb(Pending(l.files))
    ensures forall e :: e in Pending(l.files) ==> e in l.recorded
  {
    var a: nat :| InFlightAt(l, a);
    PiecesClimb(l.recorded, a, |Lines(l.files.inflight)|, |l.recorded| - |Lines(l.files.spool)|);
  }

  /** Two pieces of a climbing sequence, the later one running to its end. */
  lemma PiecesClimb(s: seq<Spooled>, a: nat, n: nat, c: nat)
    requires IdsClimb(s) && a + n <= c <= |s|
    ensures IdsClimb(s[a..a + n] + s[c..])
    ensures forall e :: e in s[a..a + n] + s[c..] ==> e in s
  {
    var p := s[a..a + n] + s[c..];
    forall i, j | 0 <= i < j < |p|
      ensures p[i].id < p[j].id
    {
      var x, y := if i < n then a + i else c + (i - n), if j < n then a + j else c + (j - n);
      assert p[i] == s[x] && p[j] == s[y];
    }
  }

  /** The spool fits the cap after every record, and only a full spool drops. */
  lemma TrimDropsOnlyTheOldest(l: Ledger, payload: Payload, clockMs: int, cap: Cap)
    requires Valid(l)
    ensures var l' := Step(l, Record(payload, clockMs, cap));
            && |Lines(l'.files.spool)| <= cap
            && (|l'.dropped| != |l.dropped| ==> |Lines(l'.files.spool)| == cap)
            && (forall gone, kept :: gone in l'.dropped[|l.dropped|..] && kept in Lines(l'.files.spool)
                                    ==> gone.id < kept.id)
  {
    var l' := Step(l, Record(payload, clockMs, cap));
    var offered := Lines(l.files.spool) + [Spooled(l'.files.sequence, payload)];
    var excess := Max(0, |offered| - cap);
    RecordMovesTheWindow(l, payload, clockMs, cap);
    assert IdsClimb(l'.recorded) by {
      RecordKeeps(l, payload, clockMs, cap);
    }
    SuffixClimbs(l'.recorded, offered);
    ClimbSplits(offered, excess);
    TailOfJoin(l.dropped, offered[..excess]);
  }

  lemma TailOfJoin(a: seq<Spooled>, b: seq<Spooled>)
    ensures (a + b)[|a|..] == b
  {}

  lemma SuffixClimbs(s: seq<Spooled>, suffix: seq<Spooled>)
    requires IdsClimb(s) && |suffix| <= |s| && suffix == s[|s| - |suffix|..]
    ensures IdsClimb(suffix)
  {}

  lemma ClimbSplits(s: seq<Spooled>, k: nat)
    requires k <= |s| && IdsClimb(s)
    ensures forall gone, kept :: gone in s[..k] && kept in s[k..] ==> gone.id < kept.id
  {}

  predicate Keeps(op: Op) {
    !op.Ack? && !op.Reset?
  }

  /** Until it is acked or reset, a batch handed out is handed out again unchanged. */
  lemma {:induction false} UnackedBatchNeverChanges(l: Ledger, ops: seq<Op>)
    requires l.files.inflight.Some?
    requires forall op :: op in ops ==> Keeps(op)
    ensures Run(l, ops).files.inflight == l.files.inflight
    ensures AfterDrain(Run(l, ops).files).inflight == l.files.inflight
  {
    if ops != [] {
      UnackedBatchNeverChanges(l, ops[..|ops| - 1]);
      assert Keeps(ops[|ops| - 1]);
    }
  }

  /**
   * A drain hands out the oldest of what is pending, as long as anything is, and
   * the ack after it deletes exactly that; so a second round leaves nothing.
   */
  lemma TwoRoundsEmptyThePhone(initialSequence: int, ops: seq<Op>)
    ensures var f := Run(Opened(initialSequence), ops).files;
            var batch := Lines(AfterDrain(f).inflight);
            && batch <= Pending(f) && Pending(AfterDrain(f)) == Pending(f)
            && (Pending(f) != [] ==> batch != [])
            && Pending(AfterAck(AfterDrain(f))) == Pending(f)[|batch|..]
            && Pending(AfterAck(AfterDrain(AfterAck(AfterDrain(f))))) == []
  {
    OpenedIsValid(initialSequence);
    RunKeeps(Opened(initialSequence), ops);
    var f := Run(Opened(initialSequence), ops).files;
    OneRound(f);
    OneRound(AfterAck(AfterDrain(f)));
  }

  lemma OneRound(f: Files)
    requires f.spool != Some([]) && f.inflight != Some([])
    ensures var batch := Lines(AfterDrain(f).inflight); var f' := AfterAck(AfterDrain(f));
            && batch <= Pending(f) && Pending(AfterDrain(f)) == Pending(f)
            && (Pending(f) != [] ==> batch != [])
            && Pending(f') == Pending(f)[|batch|..]
            && f'.spool != Some([]) && f'.inflight == None
            && (f.inflight == None ==> Pending(f') == [])
  {}

  // ---------------------------------------------------------------------- ids

  /** The last id handed out when the clock read `clocks` at successive records. */
  function IdAfter(initial: int, clocks: seq<int>): int {
    if clocks == [] then initial
    else NextId(IdAfter(initial, clocks[..|clocks| - 1]), clocks[|clocks| - 1])
  }

  function ClocksOf(ops: seq<Op>): seq<int> {
    if ops == [] then []
    else
      var last := ops[|ops| - 1];
      ClocksOf(ops[..|ops| - 1]) + (if last.Record? then [last.clockMs] else [])
  }

  /** Every recorded event carries the id that the clock readings so far determine. */
  lemma {:induction false} RecordedIds(initial: int, ops: seq<Op>)
    ensures var l := Run(Opened(initial), ops); var clocks := ClocksOf(ops);
            && |l.recorded| == |clocks|
            && l.files.sequence == IdAfter(initial, clocks)
            && forall i :: 0 <= i < |clocks| ==> l.recorded[i].id == IdAfter(initial, clocks[..i + 1])
  {
    if ops != [] {
      var init, last := ops[..|ops| - 1], ops[|ops| - 1];
      RecordedIds(initial, init);
      var l := Run(Opened(initial), ops);
      var before, clocks := ClocksOf(init), ClocksOf(ops);
      if last.Record? {
        assert clocks == before + [last.clockMs];
        OneMoreId(initial, before, last.clockMs);
        forall i | 0 <= i < |clocks|
          ensures l.recorded[i].id == IdAfter(initial, clocks[..i + 1])
        {
          if i < |before| {
            assert clocks[..i + 1] == before[..i + 1];
          } else {
            assert clocks[..i + 1] == clocks;
          }
        }
      } else {
        assert clocks == before;
      }
    }
  }

  lemma OneMoreId(initial: int, clocks: seq<int>, clockMs: int)
    ensures IdAfter(initial, clocks + [clockMs]) == NextId(IdAfter(initial, clocks), clockMs)
  {
    assert (clocks + [clockMs])[..|clocks|] == clocks;
  }

  /**
   * The n-th id is the larger of `initial + n` and every clock reading plus the
   * number of events recorded after it: an upper bound of them all, and one of them.
   */
  lemma {:induction false} NthIdClosedForm(initial: int, clocks: seq<int>)
    ensures var id := IdAfter(initial, clocks); var n := |clocks|;
            && id >= initial + n
            && (forall k :: 0 <= k < n ==> id >= TruncDiv(clocks[k], 1000) + (n - 1 - k))
            && (id == initial + n
                || exists k :: 0 <= k < n && id == TruncDiv(clocks[k], 1000) + (n - 1 - k))
  {
    if clocks != [] {
      var n := |clocks|;
      var init := clocks[..n - 1];
      NthIdClosedForm(initial, init);
      var prev, id := IdAfter(initial, init), IdAfter(initial, clocks);
      if id == ClockSeconds(clocks[n - 1]) {
        assert id == ClockSeconds(clocks[n - 1]) + (n - 1 - (n - 1));
      } else if prev != initial + (n - 1) {
        var k :| 0 <= k < n - 1 && prev == ClockSeconds(init[k]) + (n - 1 - 1 - k);
        assert id == ClockSeconds(clocks[k]) + (n - 1 - k);
      }
    }
  }

  /** Ids climb strictly whatever the clock does, backwards jumps included. */
  lemma {:induction false} IdsAlwaysClimb(initial: int, clocks: seq<int>, i: nat, j: nat)
    requires i < j <= |clocks|
    ensures IdAfter(initial, clocks[..i]) < IdAfter(initial, clocks[..j])
    decreases j
  {
    assert clocks[..j][..j - 1] == clocks[..j - 1];
    if i < j - 1 {
      IdsAlwaysClimb(initial, clocks, i, j - 1);
    }
  }

  /**
   * After the stored sequence falls back to some earlier value, or to zero when it
   * is wiped, all new ids stay above every id issued before exactly when the value
   * it fell back to, or the clock at the next record, has not fallen behind those.
   */
  lemma FallenBackSequenceStaysAbove(stored: int, lastIssued: int, clocks: seq<int>)
    requires clocks != []
    ensures (forall n :: 1 <= n <= |clocks| ==> IdAfter(stored, clocks[..n]) > lastIssued)
            <==> stored >= lastIssued || TruncDiv(clocks[0], 1000) > lastIssued
  {
    assert clocks[..1][..0] == [];
    assert IdAfter(stored, clocks[..1]) == NextId(stored, clocks[0]);
    forall n | 1 < n <= |clocks|
      ensures IdAfter(stored, clocks[..n]) > IdAfter(stored, clocks[..1])
    {
      IdsAlwaysClimb(stored, clocks, 1, n);
    }
  }
}

/**
 * The drain loop (drain.py) as an object over the store and the attached phones.
 * Every method is tied to the protocol steps it takes, so what Delivery proves of
 * all runs holds of every sequence of calls, wherever each call breaks off.
 */
module DrainLoop {
  import opened Prelude
  import Phone = PhoneInbox
  import opened EventStore
  import opened Delivery

  const PRUNE_INTERVAL_SECONDS := 60 * 60

  /**
   * Where one drain of a unit breaks off. A lost drain reply leaves the rotation
   * done; a lost ack reply leaves the deletion done; a failed ack did nothing.
   */
  datatype Fault = NoFault | Unreachable | DrainReplyLost | StoreFails | AckFails | AckReplyLost

  datatype Outcome = Failed | Fresh(count: nat)

  datatype Visit = Visit(unit: string, damage: Damage, fault: Fault, at: int)

  function DrainSteps(v: Visit): seq<Step> {
    var drain := HostDrain(v.unit, v.damage);
    match v.fault
    case Unreachable => []
    case DrainReplyLost => [drain] + [HostCrash]
    case StoreFails => [drain] + [HostCrash]
    case AckFails => [drain] + [HostCommit(v.at)] + [HostCrash]
    case _ => [drain] + [HostCommit(v.at)] + [HostAck]
  }

  /** What follows once a batch has been handed out. */
  function AfterHandOut(s: System, fault: Fault, at: int): System {
    match fault
    case StoreFails => Next(s, HostCrash)
    case AckFails => Next(Next(s, HostCommit(at)), HostCrash)
    case _ => Next(Next(s, HostCommit(at)), HostAck)
  }

  /** Those steps applied one after another. */
  function AfterDrainUnit(s: System, v: Visit): System {
    match v.fault
    case Unreachable => s
    case DrainReplyLost => Next(Next(s, HostDrain(v.unit, v.damage)), HostCrash)
    case _ => AfterHandOut(Next(s, HostDrain(v.unit, v.damage)), v.fault, v.at)
  }

  /**
   * Whether a drain raises: the unit cannot be reached or its answer is lost, or
   * there is something to store and a line, the store or the ack raises. A drain
   * that brings nothing is over before any of these.
   */
  predicate Fails(s: System, v: Visit) {
    || v.fault.Unreachable?
    || v.fault.DrainReplyLost?
    || (var host := Next(s, HostDrain(v.unit, v.damage)).host;
        && host.Holding?
        && (v.fault != NoFault || Raises(Received(host.batch, host.damage))))
  }

  lemma IdleHostKeepsNothing(s: System, fault: Fault, at: int)
    requires s.host.Idle?
    ensures AfterHandOut(s, fault, at) == s
  {}

  /** One drain of a unit is a piece of a protocol run, wherever it breaks off. */
  lemma DrainUnitIsARun(s: System, v: Visit)
    ensures AfterDrainUnit(s, v) == Run(s, DrainSteps(v))
  {
    var drain := HostDrain(v.unit, v.damage);
    RunExtends(s, [], drain);
    assert [] + [drain] == [drain];
    RunExtends(s, [drain], HostCrash);
    RunExtends(s, [drain], HostCommit(v.at));
    RunExtends(s, [drain] + [HostCommit(v.at)], HostCrash);
    RunExtends(s, [drain] + [HostCommit(v.at)], HostAck);
  }

  function AfterVisits(s: System, visits: seq<Visit>): System {
    if visits == [] then s
    else AfterDrainUnit(AfterVisits(s, visits[..|visits| - 1]), visits[|visits| - 1])
  }

  /** How many visits of a pass raise. */
  function Failures(s: System, visits: seq<Visit>): nat {
    if visits == [] then 0
    else
      var init := visits[..|visits| - 1];
      Failures(s, init) + (if Fails(AfterVisits(s, init), visits[|visits| - 1]) then 1 else 0)
  }

  /** What a pass adds up: the rows that the visits which did not raise reported as new. */
  function Gained(s: System, visits: seq<Visit>): int {
    if visits == [] then 0
    else
      var before, v := AfterVisits(s, visits[..|visits| - 1]), visits[|visits| - 1];
      Gained(s, visits[..|visits| - 1])
      + (if Fails(before, v) then 0 else |AfterDrainUnit(before, v).reported| - |before.reported|)
  }

  function PassSteps(visits: seq<Visit>): seq<Step> {
    if visits == [] then [] else PassSteps(visits[..|visits| - 1]) + DrainSteps(visits[|visits| - 1])
  }

  /** A pass over the units is a piece of a protocol run too. */
  lemma {:induction false} PassIsARun(s: System, visits: seq<Visit>)
    ensures AfterVisits(s, visits) == Run(s, PassSteps(visits))
  {
    if visits != [] {
      var init, last := visits[..|visits| - 1], visits[|visits| - 1];
      PassIsARun(s, init);
      RunJoins(s, PassSteps(init), DrainSteps(last));
      DrainUnitIsARun(AfterVisits(s, init), last);
    }
  }

  predicate PruneDue(lastPrune: Option<int>, now: int) {
    lastPrune.None? || now - lastPrune.value >= PRUNE_INTERVAL_SECONDS
  }

  function AfterPruneIfDue(s: System, lastPrune: Option<int>, retention: seq<Policy>, now: int): System {
    if PruneDue(lastPrune, now) then Next(s, HostPrune(retention, now)) else s
  }

  lemma {:induction false} RunJoins(s: System, a: seq<Step>, b: seq<Step>)
    ensures Run(s, a + b) == Run(Run(s, a), b)
  {
    if b == [] {
      assert a + b == a;
    } else {
      RunJoins(s, a, b[..|b| - 1]);
      assert (a + b)[..|a + b| - 1] == a + b[..|b| - 1];
    }
  }

  function FilesOf(s: System): map<string, Phone.Files> {
    map u | u in s.phones :: s.phones[u].files
  }

  /** Parse one drain's lines: bad lines are skipped, a raising line fails it all. */
  method ParseBatch(unit: string, lines: seq<Line>) returns (ok: bool, events: seq<Event>)
    ensures ok <==> forall l :: l in lines ==> !l.Raising?
    ensures ok ==> events == UsableEvents(unit, lines)
    ensures ok ==> |events| == |Whole(lines)|
    ensures ok ==> forall i :: 0 <= i < |events| ==> Tells(events[i], unit, Whole(lines)[i])
  {
    events := [];
    for i := 0 to |lines|
      invariant forall l :: l in lines[..i] ==> !l.Raising?
      invariant events == UsableEvents(unit, lines[..i])
    {
      assert lines[..i + 1][..i] == lines[..i];
      match FromSpoolLine(unit, lines[i])
      case Raised =>
        assert lines[i] in lines;
        return false, [];
      case Skipped =>
      case Usable(event) => events := events + [event];
    }
    assert lines[..|lines|] == lines;
    UsableTellTheWhole(unit, lines);
    ok := true;
  }

  class Gateway {
    const store: Store
    const retention: seq<Policy>
    var devices: map<string, Phone.Files>
    var drained: nat
    var stored: nat
    var errors: nat
    var lastPrune: Option<int>
    /** The protocol state this object has reached. */
    ghost var system: System

    ghost predicate Tracks()
      reads this, store
    {
      store.rows == system.rows && devices == FilesOf(system)
    }

    /** The object is at a point of the protocol where the host holds nothing. */
    ghost predicate Valid()
      reads this, store
    {
      Tracks() && system.host.Idle?
    }

    constructor (store: Store, retention: seq<Policy>, sequences: map<string, nat>)
      requires store.rows == []
      ensures Valid() && this.store == store && this.retention == retention
      ensures system == Started(sequences)
    {
      this.store, this.retention := store, retention;
      devices := map u | u in sequences :: Phone.Opened(sequences[u]).files;
      drained, stored, errors, lastPrune := 0, 0, 0, None;
      system := Started(sequences);
    }

    /** The on-device `drain`: rotate if nothing is in flight, and read the batch. */
    method DrainCommand(unit: string, damage: Damage) returns (lines: seq<Line>, ghost batch: seq<Phone.Spooled>)
      requires Valid() && unit in devices
      modifies this`devices, this`system
      ensures Tracks() && devices.Keys == old(devices).Keys
      ensures system == Next(old(system), HostDrain(unit, damage))
      ensures lines == Received(batch, damage)
      ensures system.host == if AllBlank(lines) then Idle else Holding(unit, batch, damage)
    {
      devices := devices[unit := Phone.AfterDrain(devices[unit])];
      system := Next(system, HostDrain(unit, damage));
      batch := Phone.Lines(devices[unit].inflight);
      lines := Received(Phone.Lines(devices[unit].inflight), damage);
    }

    method Commit(unit: string, ghost batch: seq<Phone.Spooled>, ghost damage: Damage, events: seq<Event>, at: int)
      returns (count: nat)
      requires Tracks() && system.host == Holding(unit, batch, damage) && !Raises(Received(batch, damage))
      requires events == UsableEvents(unit, Received(batch, damage))
      modifies this`drained, this`stored, this`system, store
      ensures Tracks()
      ensures system == Next(old(system), HostCommit(at)) && system.host == Committed(unit, batch)
      ensures |system.reported| == |old(system).reported| + count
      ensures |system.committed| == |old(system).committed| + |events|
      ensures stored == old(stored) + count && drained == old(drained) + |events|
    {
      var added := store.AddEvents(events, at);
      count := |added|;
      drained := drained + |events|;
      stored := stored + count;
      system := Next(system, HostCommit(at));
    }

    /** The on-device `ack`. */
    method AckCommand(unit: string, ghost batch: seq<Phone.Spooled>)
      requires Tracks() && system.host == Committed(unit, batch) && unit in devices
      modifies this`devices, this`system
      ensures Valid() && devices.Keys == old(devices).Keys
      ensures system == Next(old(system), HostAck) && system.reported == old(system).reported
    {
      devices := devices[unit := Phone.AfterAck(devices[unit])];
      system := Next(system, HostAck);
    }

    /** Only now ack; a failed ack leaves the batch in flight, a lost reply does not. */
    method Acknowledge(unit: string, ghost batch: seq<Phone.Spooled>, fault: Fault, count: nat) returns (r: Outcome)
      requires Tracks() && system.host == Committed(unit, batch) && unit in devices
      modifies this`devices, this`system
      ensures Valid() && devices.Keys == old(devices).Keys
      ensures system == if fault.AckFails? then Next(old(system), HostCrash) else Next(old(system), HostAck)
      ensures system.reported == old(system).reported && system.committed == old(system).committed
      ensures r == if fault.AckFails? || fault.AckReplyLost? then Failed else Fresh(count)
    {
      if fault.AckFails? {
        system := Next(system, HostCrash);
        return Failed;
      }
      AckCommand(unit, batch);
      r := if fault.AckReplyLost? then Failed else Fresh(count);
    }

    /** Parse, commit, and only then ack; a batch that cannot be parsed is not touched. */
    method StoreAndAck(
      unit: string, lines: seq<Line>, ghost batch: seq<Phone.Spooled>, ghost damage: Damage, fault: Fault, at: int)
      returns (r: Outcome)
      requires Tracks() && system.host == Holding(unit, batch, damage) && unit in devices
      requires lines == Received(batch, damage) && !fault.Unreachable? && !fault.DrainReplyLost?
      modifies this`devices, this`drained, this`stored, this`system, store
      ensures Valid() && devices.Keys == old(devices).Keys
      ensures system == AfterHandOut(old(system), fault, at)
      ensures stored - old(stored) == |system.reported| - |old(system).reported| >= 0
      ensures drained - old(drained) == |system.committed| - |old(system).committed|
      ensures r.Failed? <==> fault != NoFault || Raises(lines)
      ensures r.Fresh? ==> r.count == stored - old(stored)
    {
      var ok, events := ParseBatch(unit, lines);
      if !ok || fault.StoreFails? {
        RaisingIsACrash(system, fault, at);
        system := Next(system, HostCrash);
        return Failed;
      }
      var count := Commit(unit, batch, damage, events, at);
      r := Acknowledge(unit, batch, fault, count);
    }

    /** Drain one unit: an exception at any point leaves the batch to be drained again. */
    method DrainUnit(v: Visit) returns (r: Outcome)
      requires Valid() && v.unit in devices
      modifies this`devices, this`drained, this`stored, this`system, store
      ensures Valid() && devices.Keys == old(devices).Keys
      ensures system == AfterDrainUnit(old(system), v)
      ensures stored - old(stored) == |system.reported| - |old(system).reported| >= 0
      ensures drained - old(drained) == |system.committed| - |old(system).committed|
      ensures r.Failed? <==> Fails(old(system), v)
      ensures r.Fresh? ==> r.count == stored - old(stored)
    {
      if v.fault.Unreachable? {
        return Failed;
      }
      ghost var batch;
      var lines;
      lines, batch := DrainCommand(v.unit, v.damage);
      if v.fault.DrainReplyLost? {
        system := Next(system, HostCrash);
        return Failed;
      }
      if AllBlank(lines) {
        IdleHostKeepsNothing(system, v.fault, v.at);
        return Fresh(0);
      }
      r := StoreAndAck(v.unit, lines, batch, v.damage, v.fault, v.at);
    }

    method PruneIfDue(now: int)
      requires Valid()
      modifies this`lastPrune, this`system, store
      ensures Valid()
      ensures system == AfterPruneIfDue(old(system), old(lastPrune), retention, now)
      ensures lastPrune == if PruneDue(old(lastPrune), now) then Some(now) else old(lastPrune)
      ensures system == old(system) || old(lastPrune).None? || now - old(lastPrune).value >= 60 * 60
      ensures old(lastPrune).None? || now - old(lastPrune).value >= 60 * 60 ==>
                lastPrune == Some(now) && system == Next(old(system), HostPrune(retention, now))
    {
      if lastPrune.Some? && now - lastPrune.value < PRUNE_INTERVAL_SECONDS {
        return;
      }
      lastPrune := Some(now);
      var removed := store.Prune(retention, now);
      system := Next(system, HostPrune(retention, now));
    }

    /** One unit of a pass: whatever goes wrong is counted, and the pass goes on. */
    method Attempt(v: Visit) returns (added: nat)
      requires Valid() && v.unit in devices
      modifies this`devices, this`drained, this`stored, this`errors, this`system, store
      ensures Valid() && devices.Keys == old(devices).Keys
      ensures system == AfterDrainUnit(old(system), v)
      ensures errors == old(errors) + (if Fails(old(system), v) then 1 else 0)
      ensures added == if Fails(old(system), v) then 0 else |system.reported| - |old(system).reported|
      ensures stored - old(stored) == |system.reported| - |old(system).reported|
    {
      var r := DrainUnit(v);
      match r
      case Failed =>
        errors := errors + 1;
        added := 0;
      case Fresh(n) => added := n;
    }

    method RunOnce(visits: seq<Visit>, now: int) returns (total: nat)
      requires Valid() && forall v :: v in visits ==> v.unit in devices
      modifies this`devices, this`drained, this`stored, this`errors, this`lastPrune, this`system, store
      ensures Valid()
      ensures var begun := AfterPruneIfDue(old(system), old(lastPrune), retention, now);
              && system == AfterVisits(begun, visits)
              && errors == old(errors) + Failures(begun, visits)
              && total == Gained(begun, visits)
              && stored - old(stored) == |system.reported| - |begun.reported|
    {
      total := 0;
      PruneIfDue(now);
      ghost var begun := system;
      for i := 0 to |visits|
        invariant Valid() && devices.Keys == old(devices).Keys
        invariant system == AfterVisits(begun, visits[..i])
        invariant errors == old(errors) + Failures(begun, visits[..i])
        invariant total == Gained(begun, visits[..i])
        invariant stored - old(stored) == |system.reported| - |begun.reported|
      {
        assert visits[..i + 1][..i] == visits[..i];
        assert visits[i] in visits;
        var added := Attempt(visits[i]);
        total := total + added;
      }
      assert visits[..|visits|] == visits;
    }
  }

  /** A batch with a line that raises is given up wherever the drain would have broken off. */
  lemma RaisingIsACrash(s: System, fault: Fault, at: int)
    requires s.host.Holding? && (Raises(Received(s.host.batch, s.host.damage)) || fault.StoreFails?)
    ensures AfterHandOut(s, fault, at) == Next(s, HostCrash)
  {}

  // -------------------------------------------------------------- isolation

  /** The host is not dealing with this unit. */
  predicate BusyElsewhere(s: System, unit: string) {
    s.host.Idle? || s.host.unit != unit
  }

  lemma HostStepLeavesOthersAlone(s: System, step: Step, unit: string)
    requires BusyElsewhere(s, unit) && unit in s.phones
    requires step.HostCommit? || step.HostAck? || step.HostCrash? || (step.HostDrain? && step.drained != unit)
    ensures var s' := Next(s, step);
            && BusyElsewhere(s', unit)
            && unit in s'.phones
            && s'.phones[unit] == s.phones[unit]
            && s.committed <= s'.committed
            && (step.HostAck? && !s.host.Holding? && (s.host.Committed? ==> s.host.unit in s.phones) ==> s'.host.Idle?)
  {}

  lemma VisitLeavesOthersAlone(s: System, v: Visit, unit: string)
    requires s.host.Idle? && v.unit != unit && unit in s.phones
    ensures var s' := AfterDrainUnit(s, v);
            && s'.host.Idle?
            && unit in s'.phones
            && s'.phones[unit] == s.phones[unit]
            && s.committed <= s'.committed
  {
    var s1 := Next(s, HostDrain(v.unit, v.damage));
    HostStepLeavesOthersAlone(s, HostDrain(v.unit, v.damage), unit);
    HostStepLeavesOthersAlone(s1, HostCrash, unit);
    HostStepLeavesOthersAlone(s1, HostCommit(v.at), unit);
    HostStepLeavesOthersAlone(Next(s1, HostCommit(v.at)), HostCrash, unit);
    HostStepLeavesOthersAlone(Next(s1, HostCommit(v.at)), HostAck, unit);
  }

  /** What the next drain of a phone hands out: the unacked batch, or else the spool. */
  function NextBatch(f: Phone.Files): seq<Phone.Spooled> {
    Phone.Lines(Phone.AfterDrain(f).inflight)
  }

  lemma HealthyVisitServes(s: System, v: Visit, e: Phone.Spooled)
    requires s.host.Idle? && v.unit in s.phones && !Fails(s, v)
    requires e in Kept(NextBatch(s.phones[v.unit].files), v.damage)
    ensures var s' := AfterDrainUnit(s, v);
            && s'.host.Idle?
            && v.unit in s'.phones
            && HostEvent(v.unit, e) in s'.committed
            && e in s'.phones[v.unit].acked
  {
    var batch := NextBatch(s.phones[v.unit].files);
    KeptIsNotBlank(batch, v.damage, e);
    KeptOrSpoilt(batch, v.damage, e);
    var s1 := Next(s, HostDrain(v.unit, v.damage));
    assert s1.host == Holding(v.unit, batch, v.damage);
    assert s1.phones[v.unit].files.inflight == Some(batch);
    CommitServes(s1, v.at, e);
    AckServes(Next(s1, HostCommit(v.at)), v.unit, batch, e);
  }

  lemma CommitServes(s: System, at: int, e: Phone.Spooled)
    requires s.host.Holding? && !Raises(Received(s.host.batch, s.host.damage))
    requires e in Kept(s.host.batch, s.host.damage)
    ensures var s' := Next(s, HostCommit(at));
            && s'.host == Committed(s.host.unit, s.host.batch)
            && s'.phones == s.phones
            && HostEvent(s.host.unit, e) in s'.committed
  {
    var kept := Kept(s.host.batch, s.host.damage);
    var i :| 0 <= i < |kept| && kept[i] == e;
    CommitSettles(s, at);
    assert HostEvents(s.host.unit, kept)[i] == HostEvent(s.host.unit, e);
  }

  lemma AckServes(s: System, unit: string, batch: seq<Phone.Spooled>, e: Phone.Spooled)
    requires s.host == Committed(unit, batch) && unit in s.phones
    requires s.phones[unit].files.inflight == Some(batch) && e in batch
    ensures var s' := Next(s, HostAck);
            && s'.host.Idle?
            && unit in s'.phones
            && s'.committed == s.committed
            && e in s'.phones[unit].acked
  {}

  lemma {:induction false} KeptIsNotBlank(batch: seq<Phone.Spooled>, damage: Damage, e: Phone.Spooled)
    requires e in Kept(batch, damage)
    ensures !AllBlank(Received(batch, damage))
  {
    var n := |batch| - 1;
    var lines := Received(batch, damage);
    if n !in damage {
      assert lines[n] == Good(batch[n]) && lines[n] in lines;
    } else {
      KeptIsNotBlank(batch[..n], damage, e);
      assert lines[..n] == Received(batch[..n], damage);
    }
  }

  /**
   * One unit's failures never stop another's delivery: in a pass in which the
   * visit `visits[i]` does not fail and visits its unit alone, every event whose
   * line arrives whole is committed and acked, however the other visits break off.
   */
  lemma {:induction false} HealthyUnitIsServed(s: System, visits: seq<Visit>, i: nat, e: Phone.Spooled)
    requires s.host.Idle?
    requires i < |visits| && visits[i].unit in s.phones && !Fails(s, visits[i])
    requires forall j :: 0 <= j < |visits| && j != i ==> visits[j].unit != visits[i].unit
    requires e in Kept(NextBatch(s.phones[visits[i].unit].files), visits[i].damage)
    ensures var s' := AfterVisits(s, visits); var u := visits[i].unit;
            && s'.host.Idle?
            && u in s'.phones
            && (exists ev :: ev in s'.committed && Tells(ev, u, e))
            && e in s'.phones[u].acked
    decreases |visits|
  {
    var init, last := visits[..|visits| - 1], visits[|visits| - 1];
    var mid := AfterVisits(s, init);
    if i == |visits| - 1 {
      PassLeavesOthersAlone(s, init, last.unit);
      FailsAlike(s, mid, last);
      HealthyVisitServes(mid, last, e);
      HostEventTells(last.unit, e);
    } else {
      HealthyUnitIsServed(s, init, i, e);
      VisitLeavesOthersAlone(mid, last, visits[i].unit);
    }
  }

  /** Whether a visit fails depends on its own phone alone. */
  lemma FailsAlike(s: System, mid: System, v: Visit)
    requires s.host.Idle? && mid.host.Idle? && v.unit in s.phones && v.unit in mid.phones
    requires s.phones[v.unit] == mid.phones[v.unit]
    ensures Fails(s, v) <==> Fails(mid, v)
  {}

  lemma {:induction false} PassLeavesOthersAlone(s: System, visits: seq<Visit>, unit: string)
    requires s.host.Idle? && unit in s.phones
    requires forall v :: v in visits ==> v.unit != unit
    ensures var s' := AfterVisits(s, visits);
            && s'.host.Idle?
            && unit in s'.phones
            && s'.phones[unit] == s.phones[unit]
  {
    if visits != [] {
      var init, last := visits[..|visits| - 1], visits[|visits| - 1];
      PassLeavesOthersAlone(s, init, unit);
      VisitLeavesOthersAlone(AfterVisits(s, init), last, unit);
    }
  }
}

/**
 * The keepalive scheduler (Keepalive.kt): one clock per SIM, one alarm for
 * whichever SIM is due first, and attempts kept apart.
 */
module Keepalive {
  import opened Prelude

  const RETRY_MS := 24 * 3_600_000
  const SLACK_MS := 60_000
  const MIN_DELAY_MS := 60_000
  const MIN_INTERVAL_HOURS := 1
  const MAX_INTERVAL_HOURS := 8760

  function ClampInterval(hours: int): int {
    Min(Max(hours, MIN_INTERVAL_HOURS), MAX_INTERVAL_HOURS)
  }

  function NextDueAt(lastSuccessMs: int, intervalMs: int, nowMs: int): int {
    if lastSuccessMs <= 0 then nowMs + intervalMs else lastSuccessMs + intervalMs
  }

  function NextRunAt(lastSuccessMs: int, lastAttemptMs: int, intervalMs: int, nowMs: int): int {
    Max(NextDueAt(lastSuccessMs, intervalMs, nowMs), if lastAttemptMs > 0 then lastAttemptMs + RETRY_MS else 0)
  }

  /** The `keepalive_subs` setting once split: an entry that is no number is None. */
  datatype Setting = AllSims | DefaultSim | Listed(entries: seq<Option<int>>)

  function Numbered(entries: seq<Option<int>>): seq<int> {
    if entries == [] then []
    else
      var before, last := Numbered(entries[..|entries| - 1]), entries[|entries| - 1];
      if last.None? || last.value in before then before else before + [last.value]
  }

  function Present(subs: seq<int>, active: seq<int>): seq<int> {
    if subs == [] then []
    else
      Present(subs[..|subs| - 1], active)
      + (if subs[|subs| - 1] in active then [subs[|subs| - 1]] else [])
  }

  function SubsFor(setting: Setting, active: seq<int>, defaultSub: int): seq<int> {
    match setting
    case AllSims => if active == [] then [defaultSub] else active
    case DefaultSim => [defaultSub]
    case Listed(entries) =>
      if active == [] then Numbered(entries) else Present(Numbered(entries), active)
  }

  /** A listed SIM is covered exactly if it is named and, where that can be read, present. */
  lemma {:induction false} ListedSimsAreCovered(entries: seq<Option<int>>, active: seq<int>, defaultSub: int, sub: int)
    ensures sub in SubsFor(Listed(entries), active, defaultSub)
            <==> Some(sub) in entries && (active == [] || sub in active)
  {
    NumberedAre(entries, sub);
    PresentAre(Numbered(entries), active, sub);
  }

  /** The other settings: every SIM there is, or the default one; the default too where none can be read. */
  lemma OtherSettingsCover(active: seq<int>, defaultSub: int, sub: int)
    ensures sub in SubsFor(AllSims, active, defaultSub) <==> sub in active || (active == [] && sub == defaultSub)
    ensures sub in SubsFor(DefaultSim, active, defaultSub) <==> sub == defaultSub
  {}

  lemma {:induction false} NumberedAre(entries: seq<Option<int>>, sub: int)
    ensures sub in Numbered(entries) <==> Some(sub) in entries
  {
    if entries != [] {
      NumberedAre(entries[..|entries| - 1], sub);
      assert entries == entries[..|entries| - 1] + [entries[|entries| - 1]];
    }
  }

  lemma {:induction false} PresentAre(subs: seq<int>, active: seq<int>, sub: int)
    ensures sub in Present(subs, active) <==> sub in subs && sub in active
  {
    if subs != [] {
      PresentAre(subs[..|subs| - 1], active, sub);
      assert subs == subs[..|subs| - 1] + [subs[|subs| - 1]];
    }
  }

  // ------------------------------------------------------------ the scheduler

  type Millis = t: int | t > 0 witness 1

  /** What happened to a SIM: an attempt of the keepalive, or a message the radio delivered. */
  datatype Event =
    | Attempted(sub: int, at: int, forced: bool, intervalMs: int)
    | Delivered(sub: int, at: int)

  datatype State = State(
    enabled: bool,
    intervalMs: int,
    subs: seq<int>,
    lastSuccess: map<int, int>,
    lastAttempt: map<int, int>,
    alarm: Option<int>,
    armedAt: int,
    armedFor: seq<int>,
    events: seq<Event>)

  function Stamp(clock: map<int, int>, sub: int): int {
    if sub in clock then clock[sub] else 0
  }

  function RunAtFor(s: State, sub: int, now: int): int {
    NextRunAt(Stamp(s.lastSuccess, sub), Stamp(s.lastAttempt, sub), s.intervalMs, now)
  }

  function Earliest(s: State, subs: seq<int>, now: int): int
    requires subs != []
  {
    var last := RunAtFor(s, subs[|subs| - 1], now);
    if |subs| == 1 then last else Min(Earliest(s, subs[..|subs| - 1], now), last)
  }

  function Scheduled(s: State, now: int): State {
    if !s.enabled then s.(alarm := None)
    else
      var earliest := if s.subs == [] then now + s.intervalMs else Earliest(s, s.subs, now);
      s.(alarm := Some(Max(earliest, now + MIN_DELAY_MS)), armedAt := now, armedFor := s.subs)
  }

  function AfterSend(s: State, sub: int, force: bool, now: int): State {
    s.(lastAttempt := s.lastAttempt[sub := now],
       events := s.events + [Attempted(sub, now, force, s.intervalMs)])
  }

  function AfterLoop(s: State, subs: seq<int>, force: bool, now: int): State {
    if subs == [] then s
    else
      var before, sub := AfterLoop(s, subs[..|subs| - 1], force, now), subs[|subs| - 1];
      if !force && now + SLACK_MS < RunAtFor(before, sub, now) then before
      else AfterSend(before, sub, force, now)
  }

  function AfterFire(s: State, force: bool, now: int, armNow: int): State {
    if !force && !s.enabled then s.(alarm := None)
    else Scheduled(AfterLoop(s, s.subs, force, now), armNow)
  }

  function AfterDelivery(s: State, sub: int, now: int, armNow: int): State {
    Scheduled(s.(lastSuccess := s.lastSuccess[sub := now], events := s.events + [Delivered(sub, now)]), armNow)
  }

  class Scheduler {
    var enabled: bool
    var intervalMs: int
    var subs: seq<int>
    var lastSuccess: map<int, int>
    var lastAttempt: map<int, int>
    var alarm: Option<int>
    ghost var armedAt: int
    ghost var armedFor: seq<int>
    ghost var events: seq<Event>

    ghost function Now(): State
      reads this
    {
      State(enabled, intervalMs, subs, lastSuccess, lastAttempt, alarm, armedAt, armedFor, events)
    }

    method RunAt(sub: int, now: int) returns (at: int)
      ensures at == RunAtFor(Now(), sub, now)
    {
      at := NextRunAt(Stamp(lastSuccess, sub), Stamp(lastAttempt, sub), intervalMs, now);
    }

    method Schedule(now: int)
      modifies this
      ensures Now() == Scheduled(old(Now()), now)
    {
      if !enabled {
        alarm := None;
        return;
      }
      var earliest := now + intervalMs;
      for i := 0 to |subs|
        invariant Now() == old(Now())
        invariant earliest == if i == 0 then now + intervalMs else Earliest(Now(), subs[..i], now)
      {
        assert subs[..i + 1][..i] == subs[..i];
        var at := RunAt(subs[i], now);
        earliest := if i == 0 then at else Min(earliest, at);
      }
      assert subs[..|subs|] == subs;
      alarm := Some(Max(earliest, now + MIN_DELAY_MS));
      armedAt, armedFor := now, subs;
    }

    method Fire(force: bool, now: int, armNow: int)
      modifies this
      ensures Now() == AfterFire(old(Now()), force, now, armNow)
    {
      if !force && !enabled {
        alarm := None;
        return;
      }
      for i := 0 to |subs|
        invariant subs == old(subs)
        invariant Now() == AfterLoop(old(Now()), subs[..i], force, now)
      {
        assert subs[..i + 1][..i] == subs[..i];
        var at := RunAt(subs[i], now);
        if !force && now + SLACK_MS < at {
          continue;
        }
        SendFor(subs[i], force, now);
      }
      assert subs[..|subs|] == subs;
      Schedule(armNow);
    }

    /** The attempt is recorded before the send, so one that kills the process still counts. */
    method SendFor(sub: int, force: bool, now: int)
      modifies this`lastAttempt, this`events
      ensures Now() == AfterSend(old(Now()), sub, force, now)
    {
      lastAttempt := lastAttempt[sub := now];
      events := events + [Attempted(sub, now, force, intervalMs)];
    }

    method OnDelivered(sub: int, now: int, armNow: int)
      modifies this
      ensures Now() == AfterDelivery(old(Now()), sub, now, armNow)
    {
      lastSuccess := lastSuccess[sub := now];
      events := events + [Delivered(sub, now)];
      Schedule(armNow);
    }
  }

  // --------------------------------------------------------------- whole runs

  /** SIMs may come and go unannounced; every settings change re-arms the alarm. */
  datatype Step =
    | Fired(force: bool, now: Millis, armNow: Millis)
    | GotThrough(sub: int, now: Millis, armNow: Millis)
    | Configured(on: bool, hours: int, subs: seq<int>, now: Millis, armNow: Millis)
    | SimsChanged(subs: seq<int>, now: Millis, armNow: Millis)

  function Next(s: State, step: Step): State {
    match step
    case Fired(force, now, armNow) => AfterFire(s, force, now, armNow)
    case GotThrough(sub, now, armNow) => AfterDelivery(s, sub, now, armNow)
    case Configured(on, hours, subs, now, armNow) =>
      Scheduled(s.(enabled := on, intervalMs := ClampInterval(hours) * 3_600_000, subs := subs), armNow)
    case SimsChanged(subs, now, armNow) => s.(subs := subs)
  }

  const FRESH := State(false, 720 * 3_600_000, [], map[], map[], None, 0, [], [])

  function Run(steps: seq<Step>): State {
    if steps == [] then FRESH else Next(Run(steps[..|steps| - 1]), steps[|steps| - 1])
  }

  /** The clock never goes back. */
  ghost predicate ClockClimbs(steps: seq<Step>) {
    && (forall i :: 0 <= i < |steps| ==> steps[i].now <= steps[i].armNow)
    && (forall i, j :: 0 <= i < j < |steps| ==> steps[i].armNow <= steps[j].now)
  }

  /** The stored stamps are the times of the latest attempt and delivery of each SIM. */
  ghost predicate StampsAgree(s: State) {
    && s.intervalMs >= 3_600_000
    && (forall i :: 0 <= i < |s.events| ==> s.events[i].at > 0)
    && (forall i :: 0 <= i < |s.events| && s.events[i].Attempted? ==>
          s.events[i].at <= Stamp(s.lastAttempt, s.events[i].sub))
    && (forall i :: 0 <= i < |s.events| && s.events[i].Delivered? ==>
          s.events[i].at <= Stamp(s.lastSuccess, s.events[i].sub))
    && (forall sub :: sub in s.lastSuccess && s.lastSuccess[sub] > 0 ==>
          exists i :: 0 <= i < |s.events| && s.events[i] == Delivered(sub, s.lastSuccess[sub]))
  }

  ghost predicate StampedBy(s: State, now: int) {
    && (forall sub :: sub in s.lastAttempt ==> s.lastAttempt[sub] <= now)
    && (forall sub :: sub in s.lastSuccess ==> s.lastSuccess[sub] <= now)
  }

  /** An unforced attempt keeps its distance from everything before it on its SIM. */
  ghost predicate KeepsDistance(events: seq<Event>, j: int)
    requires 0 <= j < |events| && events[j].Attempted?
  {
    events[j].forced
    || (&& (forall i :: 0 <= i < j && events[i].Attempted? && events[i].sub == events[j].sub ==>
              events[j].at - events[i].at >= 86_400_000 - 60_000)
        && (forall i :: 0 <= i < j && events[i].Delivered? && events[i].sub == events[j].sub ==>
              events[j].at - events[i].at >= events[j].intervalMs - 60_000)
        && (exists i :: 0 <= i < j && events[i].Delivered? && events[i].sub == events[j].sub))
  }

  ghost predicate AllKeepDistance(events: seq<Event>) {
    forall j :: 0 <= j < |events| && events[j].Attempted? ==> KeepsDistance(events, j)
  }

  lemma AppendKeepsDistance(events: seq<Event>, e: Event)
    requires AllKeepDistance(events)
    requires e.Attempted? ==> KeepsDistance(events + [e], |events|)
    ensures AllKeepDistance(events + [e])
  {
    var more := events + [e];
    forall j | 0 <= j < |more| && more[j].Attempted?
      ensures KeepsDistance(more, j)
    {
      if j < |events| {
        assert KeepsDistance(events, j);
        if !events[j].forced {
          var i :| 0 <= i < j && events[i].Delivered? && events[i].sub == events[j].sub;
          assert more[i].Delivered? && more[i].sub == more[j].sub;
        }
      }
    }
  }

  lemma SendKeeps(s: State, sub: int, force: bool, now: Millis)
    requires StampsAgree(s) && StampedBy(s, now) && AllKeepDistance(s.events)
    requires force || now + SLACK_MS >= RunAtFor(s, sub, now)
    ensures var s' := AfterSend(s, sub, force, now);
            StampsAgree(s') && StampedBy(s', now) && AllKeepDistance(s'.events)
  {
    var s' := AfterSend(s, sub, force, now);
    var e := Attempted(sub, now, force, s.intervalMs);
    if !force {
      assert Stamp(s.lastSuccess, sub) > 0;
      var i :| 0 <= i < |s.events| && s.events[i] == Delivered(sub, s.lastSuccess[sub]);
      assert s'.events[i].Delivered? && s'.events[i].sub == sub;
    }
    assert KeepsDistance(s'.events, |s.events|);
    AppendKeepsDistance(s.events, e);
    forall x | x in s'.lastSuccess && s'.lastSuccess[x] > 0
      ensures exists i :: 0 <= i < |s'.events| && s'.events[i] == Delivered(x, s'.lastSuccess[x])
    {
      var i :| 0 <= i < |s.events| && s.events[i] == Delivered(x, s.lastSuccess[x]);
      assert s'.events[i] == s.events[i];
    }
  }

  lemma {:induction false} LoopKeeps(s: State, subs: seq<int>, force: bool, now: Millis)
    requires StampsAgree(s) && StampedBy(s, now) && AllKeepDistance(s.events)
    ensures var s' := AfterLoop(s, subs, force, now);
            && StampsAgree(s') && StampedBy(s', now) && AllKeepDistance(s'.events)
            && s'.subs == s.subs && s'.enabled == s.enabled && s'.intervalMs == s.intervalMs
            && s'.lastSuccess == s.lastSuccess
  {
    if subs != [] {
      var before, sub := AfterLoop(s, subs[..|subs| - 1], force, now), subs[|subs| - 1];
      LoopKeeps(s, subs[..|subs| - 1], force, now);
      if force || now + SLACK_MS >= RunAtFor(before, sub, now) {
        SendKeeps(before, sub, force, now);
      }
    }
  }

  lemma DeliveryKeeps(s: State, sub: int, now: Millis, armNow: Millis)
    requires StampsAgree(s) && StampedBy(s, now) && AllKeepDistance(s.events)
    ensures var s' := AfterDelivery(s, sub, now, armNow);
            StampsAgree(s') && StampedBy(s', now) && AllKeepDistance(s'.events)
  {
    var s' := AfterDelivery(s, sub, now, armNow);
    AppendKeepsDistance(s.events, Delivered(sub, now));
    forall x | x in s'.lastSuccess && s'.lastSuccess[x] > 0
      ensures exists i :: 0 <= i < |s'.events| && s'.events[i] == Delivered(x, s'.lastSuccess[x])
    {
      if x == sub {
        assert s'.events[|s.events|] == Delivered(x, s'.lastSuccess[x]);
      } else {
        var i :| 0 <= i < |s.events| && s.events[i] == Delivered(x, s.lastSuccess[x]);
        assert s'.events[i] == s.events[i];
      }
    }
  }

  /**
   * Over any run with a clock that never goes back, an unforced attempt on a SIM
   * comes at least 24 h less a minute after each earlier attempt on it, at least
   * an interval less a minute after each earlier delivery, and never before the
   * SIM's first delivery.
   */
  lemma {:induction false} UnforcedAttemptsKeepTheirDistance(steps: seq<Step>)
    requires ClockClimbs(steps)
    ensures AllKeepDistance(Run(steps).events)
    ensures StampsAgree(Run(steps))
    ensures steps != [] ==> StampedBy(Run(steps), steps[|steps| - 1].armNow)
    ensures steps == [] ==> Run(steps) == FRESH
  {
    if steps != [] {
      var init, last := steps[..|steps| - 1], steps[|steps| - 1];
      UnforcedAttemptsKeepTheirDistance(init);
      var s := Run(init);
      assert StampedBy(s, last.now) by {
        if init != [] {
          assert steps[|init| - 1].armNow <= steps[|steps| - 1].now;
        }
      }
      match last
      case Fired(force, now, armNow) => LoopKeeps(s, s.subs, force, now);
      case GotThrough(sub, now, armNow) => DeliveryKeeps(s, sub, now, armNow);
      case Configured(on, hours, subs, now, armNow) =>
      case SimsChanged(subs, now, armNow) =>
    }
  }

  /**
   * Enabling the keepalive does not lead to a first message: the due time of a
   * SIM with no delivery moves with the clock, so an unforced run never picks it,
   * whatever the interval and however often the alarm fires.
   */
  lemma NoDeliveryNoKeepalive(steps: seq<Step>, sub: int)
    requires ClockClimbs(steps)
    requires forall i :: 0 <= i < |Run(steps).events| ==>
               !(Run(steps).events[i].Delivered? && Run(steps).events[i].sub == sub)
    ensures forall i :: 0 <= i < |Run(steps).events| ==>
              (Run(steps).events[i].Attempted? && Run(steps).events[i].sub == sub ==> Run(steps).events[i].forced)
  {
    UnforcedAttemptsKeepTheirDistance(steps);
    var events := Run(steps).events;
    forall j | 0 <= j < |events| && events[j].Attempted? && events[j].sub == sub
      ensures events[j].forced
    {
      assert KeepsDistance(events, j);
    }
  }

  /**
   * When an unforced run picks a SIM, given how the interval is clamped: it has
   * delivered, an interval ago less a minute, and was last tried a day ago less a
   * minute, if ever.
   */
  lemma PickedIff(s: State, sub: int, now: Millis)
    requires s.intervalMs >= 3_600_000
    ensures now + SLACK_MS >= RunAtFor(s, sub, now) <==>
            && Stamp(s.lastSuccess, sub) > 0
            && now + 60_000 >= Stamp(s.lastSuccess, sub) + s.intervalMs
            && (Stamp(s.lastAttempt, sub) > 0 ==> now + 60_000 >= Stamp(s.lastAttempt, sub) + 86_400_000)
  {}

  /** The interval is thirty days until set; a setting in hours leads to between an hour and a year of them. */
  lemma IntervalIs(hours: int)
    ensures Run([]).intervalMs == 30 * 86_400_000
    ensures ClampInterval(hours) == if hours < 1 then 1 else if hours > 8760 then 8760 else hours
  {}

  predicate Picked(s: State, sub: int, force: bool, now: int) {
    force || now + SLACK_MS >= RunAtFor(s, sub, now)
  }

  /** The SIMs of a list of its own entries that a run attempts, in the order they are listed. */
  function Attempts(s: State, subs: seq<int>, force: bool, now: int): seq<Event> {
    if subs == [] then []
    else
      var sub := subs[|subs| - 1];
      Attempts(s, subs[..|subs| - 1], force, now)
      + (if Picked(s, sub, force, now) then [Attempted(sub, now, force, s.intervalMs)] else [])
  }

  lemma {:induction false} LoopKeepsSettings(s: State, subs: seq<int>, force: bool, now: int)
    ensures var s' := AfterLoop(s, subs, force, now);
            && s'.intervalMs == s.intervalMs && s'.lastSuccess == s.lastSuccess
            && s'.enabled == s.enabled && s'.subs == s.subs
  {
    if subs != [] {
      LoopKeepsSettings(s, subs[..|subs| - 1], force, now);
    }
  }

  lemma {:induction false} NotListedNotTouched(s: State, subs: seq<int>, force: bool, now: int, sub: int)
    requires sub !in subs
    ensures Stamp(AfterLoop(s, subs, force, now).lastAttempt, sub) == Stamp(s.lastAttempt, sub)
  {
    if subs != [] {
      NotListedNotTouched(s, subs[..|subs| - 1], force, now, sub);
      assert subs[|subs| - 1] in subs;
    }
  }

  /**
   * A run attempts exactly the covered SIMs that are due, or all of them when
   * forced, each once and in order, and stamps each of those and no other.
   */
  lemma {:induction false} LoopAttemptsExactlyTheDue(s: State, subs: seq<int>, force: bool, now: int, sub: int)
    requires forall i, j :: 0 <= i < j < |subs| ==> subs[i] != subs[j]
    ensures var s' := AfterLoop(s, subs, force, now);
            && s'.events == s.events + Attempts(s, subs, force, now)
            && Stamp(s'.lastAttempt, sub)
               == if sub in subs && Picked(s, sub, force, now) then now else Stamp(s.lastAttempt, sub)
  {
    if subs == [] {
      assert s.events + [] == s.events;
    } else {
      var init, last := subs[..|subs| - 1], subs[|subs| - 1];
      assert subs == init + [last];
      LoopAttemptsExactlyTheDue(s, init, force, now, sub);
      LoopKeepsSettings(s, init, force, now);
      NotListedNotTouched(s, init, force, now, last);
      assert s.events + Attempts(s, subs, force, now)
          == AfterLoop(s, init, force, now).events
             + (if Picked(s, last, force, now) then [Attempted(last, now, force, s.intervalMs)] else []);
    }
  }

  /** Every covered SIM that is due, or any when forced, gets an attempt when the alarm fires, listed twice or not. */
  lemma {:induction false} DueSimsAreAttempted(s: State, subs: seq<int>, force: bool, now: Millis, sub: int)
    requires sub in subs && (force || now + SLACK_MS >= RunAtFor(s, sub, now))
    ensures Stamp(AfterLoop(s, subs, force, now).lastAttempt, sub) == now
    ensures Attempted(sub, now, force, s.intervalMs) in AfterLoop(s, subs, force, now).events
    decreases |subs|
  {
    var init, last := subs[..|subs| - 1], subs[|subs| - 1];
    assert subs == init + [last];
    LoopKeepsSettings(s, init, force, now);
    if sub in init {
      DueSimsAreAttempted(s, init, force, now, sub);
    } else {
      NotListedNotTouched(s, init, force, now, sub);
    }
  }

  // ---------------------------------------------------------------- the alarm

  lemma {:induction false} EarliestIsEarliest(s: State, subs: seq<int>, now: int, sub: int)
    requires sub in subs
    ensures Earliest(s, subs, now) <= RunAtFor(s, sub, now)
  {
    if |subs| > 1 {
      assert subs == subs[..|subs| - 1] + [subs[|subs| - 1]];
      if sub in subs[..|subs| - 1] {
        EarliestIsEarliest(s, subs[..|subs| - 1], now, sub);
      }
    }
  }

  /** The armed alarm is not too late for any SIM it was armed for that has ever delivered. */
  ghost predicate AlarmInTime(s: State) {
    && (s.alarm.Some? ==> s.enabled)
    && (s.alarm.Some? ==> forall sub :: sub in s.armedFor && Stamp(s.lastSuccess, sub) > 0 ==>
          s.alarm.value <= Max(RunAtFor(s, sub, s.armedAt), s.armedAt + 60_000))
  }

  lemma ScheduledInTime(s: State, now: int)
    ensures AlarmInTime(Scheduled(s, now))
    ensures s.enabled <==> Scheduled(s, now).alarm.Some?
  {
    if s.enabled {
      forall sub | sub in s.subs
        ensures Earliest(s, s.subs, now) <= RunAtFor(s, sub, now)
      {
        EarliestIsEarliest(s, s.subs, now, sub);
      }
    }
  }

  lemma {:induction false} EarliestIsOneOfThem(s: State, subs: seq<int>, now: int)
    requires subs != []
    ensures exists sub :: sub in subs && Earliest(s, subs, now) == RunAtFor(s, sub, now)
  {
    var last := subs[|subs| - 1];
    assert last in subs;
    if |subs| > 1 {
      EarliestIsOneOfThem(s, subs[..|subs| - 1], now);
      var sub :| sub in subs[..|subs| - 1] && Earliest(s, subs[..|subs| - 1], now) == RunAtFor(s, sub, now);
      assert sub in subs;
    }
  }

  /**
   * When the alarm is set for, exactly: never while disabled; otherwise a minute
   * ahead or, where that is later, at the run time of the covered SIM that is due
   * first, or an interval ahead where none is covered.
   */
  lemma AlarmIs(s: State, now: int)
    ensures !s.enabled ==> Scheduled(s, now).alarm == None
    ensures s.enabled ==> Scheduled(s, now).alarm.Some? && Scheduled(s, now).alarm.value >= now + 60_000
    ensures s.enabled && s.subs == [] ==> Scheduled(s, now).alarm.value == Max(now + s.intervalMs, now + 60_000)
    ensures s.enabled && s.subs != [] ==>
              && (forall sub :: sub in s.subs ==>
                    Scheduled(s, now).alarm.value <= Max(RunAtFor(s, sub, now), now + 60_000))
              && (exists sub :: sub in s.subs
                                && Scheduled(s, now).alarm.value == Max(RunAtFor(s, sub, now), now + 60_000))
  {
    if s.enabled && s.subs != [] {
      EarliestIsOneOfThem(s, s.subs, now);
      forall sub | sub in s.subs
        ensures Scheduled(s, now).alarm.value <= Max(RunAtFor(s, sub, now), now + 60_000)
      {
        EarliestIsEarliest(s, s.subs, now, sub);
      }
    }
  }

  /**
   * In every reachable state the alarm, once armed, goes off no later than the run
   * time of each covered SIM that has delivered before, or a minute after arming
   * where that is later; and that run time does not depend on when it is asked.
   */
  lemma {:induction false} AlarmIsNeverTooLate(steps: seq<Step>, sub: int, later: int)
    ensures AlarmInTime(Run(steps))
    ensures var s := Run(steps);
            s.alarm.Some? && sub in s.armedFor && Stamp(s.lastSuccess, sub) > 0 ==>
              s.alarm.value <= Max(RunAtFor(s, sub, later), s.armedAt + 60_000)
  {
    if steps != [] {
      var init, last := steps[..|steps| - 1], steps[|steps| - 1];
      AlarmIsNeverTooLate(init, sub, later);
      var s := Run(init);
      match last
      case Fired(force, now, armNow) => ScheduledInTime(AfterLoop(s, s.subs, force, now), armNow);
      case GotThrough(x, now, armNow) =>
        ScheduledInTime(s.(lastSuccess := s.lastSuccess[x := now], events := s.events + [Delivered(x, now)]), armNow);
      case Configured(on, hours, subs, now, armNow) =>
        ScheduledInTime(s.(enabled := on, intervalMs := ClampInterval(hours) * 3_600_000, subs := subs), armNow);
      case SimsChanged(subs, now, armNow) =>
    }
  }
}

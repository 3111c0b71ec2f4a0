/**
 * Leased sessions (session.py) and the cleanup of the socket that holds one
 * (`hold_relay` in api.py). Every adb call may fail; what was attempted on a unit
 * is kept as a trace.
 */
module Sessions {
  import opened Prelude

  const HEARTBEAT_TIMEOUT_SECONDS := 30

  datatype Session = Session(unit: string, holder: string, startedAt: int, lastSeen: int, localPort: string)

  /** A tunnel outlives its session in the table: releasing never removes it. */
  datatype Tunnel = Tunnel(port: string)

  /** What the manager attempts on a unit; Unresolved is a release that found no device. */
  datatype Action =
    | Open(unit: string, port: string)
    | Close(unit: string, port: string)
    | Start(unit: string)
    | Stop(unit: string)
    | Unresolved(unit: string)

  /** How the outside answers one acquisition, and the units a release can find a device for. */
  datatype World = World(
    serialResolves: bool,
    reverseOpens: bool,
    startWorks: bool,
    forwardOpens: bool,
    port: string,
    reachable: set<string>)

  datatype State = State(
    sessions: map<string, Session>,
    tunnels: map<string, Tunnel>,
    trace: seq<Action>)

  datatype Outcome = Acquired(session: Session) | Busy(holder: string, startedAt: int) | Failed

  predicate Fresh(s: Session, now: int) {
    now - s.lastSeen <= HEARTBEAT_TIMEOUT_SECONDS
  }

  function Current(s: State, unit: string): Option<Session> {
    if unit in s.sessions then Some(s.sessions[unit]) else None
  }

  predicate SameSession(current: Option<Session>, mine: Option<Session>) {
    && current.Some? && mine.Some?
    && current.value.holder == mine.value.holder
    && current.value.startedAt == mine.value.startedAt
    && current.value.localPort == mine.value.localPort
  }

  function CloseTunnel(unit: string, tunnel: Option<Tunnel>): seq<Action> {
    match tunnel
    case None => []
    case Some(t) => [Close(unit, t.port)]
  }

  function Released(s: State, unit: string, w: World): State {
    var tunnel := if unit in s.tunnels then Some(s.tunnels[unit]) else None;
    s.(sessions := s.sessions - {unit},
       trace := s.trace + (if unit in w.reachable
                           then CloseTunnel(unit, tunnel) + [Stop(unit)]
                           else [Unresolved(unit)]))
  }

  /** The acquisition proper, once no session is in the way. */
  function Establish(s: State, unit: string, holder: string, now: int, w: World, reverse: bool): (State, Outcome) {
    if !w.serialResolves || (reverse && !w.reverseOpens) then (s, Failed)
    else
      var tunnel := if reverse then Some(Tunnel(w.port)) else None;
      var begun := s.trace + (if reverse then [Open(unit, w.port)] else []) + [Start(unit)];
      if !w.startWorks || (!reverse && !w.forwardOpens) then
        (s.(trace := begun + CloseTunnel(unit, tunnel) + [Stop(unit)]), Failed)
      else
        var session := Session(unit, holder, now, now, w.port);
        (State(s.sessions[unit := session], s.tunnels[unit := Tunnel(w.port)],
               begun + (if reverse then [] else [Open(unit, w.port)])),
         Acquired(session))
  }

  function AfterAcquire(s: State, unit: string, holder: string, now: int, w: World, reverse: bool): (State, Outcome) {
    match Current(s, unit)
    case None => Establish(s, unit, holder, now, w, reverse)
    case Some(held) =>
      if Fresh(held, now) then (s, Busy(held.holder, held.startedAt))
      else Establish(Released(s, unit, w), unit, holder, now, w, reverse)
  }

  function AfterTakeOver(s: State, unit: string, holder: string, now: int, w: World, reverse: bool): (State, Outcome) {
    AfterAcquire(Released(s, unit, w), unit, holder, now, w, reverse)
  }

  function AfterHeartbeat(s: State, unit: string, now: int, holder: Option<string>, w: World): (State, Option<Session>) {
    match Current(s, unit)
    case None => (s, None)
    case Some(held) =>
      if holder.Some? && holder.value != held.holder then (s, None)
      else if !Fresh(held, now) then (Released(s, unit, w), None)
      else
        var refreshed := held.(lastSeen := now);
        (s.(sessions := s.sessions[unit := refreshed]), Some(refreshed))
  }

  /** Release, in dictionary order, each unit of `order` whose lease has run out. */
  function AfterReap(s: State, order: seq<string>, now: int, w: World): State {
    if order == [] then s
    else
      var before := AfterReap(s, order[..|order| - 1], now, w);
      var unit := order[|order| - 1];
      if unit in before.sessions && !Fresh(before.sessions[unit], now) then Released(before, unit, w) else before
  }

  /** The order in which a dictionary gives out its keys: each held unit once, and no other. */
  predicate Lists(sessions: map<string, Session>, order: seq<string>) {
    && (forall unit :: unit in order ==> unit in sessions)
    && (forall unit :: unit in sessions ==> unit in order)
    && (forall i, j :: 0 <= i < j < |order| ==> order[i] != order[j])
  }

  /** A socket's cleanup: release only what is still its own session. */
  function AfterCleanup(s: State, unit: string, mine: Session, w: World): State {
    if SameSession(Current(s, unit), Some(mine)) then Released(s, unit, w) else s
  }

  datatype Step =
    | Acquire(unit: string, holder: string, now: int, w: World)
    | TakeOver(unit: string, holder: string, now: int, w: World)
    | Heartbeat(unit: string, now: int, beatHolder: Option<string>, w: World)
    | Release(unit: string, now: int, w: World)
    | Reap(order: seq<string>, now: int, w: World)

  function Next(s: State, step: Step, reverse: bool): State {
    match step
    case Acquire(unit, holder, now, w) => AfterAcquire(s, unit, holder, now, w, reverse).0
    case TakeOver(unit, holder, now, w) => AfterTakeOver(s, unit, holder, now, w, reverse).0
    case Heartbeat(unit, now, holder, w) => AfterHeartbeat(s, unit, now, holder, w).0
    case Release(unit, now, w) => Released(s, unit, w)
    case Reap(order, now, w) => if Lists(s.sessions, order) then AfterReap(s, order, now, w) else s
  }

  function Run(s: State, steps: seq<Step>, reverse: bool): State {
    if steps == [] then s else Next(Run(s, steps[..|steps| - 1], reverse), steps[|steps| - 1], reverse)
  }

  const EMPTY := State(map[], map[], [])

  // ----------------------------------------------------------------- the object

  class SessionManager {
    const reverse: bool
    var sessions: map<string, Session>
    var tunnels: map<string, Tunnel>
    ghost var trace: seq<Action>

    ghost function Now(): State
      reads this
    {
      State(sessions, tunnels, trace)
    }

    constructor (reverse: bool)
      ensures Now() == EMPTY && this.reverse == reverse
    {
      this.reverse := reverse;
      sessions, tunnels, trace := map[], map[], [];
    }

    method ReleaseLocked(unit: string, w: World)
      modifies this
      ensures Now() == Released(old(Now()), unit, w)
    {
      sessions := sessions - {unit};
      if unit !in w.reachable {
        trace := trace + [Unresolved(unit)];
        return;
      }
      if unit in tunnels {
        trace := trace + [Close(unit, tunnels[unit].port)];
      }
      trace := trace + [Stop(unit)];
    }

    method Acquire(unit: string, holder: string, now: int, w: World) returns (r: Outcome)
      modifies this
      ensures (Now(), r) == AfterAcquire(old(Now()), unit, holder, now, w, reverse)
    {
      if unit in sessions {
        var current := sessions[unit];
        if now - current.lastSeen <= HEARTBEAT_TIMEOUT_SECONDS {
          return Busy(current.holder, current.startedAt);
        }
        ReleaseLocked(unit, w);
      }
      if !w.serialResolves || (reverse && !w.reverseOpens) {
        return Failed;
      }
      ghost var cleared := trace;
      if reverse {
        trace := trace + [Open(unit, w.port)];
      }
      trace := trace + [Start(unit)];
      if !w.startWorks || (!reverse && !w.forwardOpens) {
        if reverse {
          trace := trace + [Close(unit, w.port)];
        }
        trace := trace + [Stop(unit)];
        ghost var tunnel := if reverse then Some(Tunnel(w.port)) else None;
        assert trace == cleared + (if reverse then [Open(unit, w.port)] else []) + [Start(unit)]
                        + CloseTunnel(unit, tunnel) + [Stop(unit)];
        return Failed;
      }
      if !reverse {
        trace := trace + [Open(unit, w.port)];
      }
      assert trace == cleared + (if reverse then [Open(unit, w.port)] else []) + [Start(unit)]
                      + (if reverse then [] else [Open(unit, w.port)]);
      var session := Session(unit, holder, now, now, w.port);
      sessions := sessions[unit := session];
      tunnels := tunnels[unit := Tunnel(w.port)];
      r := Acquired(session);
    }

    method TakeOver(unit: string, holder: string, now: int, w: World) returns (r: Outcome)
      modifies this
      ensures (Now(), r) == AfterTakeOver(old(Now()), unit, holder, now, w, reverse)
    {
      ReleaseLocked(unit, w);
      r := Acquire(unit, holder, now, w);
    }

    method Heartbeat(unit: string, now: int, holder: Option<string>, w: World) returns (r: Option<Session>)
      modifies this
      ensures (Now(), r) == AfterHeartbeat(old(Now()), unit, now, holder, w)
    {
      if unit !in sessions || (holder.Some? && sessions[unit].holder != holder.value) {
        return None;
      }
      if now - sessions[unit].lastSeen > HEARTBEAT_TIMEOUT_SECONDS {
        ReleaseLocked(unit, w);
        return None;
      }
      var refreshed := sessions[unit].(lastSeen := now);
      sessions := sessions[unit := refreshed];
      r := Some(refreshed);
    }

    /** The stale units are listed first and released after. */
    method Reap(order: seq<string>, now: int, w: World)
      requires Lists(sessions, order)
      modifies this
      ensures Now() == AfterReap(old(Now()), order, now, w)
    {
      var stale := [];
      for i := 0 to |order|
        invariant stale == Stale(Now(), order[..i], now)
      {
        assert order[..i + 1][..i] == order[..i];
        if order[i] in sessions && now - sessions[order[i]].lastSeen > HEARTBEAT_TIMEOUT_SECONDS {
          stale := stale + [order[i]];
        }
      }
      assert order[..|order|] == order;
      ghost var was := Now();
      for i := 0 to |stale|
        invariant Now() == ReleasedAll(was, stale[..i], w)
      {
        assert stale[..i + 1][..i] == stale[..i];
        ReleaseLocked(stale[i], w);
      }
      assert stale[..|stale|] == stale;
      ListingFirstIsTheSame(was, order, now, w);
    }

    method CleanUp(unit: string, mine: Session, w: World)
      modifies this
      ensures Now() == AfterCleanup(old(Now()), unit, mine, w)
    {
      if SameSession(if unit in sessions then Some(sessions[unit]) else None, Some(mine)) {
        ReleaseLocked(unit, w);
      }
    }
  }

  function Stale(s: State, order: seq<string>, now: int): seq<string> {
    if order == [] then []
    else
      var unit := order[|order| - 1];
      Stale(s, order[..|order| - 1], now)
      + (if unit in s.sessions && !Fresh(s.sessions[unit], now) then [unit] else [])
  }

  function ReleasedAll(s: State, units: seq<string>, w: World): State {
    if units == [] then s else Released(ReleasedAll(s, units[..|units| - 1], w), units[|units| - 1], w)
  }

  lemma {:induction false} ReapingTouchesOnly(s: State, order: seq<string>, now: int, w: World, unit: string)
    requires unit !in order
    ensures Current(AfterReap(s, order, now, w), unit) == Current(s, unit)
  {
    if order != [] {
      ReapingTouchesOnly(s, order[..|order| - 1], now, w, unit);
      assert order[|order| - 1] in order;
    }
  }

  lemma {:induction false} ListingFirstIsTheSame(s: State, order: seq<string>, now: int, w: World)
    requires forall i, j :: 0 <= i < j < |order| ==> order[i] != order[j]
    ensures ReleasedAll(s, Stale(s, order, now), w) == AfterReap(s, order, now, w)
  {
    if order != [] {
      var init, unit := order[..|order| - 1], order[|order| - 1];
      ListingFirstIsTheSame(s, init, now, w);
      ReapingTouchesOnly(s, init, now, w, unit);
      var stale := Stale(s, init, now);
      if unit in s.sessions && !Fresh(s.sessions[unit], now) {
        assert (stale + [unit])[..|stale|] == stale;
      } else {
        assert Stale(s, order, now) == stale;
      }
    }
  }

  // ------------------------------------------------- what adb failures leave behind

  /** The server was started on the unit, and no stop has been attempted since. */
  predicate Running(trace: seq<Action>, unit: string) {
    trace != []
    && match trace[|trace| - 1]
       case Start(u) => u == unit || Running(trace[..|trace| - 1], unit)
       case Stop(u) => u != unit && Running(trace[..|trace| - 1], unit)
       case _ => Running(trace[..|trace| - 1], unit)
  }

  /** It was started, and no release has come since, not even one that found no device. */
  predicate Attended(trace: seq<Action>, unit: string) {
    trace != []
    && match trace[|trace| - 1]
       case Start(u) => u == unit || Attended(trace[..|trace| - 1], unit)
       case Stop(u) => u != unit && Attended(trace[..|trace| - 1], unit)
       case Unresolved(u) => u != unit && Attended(trace[..|trace| - 1], unit)
       case _ => Attended(trace[..|trace| - 1], unit)
  }

  /** Nothing is started over a server that is still attended. */
  predicate Alternates(trace: seq<Action>, unit: string) {
    trace == []
    || (Alternates(trace[..|trace| - 1], unit)
        && (trace[|trace| - 1] == Start(unit) ==> !Attended(trace[..|trace| - 1], unit)))
  }

  function PortsStep(ports: set<string>, a: Action, unit: string): set<string> {
    match a
    case Open(u, p) => if u == unit then ports + {p} else ports
    case Close(u, p) => if u == unit then ports - {p} else ports
    case _ => ports
  }

  /** Ports opened for the unit whose closing has not been attempted since. */
  function OpenPorts(trace: seq<Action>, unit: string): set<string> {
    if trace == [] then {}
    else PortsStep(OpenPorts(trace[..|trace| - 1], unit), trace[|trace| - 1], unit)
  }

  /** Those of them opened since the last release that found no device. */
  function AttendedPorts(trace: seq<Action>, unit: string): set<string> {
    if trace == [] then {}
    else if trace[|trace| - 1] == Unresolved(unit) then {}
    else PortsStep(AttendedPorts(trace[..|trace| - 1], unit), trace[|trace| - 1], unit)
  }

  ghost predicate NoneAfter(trace: seq<Action>, a: Action, i: nat) {
    forall k :: i < k < |trace| ==> trace[k] != a
  }

  ghost predicate SomeAfter(trace: seq<Action>, a: Action, i: nat) {
    exists k :: i < k < |trace| && trace[k] == a
  }

  /** A release found no device after a start on it, and no stop has been attempted since that start. */
  ghost predicate LeftRunning(trace: seq<Action>, unit: string) {
    exists i :: 0 <= i < |trace| && trace[i] == Start(unit)
                && NoneAfter(trace, Stop(unit), i) && SomeAfter(trace, Unresolved(unit), i)
  }

  /** The same of a tunnel: opened, a release that found no device, no attempt to close it since. */
  ghost predicate LeftOpen(trace: seq<Action>, unit: string, port: string) {
    exists i :: 0 <= i < |trace| && trace[i] == Open(unit, port)
                && NoneAfter(trace, Close(unit, port), i) && SomeAfter(trace, Unresolved(unit), i)
  }

  lemma {:induction false} RunningIff(trace: seq<Action>, unit: string)
    ensures Running(trace, unit) <==>
            exists i :: 0 <= i < |trace| && trace[i] == Start(unit) && NoneAfter(trace, Stop(unit), i)
  {
    if trace != [] {
      var n := |trace| - 1;
      var init := trace[..n];
      RunningIff(init, unit);
      if i :| 0 <= i < n && init[i] == Start(unit) && NoneAfter(init, Stop(unit), i) {
        assert trace[i] == Start(unit);
        assert trace[n] != Stop(unit) ==> NoneAfter(trace, Stop(unit), i);
      }
      if i :| 0 <= i < n && trace[i] == Start(unit) && NoneAfter(trace, Stop(unit), i) {
        assert trace[n] != Stop(unit);
        assert init[i] == Start(unit) && NoneAfter(init, Stop(unit), i);
      }
      assert trace[n] == Start(unit) ==> NoneAfter(trace, Stop(unit), n);
    }
  }

  lemma {:induction false} AttendedIff(trace: seq<Action>, unit: string)
    ensures Attended(trace, unit) <==>
            exists i :: 0 <= i < |trace| && trace[i] == Start(unit)
                        && NoneAfter(trace, Stop(unit), i) && NoneAfter(trace, Unresolved(unit), i)
  {
    if trace != [] {
      var n := |trace| - 1;
      var init := trace[..n];
      AttendedIff(init, unit);
      if i :| 0 <= i < n && init[i] == Start(unit)
              && NoneAfter(init, Stop(unit), i) && NoneAfter(init, Unresolved(unit), i) {
        assert trace[i] == Start(unit);
        assert trace[n] != Stop(unit) && trace[n] != Unresolved(unit) ==>
            NoneAfter(trace, Stop(unit), i) && NoneAfter(trace, Unresolved(unit), i);
      }
      if i :| 0 <= i < n && trace[i] == Start(unit)
              && NoneAfter(trace, Stop(unit), i) && NoneAfter(trace, Unresolved(unit), i) {
        assert trace[n] != Stop(unit) && trace[n] != Unresolved(unit);
        assert init[i] == Start(unit) && NoneAfter(init, Stop(unit), i) && NoneAfter(init, Unresolved(unit), i);
      }
      assert trace[n] == Start(unit) ==> NoneAfter(trace, Stop(unit), n) && NoneAfter(trace, Unresolved(unit), n);
    }
  }

  /** A server is started and not stopped if it is attended, or was left behind by a release. */
  lemma RunningSplits(trace: seq<Action>, unit: string)
    ensures Running(trace, unit) <==> Attended(trace, unit) || LeftRunning(trace, unit)
  {
    RunningIff(trace, unit);
    AttendedIff(trace, unit);
    if i :| 0 <= i < |trace| && trace[i] == Start(unit) && NoneAfter(trace, Stop(unit), i) {
      assert SomeAfter(trace, Unresolved(unit), i) || NoneAfter(trace, Unresolved(unit), i);
    }
  }

  lemma {:induction false} OpenIff(trace: seq<Action>, unit: string, port: string)
    ensures port in OpenPorts(trace, unit) <==>
            exists i :: 0 <= i < |trace| && trace[i] == Open(unit, port) && NoneAfter(trace, Close(unit, port), i)
  {
    if trace != [] {
      var n := |trace| - 1;
      var init := trace[..n];
      OpenIff(init, unit, port);
      if i :| 0 <= i < n && init[i] == Open(unit, port) && NoneAfter(init, Close(unit, port), i) {
        assert trace[i] == Open(unit, port);
        assert trace[n] != Close(unit, port) ==> NoneAfter(trace, Close(unit, port), i);
      }
      if i :| 0 <= i < n && trace[i] == Open(unit, port) && NoneAfter(trace, Close(unit, port), i) {
        assert trace[n] != Close(unit, port);
        assert init[i] == Open(unit, port) && NoneAfter(init, Close(unit, port), i);
      }
      assert trace[n] == Open(unit, port) ==> NoneAfter(trace, Close(unit, port), n);
    }
  }

  lemma {:induction false} AttendedPortIff(trace: seq<Action>, unit: string, port: string)
    ensures port in AttendedPorts(trace, unit) <==>
            exists i :: 0 <= i < |trace| && trace[i] == Open(unit, port)
                        && NoneAfter(trace, Close(unit, port), i) && NoneAfter(trace, Unresolved(unit), i)
  {
    if trace != [] {
      var n := |trace| - 1;
      var init := trace[..n];
      AttendedPortIff(init, unit, port);
      if i :| 0 <= i < n && init[i] == Open(unit, port)
              && NoneAfter(init, Close(unit, port), i) && NoneAfter(init, Unresolved(unit), i) {
        assert trace[i] == Open(unit, port);
        assert trace[n] != Close(unit, port) && trace[n] != Unresolved(unit) ==>
            NoneAfter(trace, Close(unit, port), i) && NoneAfter(trace, Unresolved(unit), i);
      }
      if i :| 0 <= i < n && trace[i] == Open(unit, port)
              && NoneAfter(trace, Close(unit, port), i) && NoneAfter(trace, Unresolved(unit), i) {
        assert trace[n] != Close(unit, port) && trace[n] != Unresolved(unit);
        assert init[i] == Open(unit, port)
            && NoneAfter(init, Close(unit, port), i) && NoneAfter(init, Unresolved(unit), i);
      }
      assert trace[n] == Open(unit, port) ==>
          NoneAfter(trace, Close(unit, port), n) && NoneAfter(trace, Unresolved(unit), n);
    }
  }

  lemma OpenSplits(trace: seq<Action>, unit: string, port: string)
    ensures port in OpenPorts(trace, unit) <==> port in AttendedPorts(trace, unit) || LeftOpen(trace, unit, port)
  {
    OpenIff(trace, unit, port);
    AttendedPortIff(trace, unit, port);
    if i :| 0 <= i < |trace| && trace[i] == Open(unit, port) && NoneAfter(trace, Close(unit, port), i) {
      assert SomeAfter(trace, Unresolved(unit), i) || NoneAfter(trace, Unresolved(unit), i);
    }
  }

  /** So between two starts on a unit there is a stop, or a release that found no device. */
  lemma {:induction false} StopOrUnresolvedBetween(trace: seq<Action>, unit: string, i: nat, j: nat)
    requires Alternates(trace, unit)
    requires i < j < |trace| && trace[i] == Start(unit) && trace[j] == Start(unit)
    ensures exists k :: i < k < j && (trace[k] == Stop(unit) || trace[k] == Unresolved(unit))
    decreases |trace|
  {
    var init := trace[..|trace| - 1];
    if j < |trace| - 1 {
      StopOrUnresolvedBetween(init, unit, i, j);
      var k :| i < k < j && (init[k] == Stop(unit) || init[k] == Unresolved(unit));
      assert trace[k] == init[k];
    } else {
      AttendedIff(init, unit);
      assert init[i] == Start(unit);
      assert !NoneAfter(init, Stop(unit), i) || !NoneAfter(init, Unresolved(unit), i);
      var k :| i < k < |init| && (init[k] == Stop(unit) || init[k] == Unresolved(unit));
      assert trace[k] == init[k];
    }
  }

  /** One more action. */
  lemma ActionKeeps(trace: seq<Action>, a: Action, unit: string)
    requires Alternates(trace, unit) && (a == Start(unit) ==> !Attended(trace, unit))
    ensures Alternates(trace + [a], unit)
    ensures Attended(trace + [a], unit) ==
            (a == Start(unit) || (Attended(trace, unit) && a != Stop(unit) && a != Unresolved(unit)))
    ensures AttendedPorts(trace + [a], unit) ==
            if a == Unresolved(unit) then {} else PortsStep(AttendedPorts(trace, unit), a, unit)
  {
    assert (trace + [a])[..|trace|] == trace;
  }

  /**
   * A unit's session has a tunnel with its own port; the attended server and the
   * attended tunnel are exactly those of the held session.
   */
  ghost predicate UnitValid(s: State, unit: string) {
    && (unit in s.sessions ==>
          && unit in s.tunnels && s.tunnels[unit].port == s.sessions[unit].localPort
          && s.sessions[unit].unit == unit)
    && Alternates(s.trace, unit)
    && (Attended(s.trace, unit) <==> unit in s.sessions)
    && AttendedPorts(s.trace, unit) == if unit in s.sessions then {s.sessions[unit].localPort} else {}
  }

  lemma CloseAndStop(trace: seq<Action>, unit: string, port: string, u: string)
    requires Alternates(trace, u)
    ensures var more := trace + ([Close(unit, port)] + [Stop(unit)]);
            && Alternates(more, u)
            && Attended(more, u) == (Attended(trace, u) && u != unit)
            && AttendedPorts(more, u) == PortsStep(AttendedPorts(trace, u), Close(unit, port), u)
  {
    ActionKeeps(trace, Close(unit, port), u);
    ActionKeeps(trace + [Close(unit, port)], Stop(unit), u);
    assert trace + ([Close(unit, port)] + [Stop(unit)]) == trace + [Close(unit, port)] + [Stop(unit)];
  }

  lemma ReleaseKeeps(s: State, unit: string, w: World, u: string)
    requires UnitValid(s, u)
    ensures UnitValid(Released(s, unit, w), u)
  {
    var s' := Released(s, unit, w);
    if unit !in w.reachable {
      ActionKeeps(s.trace, Unresolved(unit), u);
    } else if unit in s.tunnels {
      CloseAndStop(s.trace, unit, s.tunnels[unit].port, u);
    } else {
      ActionKeeps(s.trace, Stop(unit), u);
      assert s'.trace == s.trace + [Stop(unit)];
    }
  }

  lemma OpenAndStart(trace: seq<Action>, unit: string, port: string, u: string)
    requires Alternates(trace, u) && (u == unit ==> !Attended(trace, u))
    ensures var more := trace + [Open(unit, port)] + [Start(unit)];
            && Alternates(more, u)
            && Attended(more, u) == (Attended(trace, u) || u == unit)
            && AttendedPorts(more, u) == PortsStep(AttendedPorts(trace, u), Open(unit, port), u)
  {
    ActionKeeps(trace, Open(unit, port), u);
    if u == unit {
      assert !Attended(trace + [Open(unit, port)], unit);
    }
    ActionKeeps(trace + [Open(unit, port)], Start(unit), u);
  }

  lemma EstablishReverseKeeps(s: State, unit: string, holder: string, now: int, w: World, u: string)
    requires UnitValid(s, u) && unit !in s.sessions
    ensures UnitValid(Establish(s, unit, holder, now, w, true).0, u)
  {
    var s' := Establish(s, unit, holder, now, w, true).0;
    if w.serialResolves && w.reverseOpens {
      var started := s.trace + [Open(unit, w.port)] + [Start(unit)];
      OpenAndStart(s.trace, unit, w.port, u);
      if w.startWorks {
        assert s'.trace == started;
      } else {
        CloseAndStop(started, unit, w.port, u);
        assert s'.trace == started + ([Close(unit, w.port)] + [Stop(unit)]);
      }
    }
  }

  lemma EstablishForwardKeeps(s: State, unit: string, holder: string, now: int, w: World, u: string)
    requires UnitValid(s, u) && unit !in s.sessions
    ensures UnitValid(Establish(s, unit, holder, now, w, false).0, u)
  {
    var s' := Establish(s, unit, holder, now, w, false).0;
    if w.serialResolves {
      var started := s.trace + [Start(unit)];
      ActionKeeps(s.trace, Start(unit), u);
      assert s.trace + [] + [Start(unit)] == started;
      if !w.startWorks || !w.forwardOpens {
        ActionKeeps(started, Stop(unit), u);
        assert s'.trace == started + [Stop(unit)];
      } else {
        ActionKeeps(started, Open(unit, w.port), u);
        assert s'.trace == started + [Open(unit, w.port)];
      }
    }
  }

  lemma AcquireKeeps(s: State, unit: string, holder: string, now: int, w: World, reverse: bool, u: string)
    requires UnitValid(s, u)
    ensures UnitValid(AfterAcquire(s, unit, holder, now, w, reverse).0, u)
  {
    ReleaseKeeps(s, unit, w, u);
    var cleared := if unit in s.sessions then Released(s, unit, w) else s;
    if reverse {
      EstablishReverseKeeps(cleared, unit, holder, now, w, u);
    } else {
      EstablishForwardKeeps(cleared, unit, holder, now, w, u);
    }
  }

  lemma {:induction false} ReapKeeps(s: State, order: seq<string>, now: int, w: World, u: string)
    requires UnitValid(s, u)
    ensures UnitValid(AfterReap(s, order, now, w), u)
  {
    if order != [] {
      ReapKeeps(s, order[..|order| - 1], now, w, u);
      ReleaseKeeps(AfterReap(s, order[..|order| - 1], now, w), order[|order| - 1], w, u);
    }
  }

  lemma HeartbeatKeeps(s: State, unit: string, now: int, holder: Option<string>, w: World, u: string)
    requires UnitValid(s, u)
    ensures UnitValid(AfterHeartbeat(s, unit, now, holder, w).0, u)
  {
    ReleaseKeeps(s, unit, w, u);
  }

  lemma NextKeeps(s: State, step: Step, reverse: bool, u: string)
    requires UnitValid(s, u)
    ensures UnitValid(Next(s, step, reverse), u)
  {
    match step
    case Acquire(unit, holder, now, w) => AcquireKeeps(s, unit, holder, now, w, reverse, u);
    case TakeOver(unit, holder, now, w) =>
      ReleaseKeeps(s, unit, w, u);
      AcquireKeeps(Released(s, unit, w), unit, holder, now, w, reverse, u);
    case Heartbeat(unit, now, holder, w) => HeartbeatKeeps(s, unit, now, holder, w, u);
    case Release(unit, now, w) => ReleaseKeeps(s, unit, w, u);
    case Reap(order, now, w) => ReapKeeps(s, order, now, w, u);
  }

  lemma {:induction false} ReachableIsValid(steps: seq<Step>, reverse: bool, unit: string)
    ensures UnitValid(Run(EMPTY, steps, reverse), unit)
  {
    if steps != [] {
      ReachableIsValid(steps[..|steps| - 1], reverse, unit);
      NextKeeps(Run(EMPTY, steps[..|steps| - 1], reverse), steps[|steps| - 1], reverse, unit);
    }
  }

  /**
   * What is on a phone, exactly, in every reachable state and under any failures:
   * a start with no stop attempted since belongs to the held session or was left
   * behind by a release that found no device, and the same of every open tunnel.
   */
  lemma LeftBehindIff(steps: seq<Step>, reverse: bool, unit: string, port: string)
    ensures var s := Run(EMPTY, steps, reverse);
            && (unit in s.sessions ==> unit in s.tunnels && s.tunnels[unit].port == s.sessions[unit].localPort)
            && (Running(s.trace, unit) <==> unit in s.sessions || LeftRunning(s.trace, unit))
            && (port in OpenPorts(s.trace, unit) <==>
                  || (unit in s.sessions && s.sessions[unit].localPort == port)
                  || LeftOpen(s.trace, unit, port))
  {
    ReachableIsValid(steps, reverse, unit);
    LeftOnAValidUnit(Run(EMPTY, steps, reverse), unit, port);
  }

  lemma LeftOnAValidUnit(s: State, unit: string, port: string)
    requires UnitValid(s, unit)
    ensures Running(s.trace, unit) <==> unit in s.sessions || LeftRunning(s.trace, unit)
    ensures port in OpenPorts(s.trace, unit) <==>
            || (unit in s.sessions && s.sessions[unit].localPort == port)
            || LeftOpen(s.trace, unit, port)
  {
    RunningSplits(s.trace, unit);
    OpenSplits(s.trace, unit, port);
  }

  lemma {:induction false} ReapResolves(s: State, order: seq<string>, now: int, w: World, unit: string)
    requires unit in w.reachable && Unresolved(unit) !in s.trace
    ensures Unresolved(unit) !in AfterReap(s, order, now, w).trace
  {
    if order != [] {
      ReapResolves(s, order[..|order| - 1], now, w, unit);
    }
  }

  /** On a unit whose device every release can find, a stop comes between any two starts. */
  lemma StopBetweenStarts(steps: seq<Step>, reverse: bool, unit: string)
    requires forall step :: step in steps ==> unit in step.w.reachable
    ensures var trace := Run(EMPTY, steps, reverse).trace;
            && Unresolved(unit) !in trace
            && forall i, j :: 0 <= i < j < |trace| && trace[i] == Start(unit) && trace[j] == Start(unit) ==>
                 exists k :: i < k < j && trace[k] == Stop(unit)
  {
    var trace := Run(EMPTY, steps, reverse).trace;
    NeverUnresolved(steps, reverse, unit);
    assert Alternates(trace, unit) by {
      ReachableIsValid(steps, reverse, unit);
    }
    forall i, j | 0 <= i < j < |trace| && trace[i] == Start(unit) && trace[j] == Start(unit)
      ensures exists k :: i < k < j && trace[k] == Stop(unit)
    {
      StopOrUnresolvedBetween(trace, unit, i, j);
      var k :| i < k < j && (trace[k] == Stop(unit) || trace[k] == Unresolved(unit));
      assert trace[k] in trace;
    }
  }

  lemma ReleaseResolves(s: State, u: string, w: World, unit: string)
    requires unit in w.reachable && Unresolved(unit) !in s.trace
    ensures Unresolved(unit) !in Released(s, u, w).trace
  {}

  lemma EstablishResolves(s: State, u: string, holder: string, now: int, w: World, reverse: bool, unit: string)
    requires Unresolved(unit) !in s.trace
    ensures Unresolved(unit) !in Establish(s, u, holder, now, w, reverse).0.trace
  {}

  lemma AcquireResolves(s: State, u: string, holder: string, now: int, w: World, reverse: bool, unit: string)
    requires unit in w.reachable && Unresolved(unit) !in s.trace
    ensures Unresolved(unit) !in AfterAcquire(s, u, holder, now, w, reverse).0.trace
  {
    ReleaseResolves(s, u, w, unit);
    EstablishResolves(s, u, holder, now, w, reverse, unit);
    EstablishResolves(Released(s, u, w), u, holder, now, w, reverse, unit);
  }

  lemma StepResolves(s: State, step: Step, reverse: bool, unit: string)
    requires unit in step.w.reachable && Unresolved(unit) !in s.trace
    ensures Unresolved(unit) !in Next(s, step, reverse).trace
  {
    match step
    case Acquire(u, holder, now, w) => AcquireResolves(s, u, holder, now, w, reverse, unit);
    case TakeOver(u, holder, now, w) =>
      ReleaseResolves(s, u, w, unit);
      AcquireResolves(Released(s, u, w), u, holder, now, w, reverse, unit);
    case Heartbeat(u, now, holder, w) => ReleaseResolves(s, u, w, unit);
    case Release(u, now, w) => ReleaseResolves(s, u, w, unit);
    case Reap(order, now, w) => ReapResolves(s, order, now, w, unit);
  }

  lemma {:induction false} NeverUnresolved(steps: seq<Step>, reverse: bool, unit: string)
    requires forall step :: step in steps ==> unit in step.w.reachable
    ensures Unresolved(unit) !in Run(EMPTY, steps, reverse).trace
  {
    if steps != [] {
      assert steps[|steps| - 1] in steps;
      NeverUnresolved(steps[..|steps| - 1], reverse, unit);
      StepResolves(Run(EMPTY, steps[..|steps| - 1], reverse), steps[|steps| - 1], reverse, unit);
    }
  }

  lemma FailedEstablishStops(s: State, unit: string, holder: string, now: int, w: World, reverse: bool, i: int)
    ensures var (s', r) := Establish(s, unit, holder, now, w, reverse);
            && s.trace <= s'.trace
            && (r.Failed? && |s.trace| <= i < |s'.trace| ==>
                  && (s'.trace[i] == Start(unit) ==> SomeAfter(s'.trace, Stop(unit), i))
                  && (forall p :: s'.trace[i] == Open(unit, p) ==> SomeAfter(s'.trace, Close(unit, p), i)))
  {
    var (s', r) := Establish(s, unit, holder, now, w, reverse);
    var n := |s'.trace|;
    if r.Failed? && |s.trace| <= i < n {
      assert s'.trace[n - 1] == Stop(unit);
      assert reverse ==> s'.trace[n - 2] == Close(unit, w.port);
    }
  }

  /**
   * A failed acquisition leaves no session, and has attempted a stop after its own
   * start and a close after its own tunnel; so what it leaves on the phone is
   * exactly what some release, its own or an earlier one, could not clean up.
   */
  lemma FailedAcquireCleansUp(
    steps: seq<Step>, unit: string, holder: string, now: int, w: World, reverse: bool, port: string, i: int)
    ensures var s := Run(EMPTY, steps, reverse);
            var (s', r) := AfterAcquire(s, unit, holder, now, w, reverse);
            r.Failed? ==>
              && unit !in s'.sessions
              && s.trace <= s'.trace
              && (|s.trace| <= i < |s'.trace| ==>
                    && (s'.trace[i] == Start(unit) ==> SomeAfter(s'.trace, Stop(unit), i))
                    && (forall p :: s'.trace[i] == Open(unit, p) ==> SomeAfter(s'.trace, Close(unit, p), i)))
              && (Running(s'.trace, unit) <==> LeftRunning(s'.trace, unit))
              && (port in OpenPorts(s'.trace, unit) <==> LeftOpen(s'.trace, unit, port))
  {
    var s := Run(EMPTY, steps, reverse);
    ReachableIsValid(steps, reverse, unit);
    AcquireKeeps(s, unit, holder, now, w, reverse, unit);
    LeftOnAValidUnit(AfterAcquire(s, unit, holder, now, w, reverse).0, unit, port);
    FailedAcquireStops(s, unit, holder, now, w, reverse, i);
  }

  lemma FailedAcquireStops(s: State, unit: string, holder: string, now: int, w: World, reverse: bool, i: int)
    ensures var (s', r) := AfterAcquire(s, unit, holder, now, w, reverse);
            && s.trace <= s'.trace
            && (r.Failed? ==>
                  && unit !in s'.sessions
                  && (|s.trace| <= i < |s'.trace| ==>
                        && (s'.trace[i] == Start(unit) ==> SomeAfter(s'.trace, Stop(unit), i))
                        && (forall p :: s'.trace[i] == Open(unit, p) ==> SomeAfter(s'.trace, Close(unit, p), i))))
  {
    FailedEstablishStops(s, unit, holder, now, w, reverse, i);
    FailedEstablishStops(Released(s, unit, w), unit, holder, now, w, reverse, i);
  }

  // ------------------------------------------------------------ taking a session

  /** What stands in the way of an acquisition: a session that beat at most 30 seconds ago. */
  predicate Taken(s: State, unit: string, now: int) {
    unit in s.sessions && now - s.sessions[unit].lastSeen <= 30
  }

  /** An acquisition that nothing stands in the way of succeeds exactly if every call it makes does. */
  predicate CallsWork(w: World, reverse: bool) {
    && w.serialResolves
    && w.startWorks
    && (reverse ==> w.reverseOpens)
    && (!reverse ==> w.forwardOpens)
  }

  /**
   * The outcome of an acquisition, exactly: refused by name while the unit is
   * taken, and otherwise a session of the caller, begun and last seen now, or a
   * failure, as the calls go. No other unit's session is touched.
   */
  lemma AcquisitionIs(s: State, unit: string, holder: string, now: int, w: World, reverse: bool, other: string)
    ensures var (s', r) := AfterAcquire(s, unit, holder, now, w, reverse);
            && (Taken(s, unit, now) ==>
                  s' == s && r == Busy(s.sessions[unit].holder, s.sessions[unit].startedAt))
            && (!Taken(s, unit, now) && CallsWork(w, reverse) ==>
                  && r == Acquired(Session(unit, holder, now, now, w.port))
                  && unit in s'.sessions && s'.sessions[unit] == Session(unit, holder, now, now, w.port))
            && (!Taken(s, unit, now) && !CallsWork(w, reverse) ==> r == Failed && unit !in s'.sessions)
            && (other != unit ==> Current(s', other) == Current(s, other))
  {}

  /** A takeover asks nobody: it leaves what an acquisition of a free unit leaves. */
  lemma TakeOverIs(s: State, unit: string, holder: string, now: int, w: World, reverse: bool, other: string)
    ensures var (s', r) := AfterTakeOver(s, unit, holder, now, w, reverse);
            && (CallsWork(w, reverse) ==>
                  && r == Acquired(Session(unit, holder, now, now, w.port))
                  && unit in s'.sessions && s'.sessions[unit] == Session(unit, holder, now, now, w.port))
            && (!CallsWork(w, reverse) ==> r == Failed && unit !in s'.sessions)
            && (other != unit ==> Current(s', other) == Current(s, other))
  {
    AcquisitionIs(Released(s, unit, w), unit, holder, now, w, reverse, other);
  }

  /**
   * A beat, exactly: the holder's, or an anonymous one, on a session seen in the
   * last 30 seconds makes it seen now; on an older one it ends it; and anybody
   * else's changes nothing.
   */
  lemma HeartbeatIs(s: State, unit: string, now: int, holder: Option<string>, w: World, other: string)
    ensures var (s', r) := AfterHeartbeat(s, unit, now, holder, w);
            && (unit !in s.sessions || (holder.Some? && holder.value != s.sessions[unit].holder) ==> s' == s && r == None)
            && (unit in s.sessions && (holder == None || holder == Some(s.sessions[unit].holder)) ==>
                  if now - s.sessions[unit].lastSeen <= 30
                  then && r == Some(s.sessions[unit].(lastSeen := now))
                       && unit in s'.sessions && s'.sessions[unit] == r.value && s'.trace == s.trace
                  else r == None && unit !in s'.sessions)
            && (other != unit ==> Current(s', other) == Current(s, other))
  {}

  /**
   * A session just acquired, or taken over, is its holder's for 30 seconds: until
   * then every acquisition of the unit is refused by its name and start, and from
   * then on none is.
   */
  lemma FreshSessionRefuses(
    s: State, unit: string, holder: string, now: int, w: World, reverse: bool, takeOver: bool,
    rival: string, later: int, w': World)
    ensures var (s', r) := if takeOver then AfterTakeOver(s, unit, holder, now, w, reverse)
                           else AfterAcquire(s, unit, holder, now, w, reverse);
            var second := AfterAcquire(s', unit, rival, later, w', reverse);
            r.Acquired? ==>
              && (later - now <= 30 ==> second == (s', Busy(holder, now)))
              && (later - now > 30 ==> !second.1.Busy?)
  {
    AcquisitionIs(s, unit, holder, now, w, reverse, unit);
    TakeOverIs(s, unit, holder, now, w, reverse, unit);
    var s' := (if takeOver then AfterTakeOver(s, unit, holder, now, w, reverse)
               else AfterAcquire(s, unit, holder, now, w, reverse)).0;
    AcquisitionIs(s', unit, rival, later, w', reverse, unit);
  }

  // -------------------------------------------------------------------- the lease

  /** At each step the last beat of the holder (or an anonymous one) is at most 30 s ago, and nobody ends the session. */
  ghost predicate KeptAlive(steps: seq<Step>, unit: string, holder: string, last: int) {
    steps == []
    || (var step := steps[0];
        && !(step.Release? && step.unit == unit)
        && !(step.TakeOver? && step.unit == unit)
        && step.now - last <= 30
        && KeptAlive(steps[1..], unit, holder, if Beats(step, unit, holder) then step.now else last))
  }

  predicate Beats(step: Step, unit: string, holder: string) {
    step.Heartbeat? && step.unit == unit && (step.beatHolder.None? || step.beatHolder.value == holder)
  }

  /** Outcomes of the acquisitions of one unit along a run. */
  function Attempts(s: State, steps: seq<Step>, unit: string, reverse: bool): seq<Outcome>
    decreases |steps|
  {
    if steps == [] then []
    else
      (if steps[0].Acquire? && steps[0].unit == unit
       then [AfterAcquire(s, unit, steps[0].holder, steps[0].now, steps[0].w, reverse).1] else [])
      + Attempts(Next(s, steps[0], reverse), steps[1..], unit, reverse)
  }

  lemma {:induction false} ReapSparesTheFresh(s: State, order: seq<string>, now: int, w: World, unit: string)
    requires unit in s.sessions && Fresh(s.sessions[unit], now)
    ensures var s' := AfterReap(s, order, now, w);
            unit in s'.sessions && s'.sessions[unit] == s.sessions[unit]
  {
    if order != [] {
      ReapSparesTheFresh(s, order[..|order| - 1], now, w, unit);
    }
  }

  /** One step, by whoever, leaves a fresh session as it is but for its last beat. */
  lemma StepSparesTheFresh(s: State, step: Step, reverse: bool, unit: string)
    requires unit in s.sessions && Fresh(s.sessions[unit], step.now)
    requires !(step.Release? && step.unit == unit) && !(step.TakeOver? && step.unit == unit)
    ensures var s' := Next(s, step, reverse);
            && unit in s'.sessions
            && s'.sessions[unit] == s.sessions[unit].(lastSeen :=
                 if Beats(step, unit, s.sessions[unit].holder) then step.now else s.sessions[unit].lastSeen)
  {
    match step
    case Reap(order, now, w) => ReapSparesTheFresh(s, order, now, w, unit);
    case _ =>
  }

  lemma {:induction false} RunOfTail(s: State, steps: seq<Step>, reverse: bool)
    requires steps != []
    ensures Run(s, steps, reverse) == Run(Next(s, steps[0], reverse), steps[1..], reverse)
    decreases |steps|
  {
    if |steps| == 1 {
      assert steps[..0] == [] && steps[1..] == [];
    } else {
      var init := steps[..|steps| - 1];
      RunOfTail(s, init, reverse);
      assert init[1..] == steps[1..][..|steps[1..]| - 1];
    }
  }

  /**
   * Through any interleaving of acquisitions, heartbeats and reaps, by anyone on
   * any unit, a session whose holder beats at least every 30 seconds stays, with
   * its holder, start and port; and every acquisition of its unit meanwhile is
   * refused, naming its holder.
   */
  lemma {:induction false} BeatingHolderKeepsTheSession(s: State, steps: seq<Step>, reverse: bool, unit: string)
    requires unit in s.sessions
    requires KeptAlive(steps, unit, s.sessions[unit].holder, s.sessions[unit].lastSeen)
    ensures var s' := Run(s, steps, reverse);
            && unit in s'.sessions
            && SameSession(Current(s', unit), Some(s.sessions[unit]))
    ensures forall r :: r in Attempts(s, steps, unit, reverse) ==>
                        r == Busy(s.sessions[unit].holder, s.sessions[unit].startedAt)
    decreases |steps|
  {
    if steps != [] {
      var s1 := Next(s, steps[0], reverse);
      StepSparesTheFresh(s, steps[0], reverse, unit);
      BeatingHolderKeepsTheSession(s1, steps[1..], reverse, unit);
      RunOfTail(s, steps, reverse);
    }
  }

  /**
   * The same from the moment a session is acquired or taken over: counted from
   * then, beats at most 30 seconds apart keep it, as it was begun.
   */
  lemma AcquiredSessionIsKept(
    s: State, unit: string, holder: string, now: int, w: World, reverse: bool, takeOver: bool, steps: seq<Step>)
    requires KeptAlive(steps, unit, holder, now)
    ensures var (s1, r) := if takeOver then AfterTakeOver(s, unit, holder, now, w, reverse)
                           else AfterAcquire(s, unit, holder, now, w, reverse);
            var s' := Run(s1, steps, reverse);
            r.Acquired? ==>
              && unit in s'.sessions
              && s'.sessions[unit].holder == holder
              && s'.sessions[unit].startedAt == now
              && s'.sessions[unit].localPort == w.port
              && forall a :: a in Attempts(s1, steps, unit, reverse) ==> a == Busy(holder, now)
  {
    AcquisitionIs(s, unit, holder, now, w, reverse, unit);
    TakeOverIs(s, unit, holder, now, w, reverse, unit);
    var (s1, r) := if takeOver then AfterTakeOver(s, unit, holder, now, w, reverse)
                   else AfterAcquire(s, unit, holder, now, w, reverse);
    if r.Acquired? {
      BeatingHolderKeepsTheSession(s1, steps, reverse, unit);
    }
  }

  /** A reap ends exactly the sessions whose lease has run out, and changes no other. */
  lemma ReapEndsExactlyTheStale(s: State, order: seq<string>, now: int, w: World, unit: string)
    requires Lists(s.sessions, order)
    ensures var s' := AfterReap(s, order, now, w);
            && (unit in s'.sessions <==> unit in s.sessions && Fresh(s.sessions[unit], now))
            && (unit in s'.sessions ==> s'.sessions[unit] == s.sessions[unit])
  {
    ReapEndsTheListed(s, order, now, w, unit);
    ReapChangesNoSession(s, order, now, w, unit);
  }

  lemma {:induction false} ReapEndsTheListed(s: State, order: seq<string>, now: int, w: World, unit: string)
    ensures unit in AfterReap(s, order, now, w).sessions
            <==> unit in s.sessions && (unit in order ==> Fresh(s.sessions[unit], now))
  {
    if order != [] {
      var init := order[..|order| - 1];
      ReapEndsTheListed(s, init, now, w, unit);
      assert order == init + [order[|order| - 1]];
      ReapChangesNoSession(s, init, now, w, unit);
    }
  }

  lemma {:induction false} ReapChangesNoSession(s: State, order: seq<string>, now: int, w: World, unit: string)
    ensures var s' := AfterReap(s, order, now, w);
            unit in s'.sessions ==> unit in s.sessions && s'.sessions[unit] == s.sessions[unit]
  {
    if order != [] {
      ReapChangesNoSession(s, order[..|order| - 1], now, w, unit);
    }
  }

  // ------------------------------------------------------------ the socket's cleanup

  /** Whether a step ends, or replaces, the session a unit has. */
  predicate Ends(s: State, step: Step, unit: string)
    requires unit in s.sessions
  {
    match step
    case Acquire(u, _, now, _) => u == unit && !Fresh(s.sessions[unit], now)
    case TakeOver(u, _, _, _) => u == unit
    case Heartbeat(u, now, holder, _) =>
      u == unit && (holder.None? || holder.value == s.sessions[unit].holder) && !Fresh(s.sessions[unit], now)
    case Release(u, _, _) => u == unit
    case Reap(order, now, _) => Lists(s.sessions, order) && !Fresh(s.sessions[unit], now)
  }

  /** The session the unit has now is never ended along the run. */
  ghost predicate Survives(s: State, steps: seq<Step>, unit: string, reverse: bool)
    decreases |steps|
  {
    unit in s.sessions
    && (steps == []
        || (!Ends(s, steps[0], unit) && Survives(Next(s, steps[0], reverse), steps[1..], unit, reverse)))
  }

  /** An acquisition by the same device in the same second on the same port: nothing tells it from `mine`. */
  predicate LooksLike(step: Step, unit: string, mine: Session) {
    && (step.Acquire? || step.TakeOver?)
    && step.unit == unit
    && step.holder == mine.holder
    && step.now == mine.startedAt
    && step.w.port == mine.localPort
  }

  predicate Establishes(s: State, step: Step, reverse: bool) {
    match step
    case Acquire(u, holder, now, w) => AfterAcquire(s, u, holder, now, w, reverse).1.Acquired?
    case TakeOver(u, holder, now, w) => AfterTakeOver(s, u, holder, now, w, reverse).1.Acquired?
    case _ => false
  }

  /** Some step establishes a look-alike of `mine` that is then never ended along the run. */
  ghost predicate LookAlikeSurvives(s: State, steps: seq<Step>, unit: string, mine: Session, reverse: bool)
    decreases |steps|
  {
    steps != []
    && (var s1 := Next(s, steps[0], reverse);
        || (LooksLike(steps[0], unit, mine) && Establishes(s, steps[0], reverse)
            && Survives(s1, steps[1..], unit, reverse))
        || LookAlikeSurvives(s1, steps[1..], unit, mine, reverse))
  }

  lemma UnendedStays(s: State, step: Step, reverse: bool, unit: string)
    requires unit in s.sessions && !Ends(s, step, unit)
    ensures var s' := Next(s, step, reverse);
            && unit in s'.sessions
            && SameSession(Some(s'.sessions[unit]), Some(s.sessions[unit]))
  {
    match step
    case Reap(order, now, w) =>
      if Lists(s.sessions, order) {
        ReapEndsExactlyTheStale(s, order, now, w, unit);
      }
    case _ =>
  }

  /** One step: what passes for `mine` afterwards passed for it before, or is a look-alike just established. */
  lemma PassesIff(s: State, step: Step, reverse: bool, unit: string, mine: Session)
    ensures SameSession(Current(Next(s, step, reverse), unit), Some(mine)) <==>
            || (SameSession(Current(s, unit), Some(mine)) && !Ends(s, step, unit))
            || (LooksLike(step, unit, mine) && Establishes(s, step, reverse))
  {
    if unit in s.sessions && !Ends(s, step, unit) {
      UnendedStays(s, step, reverse, unit);
    }
    match step
    case Reap(order, now, w) =>
      if Lists(s.sessions, order) {
        ReapEndsExactlyTheStale(s, order, now, w, unit);
      }
    case _ =>
  }

  /**
   * After any run, what the unit holds passes for `mine` exactly if it did at the
   * start and was never ended, or a look-alike was established and never ended.
   */
  lemma {:induction false} SameSessionIff(s: State, steps: seq<Step>, reverse: bool, unit: string, mine: Session)
    ensures SameSession(Current(Run(s, steps, reverse), unit), Some(mine)) <==>
            || (SameSession(Current(s, unit), Some(mine)) && Survives(s, steps, unit, reverse))
            || LookAlikeSurvives(s, steps, unit, mine, reverse)
    decreases |steps|
  {
    if steps != [] {
      RunOfTail(s, steps, reverse);
      PassesIff(s, steps[0], reverse, unit, mine);
      SameSessionIff(Next(s, steps[0], reverse), steps[1..], reverse, unit, mine);
    }
  }

  lemma {:induction false} NoLookAlikeNoneSurvives(
    s: State, steps: seq<Step>, unit: string, mine: Session, reverse: bool)
    requires forall step :: step in steps ==> !LooksLike(step, unit, mine)
    ensures !LookAlikeSurvives(s, steps, unit, mine, reverse)
    decreases |steps|
  {
    if steps != [] {
      NoLookAlikeNoneSurvives(Next(s, steps[0], reverse), steps[1..], unit, mine, reverse);
    }
  }

  /**
   * A socket's cleanup after any heartbeats, takeovers and the rest: it releases
   * the unit if and only if the session the socket acquired was never ended or
   * replaced, or a look-alike of it is held. So it is right exactly unless a
   * look-alike is held, and always where no acquisition of the unit repeats its
   * holder, second and port.
   */
  lemma CleanupReleasesIff(s: State, steps: seq<Step>, reverse: bool, unit: string, w: World)
    requires unit in s.sessions
    ensures var s', mine := Run(s, steps, reverse), s.sessions[unit];
            var own := Survives(s, steps, unit, reverse);
            && AfterCleanup(s', unit, mine, w)
               == (if own || LookAlikeSurvives(s, steps, unit, mine, reverse) then Released(s', unit, w) else s')
            && (AfterCleanup(s', unit, mine, w) == (if own then Released(s', unit, w) else s')
                <==> own || !LookAlikeSurvives(s, steps, unit, mine, reverse))
            && ((forall step :: step in steps ==> !LooksLike(step, unit, mine)) ==>
                  AfterCleanup(s', unit, mine, w) == if own then Released(s', unit, w) else s')
  {
    SameSessionIff(s, steps, reverse, unit, s.sessions[unit]);
    if forall step :: step in steps ==> !LooksLike(step, unit, s.sessions[unit]) {
      NoLookAlikeNoneSurvives(s, steps, unit, s.sessions[unit], reverse);
    }
  }

  /**
   * Such a look-alike is possible: a takeover by the same device, in the same second and
   * on a recycled port, is taken by the old socket's cleanup for its own session.
   */
  lemma RecycledPortFoolsTheCleanup(s: State, unit: string, w: World, reverse: bool)
    requires unit in s.sessions && s.sessions[unit].unit == unit
    requires s.sessions[unit].localPort == w.port && s.sessions[unit].lastSeen == s.sessions[unit].startedAt
    requires w.serialResolves && w.reverseOpens && w.startWorks && w.forwardOpens
    ensures var mine := s.sessions[unit];
            var (s', r) := AfterTakeOver(s, unit, mine.holder, mine.startedAt, w, reverse);
            && r.Acquired?
            && SameSession(Current(s', unit), Some(mine))
            && unit !in AfterCleanup(s', unit, mine, w).sessions
  {
    assert unit !in Released(s, unit, w).sessions;
  }
}

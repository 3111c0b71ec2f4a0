/**
 * The sockets that hold a session (`renew_lease`, `relay_heartbeat` and
 * `acquire_own` in api.py), between the session manager and the token table.
 * What everyone else does while a socket sleeps is part of the script.
 */
module Leases {
  import opened Prelude
  import S = Sessions
  import T = RefreshTokens

  const RELEASE_GRACE_MS := 8000

  // --------------------------------------------------------- the login's own row

  /** live_refresh: the very row an access token names, not its family. */
  predicate RowLive(rows: T.Tokens, id: int, now: int) {
    exists t :: t in rows && t.id == id && T.Live(t, now)
  }

  /** A socket on the legacy token has no login to follow. */
  predicate LoginLive(rows: T.Tokens, refreshId: Option<int>, now: int) {
    refreshId.None? || RowLive(rows, refreshId.value, now)
  }

  lemma RowLiveAt(rows: T.Tokens, id: int, now: int)
    requires T.Numbered(rows)
    ensures RowLive(rows, id, now) <==> 1 <= id <= |rows| && T.Live(rows[id - 1], now)
  {
    if 1 <= id <= |rows| {
      assert rows[id - 1] in rows;
    }
  }

  /**
   * In every reachable table, the row a socket was opened with is live exactly if
   * its family is live and nothing has been rotated into the family after it.
   */
  lemma RowLiveIff(steps: seq<T.Step>, id: int, now: int)
    requires 1 <= id <= |T.Run([], steps)|
    ensures var rows := T.Run([], steps);
            RowLive(rows, id, now) <==>
              && T.FamilyLive(rows, id, now)
              && forall u :: u in rows && T.FamilyOf(u) == T.FamilyOf(rows[id - 1]) ==> u.id <= id
  {
    var rows := T.Run([], steps);
    T.RunKeeps([], steps);
    RowLiveAt(rows, id, now);
    var t := rows[id - 1];
    T.FamilyLiveIsPerFamily(steps, t, id, now);
    if T.Live(t, now) {
      forall u | u in rows && T.FamilyOf(u) == T.FamilyOf(t)
        ensures u.id <= id
      {
        var j :| 0 <= j < |rows| && rows[j] == u;
      }
    } else if T.FamilyLive(rows, id, now) {
      var u :| u in rows && T.FamilyOf(u) == T.FamilyOf(t) && T.Live(u, now);
      var j :| 0 <= j < |rows| && rows[j] == u;
      assert j >= id - 1;
    }
  }

  lemma {:induction false} DeadRowStaysDead(rows: T.Tokens, steps: seq<T.Step>, id: int, now: int, later: int)
    requires T.Numbered(rows) && 1 <= id <= |rows| && !RowLive(rows, id, now) && now <= later
    ensures T.Numbered(T.Run(rows, steps)) && id <= |T.Run(rows, steps)| && !RowLive(T.Run(rows, steps), id, later)
  {
    RowLiveAt(rows, id, now);
    RowStaysAsDead(rows, steps, id);
    RowLiveAt(T.Run(rows, steps), id, later);
  }

  lemma NextKeepsRow(rows: T.Tokens, step: T.Step, id: int)
    requires T.Numbered(rows) && 1 <= id <= |rows|
    ensures var rows' := T.Next(rows, step);
            && T.Numbered(rows')
            && |rows| <= |rows'|
            && rows'[id - 1].expiresAt == rows[id - 1].expiresAt
            && (rows[id - 1].revokedAt.Some? ==> rows'[id - 1].revokedAt.Some?)
  {
    match step
    case Issue(hash, deviceLabel, scope, at, ttl) =>
    case Rotate(oldHash, newHash, at, ttl) =>
    case Resolve(hash, at) =>
    case Revoke(row, at) =>
    case RevokeAll(at) =>
  }

  lemma {:induction false} RowStaysAsDead(rows: T.Tokens, steps: seq<T.Step>, id: int)
    requires T.Numbered(rows) && 1 <= id <= |rows|
    ensures var rows' := T.Run(rows, steps);
            && T.Numbered(rows')
            && |rows| <= |rows'|
            && rows'[id - 1].expiresAt == rows[id - 1].expiresAt
            && (rows[id - 1].revokedAt.Some? ==> rows'[id - 1].revokedAt.Some?)
  {
    if steps != [] {
      var init, last := steps[..|steps| - 1], steps[|steps| - 1];
      RowStaysAsDead(rows, init, id);
      NextKeepsRow(T.Run(rows, init), last, id);
    }
  }

  /**
   * A routine renewal ends the lease: once the token a socket was opened with is
   * rotated, its row is dead at every later time, although its family lives on.
   */
  lemma RotationEndsTheLease(
    before: seq<T.Step>, oldHash: string, newHash: string, now: int, ttl: int, after: seq<T.Step>, later: int)
    requires ttl > 0 && now <= later && !T.HashTaken(T.Run([], before), newHash)
    ensures var rows := T.Run([], before); var found := T.FindLive(rows, oldHash, now);
            found.Some? ==>
              var id := rows[found.value].id;
              var rotated := T.AfterRotate(rows, oldHash, newHash, now, ttl);
              && RowLive(rows, id, now)
              && T.FamilyLive(rotated, id, now)
              && !RowLive(T.Run(rotated, after), id, later)
  {
    var rows := T.Run([], before);
    var found := T.FindLive(rows, oldHash, now);
    T.RunKeeps([], before);
    if found.Some? {
      var i := found.value;
      var rotated := T.AfterRotate(rows, oldHash, newHash, now, ttl);
      T.RotateKeeps(rows, oldHash, newHash, now, ttl);
      RowLiveAt(rows, i + 1, now);
      RowLiveAt(rotated, i + 1, now);
      assert rotated[i] in rotated && rotated[|rows|] in rotated;
      assert T.Live(rotated[|rows|], now) && T.FamilyOf(rotated[|rows|]) == T.FamilyOf(rotated[i]);
      DeadRowStaysDead(rotated, after, i + 1, now, later);
    }
  }

  // ------------------------------------------------------------- the heartbeat

  /** One turn of the loop: what others did while it slept, then its own renewal and look at the line. */
  datatype Beat = Beat(
    others: seq<S.Step>,
    logins: seq<T.Step>,
    now: int,
    clock: int,
    w: S.World,
    inUse: Option<bool>)

  datatype Scene = Scene(sessions: S.State, rows: T.Tokens)

  /** Whose session a socket holds, under which login. */
  datatype Owner = Owner(unit: string, holder: string, refreshId: Option<int>)

  function Met(c: Scene, b: Beat, reverse: bool): Scene {
    Scene(S.Run(c.sessions, b.others, reverse), T.Run(c.rows, b.logins))
  }

  function Renewal(c: Scene, o: Owner, b: Beat): (S.State, bool) {
    if !LoginLive(c.rows, o.refreshId, b.now) then (c.sessions, false)
    else
      var (s, r) := S.AfterHeartbeat(c.sessions, o.unit, b.clock, Some(o.holder), b.w);
      (s, r.Some?)
  }

  function Turned(c: Scene, o: Owner, b: Beat, reverse: bool): (Scene, bool) {
    var met := Met(c, b, reverse);
    var (s, ok) := Renewal(met, o, b);
    (met.(sessions := s), ok)
  }

  function After(c: Scene, o: Owner, script: seq<Beat>, reverse: bool): Scene {
    if script == [] then c
    else
      Turned(After(c, o, script[..|script| - 1], reverse), o, script[|script| - 1], reverse).0
  }

  predicate RenewedAt(c: Scene, o: Owner, script: seq<Beat>, i: nat, reverse: bool)
    requires i < |script|
  {
    Turned(After(c, o, script[..i], reverse), o, script[i], reverse).1
  }

  predicate SeenInUse(script: seq<Beat>, before: nat)
    requires before <= |script|
  {
    exists j :: 0 <= j < before && script[j].inUse == Some(true)
  }

  /** The line was seen idle after it had been seen in use. */
  predicate HungUpAt(script: seq<Beat>, i: nat)
    requires i < |script|
  {
    script[i].inUse == Some(false) && SeenInUse(script, i)
  }

  function Renewals(c: Scene, o: Owner, script: seq<Beat>, reverse: bool): seq<bool> {
    seq(|script|, i requires 0 <= i < |script| => RenewedAt(c, o, script, i, reverse))
  }

  /** What ends the loop at a turn, given which renewals succeed. */
  predicate EndsAt(renewed: seq<bool>, script: seq<Beat>, i: nat, tracksUse: bool)
    requires i < |script| == |renewed|
  {
    !renewed[i] || (tracksUse && HungUpAt(script, i))
  }

  ghost predicate RunsUntil(renewed: seq<bool>, script: seq<Beat>, n: nat, tracksUse: bool)
    requires n <= |script| == |renewed|
  {
    forall i: nat :: i < n ==> !EndsAt(renewed, script, i, tracksUse)
  }

  lemma RunsOneMore(renewed: seq<bool>, script: seq<Beat>, n: nat, tracksUse: bool)
    requires n < |script| == |renewed|
    requires RunsUntil(renewed, script, n, tracksUse) && !EndsAt(renewed, script, n, tracksUse)
    ensures RunsUntil(renewed, script, n + 1, tracksUse)
  {}

  method Do(manager: S.SessionManager, step: S.Step)
    modifies manager
    ensures manager.Now() == S.Next(old(manager.Now()), step, manager.reverse)
  {
    match step
    case Acquire(unit, holder, now, w) => var _ := manager.Acquire(unit, holder, now, w);
    case TakeOver(unit, holder, now, w) => var _ := manager.TakeOver(unit, holder, now, w);
    case Heartbeat(unit, now, holder, w) => var _ := manager.Heartbeat(unit, now, holder, w);
    case Release(unit, now, w) => manager.ReleaseLocked(unit, w);
    case Reap(order, now, w) =>
      if S.Lists(manager.sessions, order) {
        manager.Reap(order, now, w);
      }
  }

  /** The manager serves everyone else while a socket sleeps. */
  method Others(manager: S.SessionManager, steps: seq<S.Step>)
    modifies manager
    ensures manager.Now() == S.Run(old(manager.Now()), steps, manager.reverse)
  {
    for i := 0 to |steps|
      invariant manager.Now() == S.Run(old(manager.Now()), steps[..i], manager.reverse)
    {
      assert steps[..i + 1][..i] == steps[..i];
      Do(manager, steps[i]);
    }
    assert steps[..|steps|] == steps;
  }

  method RenewLease(manager: S.SessionManager, tokens: T.TokenStore, o: Owner, b: Beat) returns (ok: bool)
    modifies manager
    ensures (manager.Now(), ok) == Renewal(Scene(old(manager.Now()), tokens.rows), o, b)
    ensures ok <==>
            && LoginLive(tokens.rows, o.refreshId, b.now)
            && o.unit in old(manager.sessions)
            && old(manager.sessions)[o.unit].holder == o.holder
            && S.Fresh(old(manager.sessions)[o.unit], b.clock)
  {
    if o.refreshId.Some? && !RowLive(tokens.rows, o.refreshId.value, b.now) {
      return false;
    }
    var beaten := manager.Heartbeat(o.unit, b.clock, Some(o.holder), b.w);
    ok := beaten.Some?;
  }

  method Turn(manager: S.SessionManager, tokens: T.TokenStore, o: Owner, b: Beat) returns (ok: bool)
    modifies manager, tokens
    ensures (Scene(manager.Now(), tokens.rows), ok)
            == Turned(Scene(old(manager.Now()), old(tokens.rows)), o, b, manager.reverse)
  {
    Others(manager, b.others);
    tokens.rows := T.Run(tokens.rows, b.logins);
    ok := RenewLease(manager, tokens, o, b);
  }

  /**
   * Keep the lease until it may no longer run: `beats` turns pass before the first
   * one that ends it, and no later one is taken.
   */
  method RelayHeartbeat(
    manager: S.SessionManager, tokens: T.TokenStore, o: Owner, tracksUse: bool, script: seq<Beat>)
    returns (beats: nat)
    modifies manager, tokens
    ensures beats <= |script|
    ensures var renewed := Renewals(Scene(old(manager.Now()), old(tokens.rows)), o, script, manager.reverse);
            && RunsUntil(renewed, script, beats, tracksUse)
            && (beats < |script| ==> EndsAt(renewed, script, beats, tracksUse))
    ensures Scene(manager.Now(), tokens.rows)
            == After(Scene(old(manager.Now()), old(tokens.rows)), o, script[..Min(beats + 1, |script|)], manager.reverse)
  {
    ghost var c, reverse := Scene(manager.Now(), tokens.rows), manager.reverse;
    ghost var renewed := Renewals(c, o, script, reverse);
    var seenInUse := false;
    beats := 0;
    while beats < |script|
      invariant beats <= |script|
      invariant Scene(manager.Now(), tokens.rows) == After(c, o, script[..beats], reverse)
      invariant tracksUse ==> (seenInUse <==> SeenInUse(script, beats))
      invariant RunsUntil(renewed, script, beats, tracksUse)
    {
      AfterTurn(c, o, script, beats, reverse);
      SeenOneMore(script, beats);
      var ok := Turn(manager, tokens, o, script[beats]);
      if !ok {
        return;
      }
      if tracksUse {
        var inUse := script[beats].inUse;
        if inUse == Some(true) {
          seenInUse := true;
        } else if inUse == Some(false) && seenInUse {
          return;
        }
      }
      RunsOneMore(renewed, script, beats, tracksUse);
      beats := beats + 1;
    }
  }

  lemma SeenOneMore(script: seq<Beat>, i: nat)
    requires i < |script|
    ensures SeenInUse(script, i + 1) <==> SeenInUse(script, i) || script[i].inUse == Some(true)
  {}

  lemma AfterTurn(c: Scene, o: Owner, script: seq<Beat>, i: nat, reverse: bool)
    requires i < |script|
    ensures (After(c, o, script[..i + 1], reverse), Renewals(c, o, script, reverse)[i])
            == Turned(After(c, o, script[..i], reverse), o, script[i], reverse)
  {
    assert script[..i + 1][..i] == script[..i];
  }

  /** A turn's own heartbeat, as a step of the session manager. */
  function Own(o: Owner, b: Beat): S.Step {
    S.Heartbeat(o.unit, b.clock, Some(o.holder), b.w)
  }

  /** The same turns as a plain run of the session manager. */
  function Flat(o: Owner, script: seq<Beat>): seq<S.Step> {
    if script == [] then []
    else
      var last := script[|script| - 1];
      Flat(o, script[..|script| - 1]) + last.others + [Own(o, last)]
  }

  function LoginsOf(script: seq<Beat>): seq<T.Step> {
    if script == [] then [] else LoginsOf(script[..|script| - 1]) + script[|script| - 1].logins
  }

  ghost predicate LoginLiveThroughout(rows: T.Tokens, o: Owner, script: seq<Beat>) {
    forall i :: 0 <= i < |script| ==>
      LoginLive(T.Run(rows, LoginsOf(script[..i + 1])), o.refreshId, script[i].now)
  }

  lemma LiveUntilThen(rows: T.Tokens, o: Owner, script: seq<Beat>, n: nat)
    requires LoginLiveThroughout(rows, o, script) && n <= |script|
    ensures LoginLiveThroughout(rows, o, script[..n])
  {
    forall i | 0 <= i < n
      ensures LoginLive(T.Run(rows, LoginsOf(script[..n][..i + 1])), o.refreshId, script[..n][i].now)
    {
      assert script[..n][..i + 1] == script[..i + 1];
    }
  }

  lemma {:induction false} SessionRunJoins(s: S.State, a: seq<S.Step>, b: seq<S.Step>, reverse: bool)
    ensures S.Run(s, a + b, reverse) == S.Run(S.Run(s, a, reverse), b, reverse)
  {
    if b == [] {
      assert a + b == a;
    } else {
      SessionRunJoins(s, a, b[..|b| - 1], reverse);
      assert (a + b)[..|a + b| - 1] == a + b[..|b| - 1];
    }
  }

  lemma {:induction false} TokenRunJoins(rows: T.Tokens, a: seq<T.Step>, b: seq<T.Step>)
    ensures T.Run(rows, a + b) == T.Run(T.Run(rows, a), b)
  {
    if b == [] {
      assert a + b == a;
    } else {
      TokenRunJoins(rows, a, b[..|b| - 1]);
      assert (a + b)[..|a + b| - 1] == a + b[..|b| - 1];
    }
  }

  lemma {:induction false} RowsAfter(c: Scene, o: Owner, script: seq<Beat>, reverse: bool)
    ensures After(c, o, script, reverse).rows == T.Run(c.rows, LoginsOf(script))
  {
    if script != [] {
      var init := script[..|script| - 1];
      RowsAfter(c, o, init, reverse);
      TokenRunJoins(c.rows, LoginsOf(init), script[|script| - 1].logins);
    }
  }

  lemma KeptAlivePrefix(a: seq<S.Step>, b: seq<S.Step>, unit: string, holder: string, last: int)
    requires S.KeptAlive(a + b, unit, holder, last)
    ensures S.KeptAlive(a, unit, holder, last)
    decreases |a|
  {
    if a != [] {
      assert (a + b)[0] == a[0] && (a + b)[1..] == a[1..] + b;
      KeptAlivePrefix(a[1..], b, unit, holder, if S.Beats(a[0], unit, holder) then a[0].now else last);
    }
  }

  /** A session kept alive up to a step is held and fresh when that step comes. */
  lemma {:induction false} KeptAliveIsFresh(s: S.State, steps: seq<S.Step>, step: S.Step, reverse: bool, unit: string)
    requires unit in s.sessions
    requires S.KeptAlive(steps + [step], unit, s.sessions[unit].holder, s.sessions[unit].lastSeen)
    ensures var s' := S.Run(s, steps, reverse);
            && unit in s'.sessions
            && s'.sessions[unit].holder == s.sessions[unit].holder
            && S.Fresh(s'.sessions[unit], step.now)
    decreases |steps|
  {
    if steps == [] {
      assert (steps + [step])[0] == step;
    } else {
      assert (steps + [step])[0] == steps[0] && (steps + [step])[1..] == steps[1..] + [step];
      S.StepSparesTheFresh(s, steps[0], reverse, unit);
      KeptAliveIsFresh(S.Next(s, steps[0], reverse), steps[1..], step, reverse, unit);
      S.RunOfTail(s, steps, reverse);
    }
  }

  lemma LoginLiveAtTurn(c: Scene, o: Owner, script: seq<Beat>, i: nat, reverse: bool)
    requires LoginLiveThroughout(c.rows, o, script) && i < |script|
    ensures LoginLive(Met(After(c, o, script[..i], reverse), script[i], reverse).rows, o.refreshId, script[i].now)
  {
    RowsAfter(c, o, script[..i], reverse);
    TokenRunJoins(c.rows, LoginsOf(script[..i]), script[i].logins);
    assert script[..i + 1][..i] == script[..i];
  }

  lemma LiveTurnIsABeat(c: Scene, o: Owner, b: Beat, reverse: bool)
    requires LoginLive(Met(c, b, reverse).rows, o.refreshId, b.now)
    ensures Turned(c, o, b, reverse).0.sessions == S.Run(c.sessions, b.others + [Own(o, b)], reverse)
  {
    assert (b.others + [Own(o, b)])[..|b.others|] == b.others;
  }

  lemma LiveTurnExtendsTheRun(c: Scene, o: Owner, start: S.State, steps: seq<S.Step>, b: Beat, reverse: bool)
    requires c.sessions == S.Run(start, steps, reverse)
    requires LoginLive(Met(c, b, reverse).rows, o.refreshId, b.now)
    ensures Turned(c, o, b, reverse).0.sessions == S.Run(start, steps + (b.others + [Own(o, b)]), reverse)
  {
    LiveTurnIsABeat(c, o, b, reverse);
    SessionRunJoins(start, steps, b.others + [Own(o, b)], reverse);
  }

  lemma FlatUnfolds(o: Owner, script: seq<Beat>)
    requires script != []
    ensures var init, last := script[..|script| - 1], script[|script| - 1];
            Flat(o, script) == Flat(o, init) + (last.others + [Own(o, last)])
  {}

  /** While its login stays live, a socket's turns are a run of the session manager in which it beats. */
  lemma {:induction false} TurnsAreARun(c: Scene, o: Owner, script: seq<Beat>, reverse: bool)
    requires LoginLiveThroughout(c.rows, o, script)
    ensures After(c, o, script, reverse).sessions == S.Run(c.sessions, Flat(o, script), reverse)
  {
    if script != [] {
      var n := |script| - 1;
      LiveUntilThen(c.rows, o, script, n);
      TurnsAreARun(c, o, script[..n], reverse);
      LoginLiveAtTurn(c, o, script, n, reverse);
      LiveTurnExtendsTheRun(After(c, o, script[..n], reverse), o, c.sessions, Flat(o, script[..n]), script[n], reverse);
      FlatUnfolds(o, script);
    }
  }

  /**
   * A socket whose login stays live and whose beats keep the lease has every beat
   * renewed, whatever everybody else does between them short of releasing or
   * taking over the unit, and holds the same session at the end.
   */
  lemma LiveLoginKeepsTheSession(c: Scene, o: Owner, script: seq<Beat>, reverse: bool)
    requires o.unit in c.sessions.sessions && c.sessions.sessions[o.unit].holder == o.holder
    requires S.KeptAlive(Flat(o, script), o.unit, o.holder, c.sessions.sessions[o.unit].lastSeen)
    requires LoginLiveThroughout(c.rows, o, script)
    ensures forall i: nat :: i < |script| ==> RenewedAt(c, o, script, i, reverse)
    ensures S.SameSession(S.Current(After(c, o, script, reverse).sessions, o.unit), Some(c.sessions.sessions[o.unit]))
  {
    forall i: nat | i < |script|
      ensures RenewedAt(c, o, script, i, reverse)
    {
      KeptAliveUntil(o, script, i + 1, c.sessions.sessions[o.unit].lastSeen);
      TurnRenews(c, o, script, i, reverse);
    }
    SameAtTheEnd(c, o, script, reverse);
  }

  lemma SameAtTheEnd(c: Scene, o: Owner, script: seq<Beat>, reverse: bool)
    requires o.unit in c.sessions.sessions && c.sessions.sessions[o.unit].holder == o.holder
    requires S.KeptAlive(Flat(o, script), o.unit, o.holder, c.sessions.sessions[o.unit].lastSeen)
    requires LoginLiveThroughout(c.rows, o, script)
    ensures S.SameSession(S.Current(After(c, o, script, reverse).sessions, o.unit), Some(c.sessions.sessions[o.unit]))
  {
    TurnsAreARun(c, o, script, reverse);
    S.BeatingHolderKeepsTheSession(c.sessions, Flat(o, script), reverse, o.unit);
  }

  lemma {:induction false} KeptAliveUntil(o: Owner, script: seq<Beat>, n: nat, last: int)
    requires n <= |script| && S.KeptAlive(Flat(o, script), o.unit, o.holder, last)
    ensures S.KeptAlive(Flat(o, script[..n]), o.unit, o.holder, last)
    decreases |script| - n
  {
    if n == |script| {
      assert script[..n] == script;
    } else {
      KeptAliveUntil(o, script, n + 1, last);
      var b := script[n];
      assert script[..n + 1][..n] == script[..n];
      assert Flat(o, script[..n + 1]) == Flat(o, script[..n]) + (b.others + [Own(o, b)]);
      KeptAlivePrefix(Flat(o, script[..n]), b.others + [Own(o, b)], o.unit, o.holder, last);
    }
  }

  lemma TurnRenews(c: Scene, o: Owner, script: seq<Beat>, i: nat, reverse: bool)
    requires i < |script| && LoginLiveThroughout(c.rows, o, script)
    requires o.unit in c.sessions.sessions && c.sessions.sessions[o.unit].holder == o.holder
    requires S.KeptAlive(Flat(o, script[..i + 1]), o.unit, o.holder, c.sessions.sessions[o.unit].lastSeen)
    ensures RenewedAt(c, o, script, i, reverse)
  {
    var init, b := script[..i], script[i];
    assert script[..i + 1][..i] == init;
    LoginLiveAtTurn(c, o, script, i, reverse);
    LiveUntilThen(c.rows, o, script, i);
    TurnsAreARun(c, o, init, reverse);
    SessionRunJoins(c.sessions, Flat(o, init), b.others, reverse);
    KeptAliveIsFresh(c.sessions, Flat(o, init) + b.others, Own(o, b), reverse, o.unit);
  }

  /**
   * Once the row a socket was opened with is dead, revoked, expired or rotated
   * away, none of its later beats is renewed: the very next one ends the relay.
   */
  lemma DeadLoginNeverRenews(c: Scene, o: Owner, script: seq<Beat>, now: int, i: nat, tracksUse: bool, reverse: bool)
    requires T.Numbered(c.rows) && o.refreshId.Some? && 1 <= o.refreshId.value <= |c.rows|
    requires !RowLive(c.rows, o.refreshId.value, now)
    requires i < |script| && now <= script[i].now
    ensures EndsAt(Renewals(c, o, script, reverse), script, i, tracksUse)
  {
    RowsAfter(c, o, script[..i], reverse);
    TokenRunJoins(c.rows, LoginsOf(script[..i]), script[i].logins);
    DeadRowStaysDead(c.rows, LoginsOf(script[..i]) + script[i].logins, o.refreshId.value, now, script[i].now);
  }

  // ------------------------------------------------------- waiting for oneself

  /** One try: what others did before it, and how long after the first it comes. */
  datatype Poll = Poll(others: seq<S.Step>, elapsedMs: int, now: int, w: S.World)

  function Waits(polls: seq<Poll>): seq<S.Step> {
    if polls == [] then [] else Waits(polls[..|polls| - 1]) + polls[|polls| - 1].others
  }

  /** The answer to try `i` if every try before it was refused and so changed nothing. */
  function AnswerAt(s: S.State, polls: seq<Poll>, i: nat, unit: string, holder: string, reverse: bool): (S.State, S.Outcome)
    requires i < |polls|
  {
    S.AfterAcquire(S.Run(s, Waits(polls[..i + 1]), reverse), unit, holder, polls[i].now, polls[i].w, reverse)
  }

  function Answers(s: S.State, polls: seq<Poll>, unit: string, holder: string, reverse: bool): seq<(S.State, S.Outcome)> {
    seq(|polls|, i requires 0 <= i < |polls| => AnswerAt(s, polls, i, unit, holder, reverse))
  }

  function Tried(s: S.State, p: Poll, unit: string, holder: string, reverse: bool): (S.State, S.Outcome) {
    S.AfterAcquire(S.Run(s, p.others, reverse), unit, holder, p.now, p.w, reverse)
  }

  method Try(manager: S.SessionManager, unit: string, holder: string, p: Poll) returns (r: S.Outcome)
    modifies manager
    ensures (manager.Now(), r) == Tried(old(manager.Now()), p, unit, holder, manager.reverse)
  {
    Others(manager, p.others);
    r := manager.Acquire(unit, holder, p.now, p.w);
  }

  predicate BusyWithItself(r: S.Outcome, holder: string) {
    r.Busy? && r.holder == holder
  }

  predicate AllBusy(answers: seq<(S.State, S.Outcome)>, n: nat, holder: string)
    requires n <= |answers|
  {
    forall i :: 0 <= i < n ==> BusyWithItself(answers[i].1, holder)
  }

  lemma BusyOnceMore(answers: seq<(S.State, S.Outcome)>, n: nat, holder: string)
    requires n < |answers| && AllBusy(answers, n, holder)
    ensures BusyWithItself(answers[n].1, holder) ==> AllBusy(answers, n + 1, holder)
  {}

  /** These tries came within the grace period. */
  predicate AllEarly(polls: seq<Poll>, n: nat)
    requires n <= |polls|
  {
    forall i :: 0 <= i < n ==> polls[i].elapsedMs < 8000
  }

  lemma EarlyOnceMore(polls: seq<Poll>, n: nat)
    requires n < |polls| && AllEarly(polls, n)
    ensures polls[n].elapsedMs < 8000 ==> AllEarly(polls, n + 1)
  {}

  /** A sleep is never cut short. */
  ghost predicate Paced(polls: seq<Poll>) {
    forall i :: 0 <= i < |polls| ==> polls[i].elapsedMs >= i * 500
  }

  /**
   * A device is told it is busy with itself only once the grace period is over,
   * and tries at most seventeen times; any other answer ends the wait at once.
   */
  method AcquireOwn(manager: S.SessionManager, unit: string, holder: string, polls: seq<Poll>)
    returns (r: S.Outcome, tries: nat)
    requires |polls| >= 17 && Paced(polls)
    modifies manager
    ensures 1 <= tries <= 17
    ensures var answers := Answers(old(manager.Now()), polls, unit, holder, manager.reverse);
            && (manager.Now(), r) == answers[tries - 1]
            && AllBusy(answers, tries - 1, holder)
    ensures BusyWithItself(r, holder) ==> polls[tries - 1].elapsedMs >= 8000
    ensures AllEarly(polls, tries - 1)
  {
    ghost var s, reverse := manager.Now(), manager.reverse;
    ghost var answers := Answers(s, polls, unit, holder, reverse);
    tries := 0;
    while true
      invariant tries <= 16
      invariant manager.Now() == S.Run(s, Waits(polls[..tries]), reverse)
      invariant AllBusy(answers, tries, holder)
      invariant AllEarly(polls, tries)
      decreases 17 - tries
    {
      var p := polls[tries];
      TryIsAnswered(s, polls, tries, unit, holder, reverse);
      r := Try(manager, unit, holder, p);
      assert (manager.Now(), r) == answers[tries];
      BusyOnceMore(answers, tries, holder);
      EarlyOnceMore(polls, tries);
      tries := tries + 1;
      if !BusyWithItself(r, holder) || p.elapsedMs >= RELEASE_GRACE_MS {
        break;
      }
    }
  }

  lemma TryIsAnswered(s: S.State, polls: seq<Poll>, i: nat, unit: string, holder: string, reverse: bool)
    requires i < |polls|
    ensures var answer := Answers(s, polls, unit, holder, reverse)[i];
            && Tried(S.Run(s, Waits(polls[..i]), reverse), polls[i], unit, holder, reverse) == answer
            && (answer.1.Busy? ==> answer.0 == S.Run(s, Waits(polls[..i + 1]), reverse))
  {
    assert polls[..i + 1][..i] == polls[..i];
    SessionRunJoins(s, Waits(polls[..i]), polls[i].others, reverse);
  }
}

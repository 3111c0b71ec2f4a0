/**
 * Refresh tokens (authstore.py, login.py): each login starts a family, each
 * rotation revokes one row and adds its replacement to the same family.
 */
module RefreshTokens {
  import opened Prelude

  datatype Token = Token(
    id: int,
    hash: string,
    deviceLabel: string,
    scope: string,
    issuedAt: int,
    expiresAt: int,
    lastSeen: int,
    revokedAt: Option<int>,
    family: Option<int>)

  type Tokens = seq<Token>

  /** COALESCE(family_id, id). */
  function FamilyOf(t: Token): int {
    t.family.GetOr(t.id)
  }

  predicate Live(t: Token, now: int) {
    t.revokedAt.None? && t.expiresAt > now
  }

  predicate HashTaken(rows: Tokens, hash: string) {
    exists t :: t in rows && t.hash == hash
  }

  function NextTokenId(rows: Tokens): int {
    if rows == [] then 1 else rows[|rows| - 1].id + 1
  }

  /** Index of the live row with a hash, if there is one. */
  function FindLive(rows: Tokens, hash: string, now: int): (found: Option<nat>)
    ensures found.Some? ==> found.value < |rows| && rows[found.value].hash == hash && Live(rows[found.value], now)
    ensures found.None? ==> forall t :: t in rows ==> !(t.hash == hash && Live(t, now))
  {
    if rows == [] then None
    else
      var last := |rows| - 1;
      var earlier := FindLive(rows[..last], hash, now);
      if earlier.Some? then earlier
      else if rows[last].hash == hash && Live(rows[last], now) then Some(last)
      else
        assert rows == rows[..last] + [rows[last]];
        None
  }

  /** A hash already stored breaks the UNIQUE constraint, and nothing is changed. */
  function AfterIssue(rows: Tokens, hash: string, deviceLabel: string, scope: string, now: int, ttl: int): Tokens {
    if HashTaken(rows, hash) then rows
    else rows + [Token(NextTokenId(rows), hash, deviceLabel, scope, now, now + ttl, now, None, None)]
  }

  function AfterResolve(rows: Tokens, hash: string, now: int): Tokens {
    match FindLive(rows, hash, now)
    case None => rows
    case Some(i) => rows[i := rows[i].(lastSeen := now)]
  }

  function Replacement(rows: Tokens, replaced: Token, newHash: string, now: int, ttl: int): Token {
    Token(NextTokenId(rows), newHash, replaced.deviceLabel, replaced.scope, now, now + ttl, now, None, Some(FamilyOf(replaced)))
  }

  function AfterRotate(rows: Tokens, oldHash: string, newHash: string, now: int, ttl: int): Tokens {
    match FindLive(rows, oldHash, now)
    case None => rows
    case Some(i) =>
      if HashTaken(rows, newHash) then rows
      else rows[i := rows[i].(revokedAt := Some(now))] + [Replacement(rows, rows[i], newHash, now, ttl)]
  }

  function RevokeIf(t: Token, hit: bool, now: int): Token {
    if hit && t.revokedAt.None? then t.(revokedAt := Some(now)) else t
  }

  function AfterRevoke(rows: Tokens, id: int, now: int): Tokens {
    seq(|rows|, i requires 0 <= i < |rows| => RevokeIf(rows[i], rows[i].id == id, now))
  }

  function AfterRevokeAll(rows: Tokens, now: int): Tokens {
    seq(|rows|, i requires 0 <= i < |rows| => RevokeIf(rows[i], rows[i].expiresAt > now, now))
  }

  predicate FamilyLive(rows: Tokens, id: int, now: int) {
    exists t, u :: t in rows && u in rows && t.id == id && FamilyOf(u) == FamilyOf(t) && Live(u, now)
  }

  // ------------------------------------------------------------ the invariant

  ghost predicate Numbered(rows: Tokens) {
    forall i :: 0 <= i < |rows| ==> rows[i].id == i + 1
  }

  ghost predicate HashesUnique(rows: Tokens) {
    forall i, j :: 0 <= i < j < |rows| ==> rows[i].hash != rows[j].hash
  }

  /** A family is named by its first row, the login, whose label and scope all its rows carry. */
  ghost predicate RootedAtLogin(rows: Tokens, i: int)
    requires 0 <= i < |rows|
  {
    var f := FamilyOf(rows[i]);
    && 1 <= f <= i + 1
    && rows[f - 1].family.None?
    && rows[i].deviceLabel == rows[f - 1].deviceLabel
    && rows[i].scope == rows[f - 1].scope
  }

  /** Only the newest row of a family can be unrevoked. */
  ghost predicate NewestHolds(rows: Tokens) {
    forall i, j :: 0 <= i < j < |rows| && FamilyOf(rows[i]) == FamilyOf(rows[j]) ==> rows[i].revokedAt.Some?
  }

  ghost predicate Valid(rows: Tokens) {
    && Numbered(rows)
    && HashesUnique(rows)
    && (forall i :: 0 <= i < |rows| ==> RootedAtLogin(rows, i))
    && NewestHolds(rows)
  }

  datatype Step =
    | Issue(hash: string, deviceLabel: string, scope: string, now: int, ttl: int)
    | Resolve(hash: string, now: int)
    | Rotate(oldHash: string, newHash: string, now: int, ttl: int)
    | Revoke(id: int, now: int)
    | RevokeAll(now: int)

  function Next(rows: Tokens, step: Step): Tokens {
    match step
    case Issue(hash, deviceLabel, scope, now, ttl) => AfterIssue(rows, hash, deviceLabel, scope, now, ttl)
    case Resolve(hash, now) => AfterResolve(rows, hash, now)
    case Rotate(oldHash, newHash, now, ttl) => AfterRotate(rows, oldHash, newHash, now, ttl)
    case Revoke(id, now) => AfterRevoke(rows, id, now)
    case RevokeAll(now) => AfterRevokeAll(rows, now)
  }

  function Run(rows: Tokens, steps: seq<Step>): Tokens {
    if steps == [] then rows else Next(Run(rows, steps[..|steps| - 1]), steps[|steps| - 1])
  }

  /** The same rows up to last-seen stamps and revocations: what every step but an insert does. */
  ghost predicate SameButRevoked(rows: Tokens, more: Tokens) {
    && |more| == |rows|
    && forall i :: 0 <= i < |rows| ==>
         && more[i].id == rows[i].id && more[i].hash == rows[i].hash
         && more[i].deviceLabel == rows[i].deviceLabel && more[i].scope == rows[i].scope
         && more[i].family == rows[i].family && more[i].expiresAt == rows[i].expiresAt
         && (rows[i].revokedAt.Some? ==> more[i].revokedAt.Some?)
  }

  lemma RevokingKeeps(rows: Tokens, more: Tokens)
    requires Valid(rows) && SameButRevoked(rows, more)
    ensures Valid(more)
  {
    forall i | 0 <= i < |more|
      ensures RootedAtLogin(more, i)
    {
      assert RootedAtLogin(rows, i);
    }
  }

  /** A row appended under a fresh hash, to no family or to one whose rows are all revoked. */
  lemma AppendingKeeps(rows: Tokens, t: Token)
    requires Valid(rows) && t.id == |rows| + 1 && !HashTaken(rows, t.hash)
    requires t.family.Some? ==> exists k :: 0 <= k < |rows| && FamilyOf(rows[k]) == t.family.value
                                            && rows[k].deviceLabel == t.deviceLabel && rows[k].scope == t.scope
    requires t.family.Some? ==> forall k :: 0 <= k < |rows| && FamilyOf(rows[k]) == t.family.value
                                            ==> rows[k].revokedAt.Some?
    ensures Valid(rows + [t])
  {
    var more := rows + [t];
    forall i | 0 <= i < |more|
      ensures RootedAtLogin(more, i)
    {
      if i < |rows| {
        assert RootedAtLogin(rows, i);
      } else if t.family.Some? {
        var k :| 0 <= k < |rows| && FamilyOf(rows[k]) == t.family.value
                 && rows[k].deviceLabel == t.deviceLabel && rows[k].scope == t.scope;
        assert RootedAtLogin(rows, k);
      }
    }
    forall i | 0 <= i < |rows|
      ensures rows[i].hash != t.hash
      ensures FamilyOf(rows[i]) == FamilyOf(t) ==> rows[i].revokedAt.Some?
    {
      assert rows[i] in rows;
      assert RootedAtLogin(rows, i);
    }
  }

  lemma RotateKeeps(rows: Tokens, oldHash: string, newHash: string, now: int, ttl: int)
    requires Valid(rows)
    ensures Valid(AfterRotate(rows, oldHash, newHash, now, ttl))
  {
    var found := FindLive(rows, oldHash, now);
    if found.Some? && !HashTaken(rows, newHash) {
      var i := found.value;
      var revoked := rows[i := rows[i].(revokedAt := Some(now))];
      RevokingKeeps(rows, revoked);
      forall k | 0 <= k < |revoked| && FamilyOf(revoked[k]) == FamilyOf(rows[i])
        ensures revoked[k].revokedAt.Some?
      {
        assert i < k ==> rows[i].revokedAt.Some?;
      }
      forall k | 0 <= k < |revoked|
        ensures revoked[k].hash != newHash
      {
        assert rows[k] in rows;
      }
      AppendingKeeps(revoked, Replacement(rows, rows[i], newHash, now, ttl));
    }
  }

  lemma IssueKeeps(rows: Tokens, hash: string, deviceLabel: string, scope: string, now: int, ttl: int)
    requires Valid(rows)
    ensures Valid(AfterIssue(rows, hash, deviceLabel, scope, now, ttl))
  {
    if !HashTaken(rows, hash) {
      AppendingKeeps(rows, Token(NextTokenId(rows), hash, deviceLabel, scope, now, now + ttl, now, None, None));
    }
  }

  lemma UpdateOnlyRevokes(rows: Tokens, step: Step)
    requires step.Resolve? || step.Revoke? || step.RevokeAll?
    ensures SameButRevoked(rows, Next(rows, step))
  {}

  lemma NextKeeps(rows: Tokens, step: Step)
    requires Valid(rows)
    ensures Valid(Next(rows, step))
  {
    match step
    case Issue(hash, deviceLabel, scope, now, ttl) => IssueKeeps(rows, hash, deviceLabel, scope, now, ttl);
    case Rotate(oldHash, newHash, now, ttl) => RotateKeeps(rows, oldHash, newHash, now, ttl);
    case _ =>
      UpdateOnlyRevokes(rows, step);
      RevokingKeeps(rows, Next(rows, step));
  }

  lemma {:induction false} RunKeeps(rows: Tokens, steps: seq<Step>)
    requires Valid(rows)
    ensures Valid(Run(rows, steps))
  {
    if steps != [] {
      RunKeeps(rows, steps[..|steps| - 1]);
      NextKeeps(Run(rows, steps[..|steps| - 1]), steps[|steps| - 1]);
    }
  }

  // ------------------------------------------------------------- main results

  /** In every reachable table a family has at most one live row, carrying its login's label and scope. */
  lemma OneLiveRowPerFamily(steps: seq<Step>, t: Token, u: Token, now: int)
    ensures var rows := Run([], steps);
            t in rows && u in rows && FamilyOf(t) == FamilyOf(u) ==>
              && t.deviceLabel == u.deviceLabel && t.scope == u.scope
              && (Live(t, now) && Live(u, now) ==> t == u)
  {
    RunKeeps([], steps);
    SameFamily(Run([], steps), t, u, now);
  }

  lemma SameFamily(rows: Tokens, t: Token, u: Token, now: int)
    requires Valid(rows)
    ensures t in rows && u in rows && FamilyOf(t) == FamilyOf(u) ==>
              && t.deviceLabel == u.deviceLabel && t.scope == u.scope
              && (Live(t, now) && Live(u, now) ==> t == u)
  {
    if t in rows && u in rows && FamilyOf(t) == FamilyOf(u) {
      var i :| 0 <= i < |rows| && rows[i] == t;
      var j :| 0 <= j < |rows| && rows[j] == u;
      assert RootedAtLogin(rows, i) && RootedAtLogin(rows, j);
    }
  }

  /** Every id of a family gets the same answer, and an id never issued is not live. */
  lemma FamilyLiveIsPerFamily(steps: seq<Step>, t: Token, id: int, now: int)
    ensures var rows := Run([], steps);
            t in rows ==> (FamilyLive(rows, t.id, now)
                           <==> exists u :: u in rows && FamilyOf(u) == FamilyOf(t) && Live(u, now))
    ensures !(1 <= id <= |Run([], steps)|) ==> !FamilyLive(Run([], steps), id, now)
  {
    var rows := Run([], steps);
    RunKeeps([], steps);
    forall v, w | v in rows && w in rows && v.id == w.id
      ensures v == w
    {
      var i :| 0 <= i < |rows| && rows[i] == v;
      var j :| 0 <= j < |rows| && rows[j] == w;
    }
    forall v | v in rows
      ensures 1 <= v.id <= |rows|
    {
      var i :| 0 <= i < |rows| && rows[i] == v;
    }
  }

  /** What a caller can do with a hash: the row it resolves to, if any. */
  function Resolved(rows: Tokens, hash: string, now: int): Option<Token> {
    match FindLive(rows, hash, now)
    case None => None
    case Some(i) => Some(rows[i])
  }

  lemma ResolvedIs(rows: Tokens, hash: string, now: int, t: Token)
    requires HashesUnique(rows) && t in rows && t.hash == hash
    ensures Resolved(rows, hash, now) == if t.revokedAt.None? && now < t.expiresAt then Some(t) else None
  {
    var i :| 0 <= i < |rows| && rows[i] == t;
    var found := FindLive(rows, hash, now);
    if found.Some? {
      assert rows[found.value].hash == rows[i].hash;
    } else {
      assert !(t.hash == hash && Live(t, now));
    }
  }

  /**
   * A token just issued resolves at every time before now + ttl and at none from
   * then on, to a row of the label and scope it was issued with that starts a
   * family of its own.
   */
  lemma IssuedIsLiveUntil(
    steps: seq<Step>, hash: string, deviceLabel: string, scope: string, now: int, ttl: int, at: int)
    requires !HashTaken(Run([], steps), hash)
    ensures var rows := AfterIssue(Run([], steps), hash, deviceLabel, scope, now, ttl);
            var found := Resolved(rows, hash, at);
            && (found.Some? <==> at < now + ttl)
            && (found.Some? ==>
                  && found.value.deviceLabel == deviceLabel && found.value.scope == scope
                  && found.value.issuedAt == now && found.value.lastSeen == now
                  && found.value.id == |rows| && FamilyOf(found.value) == found.value.id)
  {
    var rows := AfterIssue(Run([], steps), hash, deviceLabel, scope, now, ttl);
    RunKeeps([], steps);
    IssueKeeps(Run([], steps), hash, deviceLabel, scope, now, ttl);
    ResolvedIs(rows, hash, at, rows[|rows| - 1]);
  }

  /**
   * A rotation hands the login on: the new token resolves until now + ttl with the
   * old one's label, scope and family, and the old one resolves no more.
   */
  lemma RotatedIsLiveUntil(steps: seq<Step>, oldHash: string, newHash: string, now: int, ttl: int, at: int)
    requires !HashTaken(Run([], steps), newHash) && Resolved(Run([], steps), oldHash, now).Some?
    ensures var replaced := Resolved(Run([], steps), oldHash, now).value;
            var rows := AfterRotate(Run([], steps), oldHash, newHash, now, ttl);
            var found := Resolved(rows, newHash, at);
            && Resolved(rows, oldHash, at) == None
            && (found.Some? <==> at < now + ttl)
            && (found.Some? ==>
                  && found.value.deviceLabel == replaced.deviceLabel && found.value.scope == replaced.scope
                  && FamilyOf(found.value) == FamilyOf(replaced) && found.value.id == |rows|)
  {
    var before := Run([], steps);
    var rows := AfterRotate(before, oldHash, newHash, now, ttl);
    RunKeeps([], steps);
    RotateKeeps(before, oldHash, newHash, now, ttl);
    var i := FindLive(before, oldHash, now).value;
    ResolvedIs(rows, newHash, at, rows[|rows| - 1]);
    assert rows[i].revokedAt == Some(now) && rows[i] in rows;
    ResolvedIs(rows, oldHash, at, rows[i]);
  }

  /** Nothing in the family is, or from `now` on can become, live. */
  ghost predicate FamilyDead(rows: Tokens, f: int, now: int) {
    && 1 <= f <= |rows|
    && forall i :: 0 <= i < |rows| && FamilyOf(rows[i]) == f ==> rows[i].revokedAt.Some? || rows[i].expiresAt <= now
  }

  lemma NextKeepsDead(rows: Tokens, step: Step, f: int, now: int)
    requires Valid(rows) && FamilyDead(rows, f, now) && step.now >= now
    ensures FamilyDead(Next(rows, step), f, now)
  {
    match step
    case Issue(hash, deviceLabel, scope, at, ttl) =>
    case Resolve(hash, at) =>
    case Rotate(oldHash, newHash, at, ttl) =>
      var found := FindLive(rows, oldHash, at);
      if found.Some? {
        assert Live(rows[found.value], at);
        assert FamilyOf(rows[found.value]) != f;
      }
    case Revoke(id, at) =>
    case RevokeAll(at) =>
  }

  lemma {:induction false} RunKeepsDead(rows: Tokens, steps: seq<Step>, f: int, now: int)
    requires Valid(rows) && FamilyDead(rows, f, now)
    requires forall s :: s in steps ==> s.now >= now
    ensures FamilyDead(Run(rows, steps), f, now)
  {
    if steps != [] {
      var init, last := steps[..|steps| - 1], steps[|steps| - 1];
      assert last in steps;
      RunKeepsDead(rows, init, f, now);
      RunKeeps(rows, init);
      NextKeepsDead(Run(rows, init), last, f, now);
    }
  }

  lemma DeadIsNotLive(rows: Tokens, t: Token, now: int, later: int)
    requires Valid(rows) && t in rows && now <= later
    ensures FamilyDead(rows, FamilyOf(t), now) ==> !FamilyLive(rows, t.id, later)
    ensures !FamilyLive(rows, t.id, now) ==> FamilyDead(rows, FamilyOf(t), now)
  {
    var k :| 0 <= k < |rows| && rows[k] == t;
    assert RootedAtLogin(rows, k);
    forall i | 0 <= i < |rows|
      ensures rows[i] in rows && (rows[i].id == t.id ==> rows[i] == t)
    {}
  }

  /**
   * Once a family has no live row it never has one again, however tokens are
   * issued, resolved, rotated and revoked afterwards.
   */
  lemma DeadFamilyStaysDead(before: seq<Step>, after: seq<Step>, id: int, now: int, later: int)
    requires 1 <= id <= |Run([], before)| && now <= later
    requires !FamilyLive(Run([], before), id, now)
    requires forall s :: s in after ==> s.now >= now
    ensures !FamilyLive(Run(Run([], before), after), id, later)
  {
    var rows := Run([], before);
    RunKeeps([], before);
    var t := rows[id - 1];
    DeadIsNotLive(rows, t, now, now);
    var rows' := Run(rows, after);
    RunKeepsDead(rows, after, FamilyOf(t), now);
    RunKeeps(rows, after);
    RowsKeepTheirFamily(rows, after);
    DeadIsNotLive(rows', rows'[id - 1], now, later);
  }

  lemma {:induction false} RowsKeepTheirFamily(rows: Tokens, steps: seq<Step>)
    ensures var rows' := Run(rows, steps);
            && |rows| <= |rows'|
            && forall i :: 0 <= i < |rows| ==> rows'[i].id == rows[i].id && FamilyOf(rows'[i]) == FamilyOf(rows[i])
  {
    if steps != [] {
      RowsKeepTheirFamily(rows, steps[..|steps| - 1]);
    }
  }

  /** Revoking everything at `now` ends every family, also for all later times. */
  lemma RevokeAllEndsEveryFamily(steps: seq<Step>, id: int, now: int, later: int)
    requires now <= later
    ensures !FamilyLive(AfterRevokeAll(Run([], steps), now), id, later)
  {
    var rows := AfterRevokeAll(Run([], steps), now);
    forall t | t in rows
      ensures !Live(t, later)
    {
      var i :| 0 <= i < |rows| && rows[i] == t;
    }
  }

  /**
   * Revoking one row ends its family exactly when that row is the unrevoked one
   * (or the family was over already): the id of a rotated-away token ends nothing.
   */
  lemma RevokeEndsTheFamilyIff(steps: seq<Step>, id: int, now: int)
    requires 1 <= id <= |Run([], steps)|
    ensures var rows := Run([], steps);
            !FamilyLive(AfterRevoke(rows, id, now), id, now)
            <==> rows[id - 1].revokedAt.None? || !FamilyLive(rows, id, now)
  {
    RunKeeps([], steps);
    RevokeEndsIff(Run([], steps), id, now);
  }

  lemma RevokedNewestEndsTheFamily(rows: Tokens, id: int, now: int)
    requires Valid(rows) && 1 <= id <= |rows| && rows[id - 1].revokedAt.None?
    ensures FamilyDead(AfterRevoke(rows, id, now), FamilyOf(rows[id - 1]), now)
  {
    var more := AfterRevoke(rows, id, now);
    assert RootedAtLogin(rows, id - 1);
    forall i | 0 <= i < |more| && FamilyOf(more[i]) == FamilyOf(rows[id - 1])
      ensures more[i].revokedAt.Some?
    {
      assert FamilyOf(rows[i]) == FamilyOf(rows[id - 1]);
    }
  }

  lemma RevokeEndsIff(rows: Tokens, id: int, now: int)
    requires Valid(rows) && 1 <= id <= |rows|
    ensures !FamilyLive(AfterRevoke(rows, id, now), id, now)
            <==> rows[id - 1].revokedAt.None? || !FamilyLive(rows, id, now)
  {
    var more := AfterRevoke(rows, id, now);
    UpdateOnlyRevokes(rows, Revoke(id, now));
    RevokingKeeps(rows, more);
    if rows[id - 1].revokedAt.None? {
      RevokedNewestEndsTheFamily(rows, id, now);
      DeadIsNotLive(more, more[id - 1], now, now);
    } else {
      assert more == rows;
    }
  }

  /** Logging out with a live token, in the two steps the service takes, ends its family for good. */
  lemma LogOutEndsTheFamily(steps: seq<Step>, hash: string, now: int, later: int)
    requires now <= later
    ensures var rows := Run([], steps); var found := FindLive(rows, hash, now);
            found.Some? ==> var id := rows[found.value].id;
                            !FamilyLive(AfterRevoke(AfterResolve(rows, hash, now), id, now), id, later)
  {
    var rows := Run([], steps);
    var found := FindLive(rows, hash, now);
    if found.Some? {
      var resolved := steps + [Resolve(hash, now)];
      assert resolved[..|steps|] == steps;
      RunKeeps([], steps);
      RunKeeps([], resolved);
      var id := rows[found.value].id;
      RevokeEndsTheFamilyIff(resolved, id, now);
      var more := AfterRevoke(AfterResolve(rows, hash, now), id, now);
      UpdateOnlyRevokes(Run([], resolved), Revoke(id, now));
      RevokingKeeps(Run([], resolved), more);
      DeadIsNotLive(more, more[id - 1], now, later);
    }
  }

  // --------------------------------------------------------------- the object

  class TokenStore {
    var rows: Tokens

    constructor ()
      ensures rows == []
    {
      rows := [];
    }

    method IssueRefresh(hash: string, deviceLabel: string, scope: string, now: int, ttl: int) returns (id: Option<int>)
      modifies this
      ensures rows == AfterIssue(old(rows), hash, deviceLabel, scope, now, ttl)
      ensures id == if HashTaken(old(rows), hash) then None else Some(NextTokenId(old(rows)))
    {
      if HashTaken(rows, hash) {
        return None;
      }
      id := Some(NextTokenId(rows));
      rows := rows + [Token(NextTokenId(rows), hash, deviceLabel, scope, now, now + ttl, now, None, None)];
    }

    method ResolveRefresh(hash: string, now: int) returns (session: Option<Token>)
      modifies this
      ensures rows == AfterResolve(old(rows), hash, now)
      ensures session.Some? ==> session.value in rows && session.value.hash == hash && Live(session.value, now)
                                && session.value.lastSeen == now
      ensures session.None? ==> forall t :: t in old(rows) ==> !(t.hash == hash && Live(t, now))
    {
      var found := FindLive(rows, hash, now);
      if found.None? {
        return None;
      }
      var seen := rows[found.value].(lastSeen := now);
      rows := rows[found.value := seen];
      assert rows[found.value] == seen;
      session := Some(seen);
    }

    method RotateRefresh(oldHash: string, newHash: string, now: int, ttl: int) returns (id: Option<int>)
      modifies this
      ensures rows == AfterRotate(old(rows), oldHash, newHash, now, ttl)
      ensures id.Some? <==> (exists t :: t in old(rows) && t.hash == oldHash && Live(t, now)) && !HashTaken(old(rows), newHash)
      ensures id.Some? ==> id.value == NextTokenId(old(rows)) && |rows| == |old(rows)| + 1
    {
      var found := FindLive(rows, oldHash, now);
      if found.None? || HashTaken(rows, newHash) {
        return None;
      }
      assert rows[found.value] in rows;
      var replacement := Replacement(rows, rows[found.value], newHash, now, ttl);
      id := Some(replacement.id);
      rows := rows[found.value := rows[found.value].(revokedAt := Some(now))];
      rows := rows + [replacement];
    }

    method RevokeRefresh(id: int, now: int) returns (revoked: bool)
      requires Numbered(rows)
      modifies this
      ensures rows == AfterRevoke(old(rows), id, now)
      ensures revoked <==> 1 <= id <= |old(rows)| && old(rows)[id - 1].revokedAt.None?
    {
      revoked := exists t :: t in rows && t.id == id && t.revokedAt.None?;
      if 1 <= id <= |rows| {
        assert rows[id - 1] in rows;
      }
      rows := AfterRevoke(rows, id, now);
    }

    method RevokeEverything(now: int) returns (count: nat)
      modifies this
      ensures rows == AfterRevokeAll(old(rows), now)
      ensures count == 0 <==> rows == old(rows)
      ensures count == |set i | 0 <= i < |old(rows)| && Live(old(rows)[i], now)|
    {
      var hit := set i | 0 <= i < |rows| && Live(rows[i], now);
      count := |hit|;
      ghost var was := rows;
      rows := AfterRevokeAll(rows, now);
      if count == 0 {
        assert forall i :: 0 <= i < |was| && Live(was[i], now) ==> i in hit;
      } else {
        ghost var k :| k in hit;
        assert rows[k] != was[k];
      }
    }
  }
}

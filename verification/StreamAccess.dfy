/** Who may go on reading the event stream (`still_authorised` in api.py). */
module StreamAccess {
  import opened Prelude
  import E = EventStream
  import EventStore
  import T = RefreshTokens

  /** A stream asks for the family of its login, so that rotating a token does not end it. */
  predicate StillAuthorised(rows: T.Tokens, refreshId: Option<int>, now: int) {
    refreshId.None? || T.FamilyLive(rows, refreshId.value, now)
  }

  method StreamTurn(
    follower: E.Follower, store: EventStore.Store, tokens: T.TokenStore, refreshId: Option<int>, now: int)
    returns (going: bool, frames: seq<E.Frame>)
    requires EventStore.Ascending(store.rows)
    modifies follower
    ensures going <==> refreshId == None || T.FamilyLive(tokens.rows, refreshId.value, now)
    ensures !going ==> frames == [] && follower.lastSeen == old(follower.lastSeen)
    ensures going ==>
              var yielded := E.Frames(store.rows, old(follower.lastSeen), follower.config);
              && follower.lastSeen == E.Cursor(old(follower.lastSeen), yielded)
              && |frames| == |yielded|
              && forall i :: 0 <= i < |yielded| ==> frames[i] == E.FrameOf(yielded[i], follower.filters)
  {
    going, frames := follower.Turn(store, StillAuthorised(tokens.rows, refreshId, now));
  }

  /**
   * A stream that has ended could not have gone on later either, and one that goes
   * on does so through any rotation of the token it was opened with.
   */
  lemma StreamFollowsItsFamily(
    before: seq<T.Step>, after: seq<T.Step>, id: int, now: int, later: int,
    oldHash: string, newHash: string, ttl: int)
    requires 1 <= id <= |T.Run([], before)| && now <= later && ttl > 0
    ensures (forall s :: s in after ==> s.now >= now) && !StillAuthorised(T.Run([], before), Some(id), now)
            ==> !StillAuthorised(T.Run(T.Run([], before), after), Some(id), later)
    ensures StillAuthorised(T.Run([], before), Some(id), now)
            ==> StillAuthorised(T.AfterRotate(T.Run([], before), oldHash, newHash, now, ttl), Some(id), now)
  {
    var rows := T.Run([], before);
    if (forall s :: s in after ==> s.now >= now) && !T.FamilyLive(rows, id, now) {
      T.DeadFamilyStaysDead(before, after, id, now, later);
    }
    if T.FamilyLive(rows, id, now) {
      T.RunKeeps([], before);
      RotationKeepsTheFamily(rows, id, oldHash, newHash, now, ttl);
    }
  }

  lemma RotationKeepsTheFamily(
    rows: T.Tokens, id: int, oldHash: string, newHash: string, now: int, ttl: int)
    requires T.Valid(rows) && T.FamilyLive(rows, id, now) && ttl > 0
    ensures T.FamilyLive(T.AfterRotate(rows, oldHash, newHash, now, ttl), id, now)
  {
    var found := T.FindLive(rows, oldHash, now);
    if found.Some? && !T.HashTaken(rows, newHash) {
      var more := T.AfterRotate(rows, oldHash, newHash, now, ttl);
      var t, u :| t in rows && u in rows && t.id == id && T.FamilyOf(u) == T.FamilyOf(t) && T.Live(u, now);
      var i :| 0 <= i < |rows| && rows[i] == t;
      var j :| 0 <= j < |rows| && rows[j] == u;
      assert more[i] in more && more[i].id == id && T.FamilyOf(more[i]) == T.FamilyOf(t);
      if j == found.value {
        assert more[|rows|] in more && T.FamilyOf(more[|rows|]) == T.FamilyOf(u) && T.Live(more[|rows|], now);
      } else {
        assert more[j] == u && more[j] in more;
      }
    }
  }
}

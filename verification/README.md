# Rackphone verification

A Dafny model of the parts of Rackphone whose guarantees hold over whole runs,
with proofs of those guarantees. Each module models one component, in the
component's own form: an object that changes its fields is a class whose methods
are tied, by their contracts, to functions on the object's state; the main
results are then lemmas about every run of those functions. `dafny verify
dfyconfig.toml` checks all of it.

## What is modelled

**Delivery.** `PhoneInbox` is the phone's spool: ids, append, rotation, ack, reset
and the cap. `EventStore` is the event table: rows with row ids, inserts that
ignore a key already present, sends, pruning, queries. `Delivery` puts several
phones, the table and one host that may crash between any two steps into one
state machine, and proves exactly what can be lost and that nothing is stored twice.
`DrainLoop` is the host's loop as an object whose calls are pieces of such runs,
wherever they break off. `EventStream` is the live stream over the table.

**Logins.** `Login` is the lockout policy over a log of attempts: the two counting
windows, the two ladders, and the bounds that follow. `RefreshTokens` is the table
of rotated tokens and their families. `Codecs` and `AccessTokens` are the signed
access tokens down to the bytes; `Totp` is the second factor's codes.

**Sessions.** `Sessions` is the manager of exclusive leases under adb failures, and
the cleanup of the socket that holds one. `Leases` is that socket's own loops,
between the manager and the token table; `StreamAccess` is who may go on reading
the event stream. `Relay` is the two device channels over one socket.

**The phone's other machines.** `Calls` (with `Numbers`) reconstructs calls from
broadcasts, `Dedup` is the bounded notification map, `Sender` the multipart
accounting, `Keepalive` the per-SIM scheduler, `Tones` the keypad queue, `Balance`
the chain of balance requests.

**The rest.** `UnitFiles` is the parser and printer of unit files, `Filters` the
notification rules. `Prelude` holds shared helpers.

## Assumptions

- One host drains the phones, and a device command takes effect before it returns
  or never. `Delivery.LateAckDeletesAnUncommittedEvent` shows why: an ack that
  arrives late deletes the next batch.
- File operations on the phone succeed, and a commit is one step. A line may still
  reach the host unreadable.
- Times given to the login service never go back, and attempts are handled one at
  a time.
- Where a send's own results are followed, sends have distinct ids;
  `Sender.ReusedIdLosesASend` shows why. The counters are stated without this.

## Where the code does not do what is said of it

- app/README.md:190-192 says that after enabling the keepalive the first message
  is due one interval later. The code computes that due time afresh from the
  current clock each time, so for a SIM with no delivery it is always in the
  future and no unforced run ever picks it: `Keepalive.NoDeliveryNoKeepalive`.
- cli/src/rackphone/gateway/api.py:445 renews a socket's lease while its login
  session is live, but asks for the very row its access token names. Rotating the
  token, a routine renewal, revokes that row, so the relay ends at its next
  heartbeat although the login is live: `Leases.RotationEndsTheLease`, with the
  exact condition in `Leases.RowLiveIff`. The event stream asks for the family
  (api.py:1207-1213) and does not have this.
- app/android/app/src/main/kotlin/com/nktkln/rackphone/companion/Inbox.kt:28-29
  says an id seeded from the clock cannot go backwards. After the stored sequence
  is wiped, or falls back to an earlier value, that holds exactly if the value or
  the clock has not fallen behind the last id issued:
  `PhoneInbox.FallenBackSequenceStaysAbove`.
- Row ids of the event table are reused after the newest row is pruned, so a
  stream can miss a row: `EventStream.PrunedNewestRowHidesTheNextOne`. For each
  row the exact condition is `EventStream.FirstPollYieldsIff`, and over the whole
  of a run `EventStream.YieldedOnceIffShown`.
- cli/src/rackphone/gateway/session.py:160-161 says a server without its tunnel is
  closed at once. The acquisition closes its own, but a release that finds no
  device attempts nothing, and the server it should have stopped then stands
  until a later stop is attempted: `Sessions.LeftBehindIff`. A socket's cleanup takes a
  takeover by the same device in the same second on a recycled port for its own
  session: `Sessions.RecycledPortFoolsTheCleanup`, and exactly then,
  `Sessions.SameSessionIff`.

## Model

| member | source | states |
|---|---|---|
| `PhoneInbox.Inbox.constructor` | app/android/app/src/main/kotlin/com/nktkln/rackphone/companion/Inbox.kt:20-23 | A phone starts with its stored sequence, no files and nothing dropped |
| `PhoneInbox.Inbox.TakeId` | app/android/app/src/main/kotlin/com/nktkln/rackphone/companion/Inbox.kt:31-38 | The id handed out is stored as the new sequence |
| `PhoneInbox.Inbox.Record` | app/android/app/src/main/kotlin/com/nktkln/rackphone/companion/Inbox.kt:45-51 | One record changes sequence, spool and drop count as the specification function says, and nothing in flight |
| `PhoneInbox.Inbox.Trim` | app/android/app/src/main/kotlin/com/nktkln/rackphone/companion/Inbox.kt:103-112 | The lines over the cap leave from the front and are counted |
| `PhoneInbox.Inbox.Drain` | app/android/app/src/main/kotlin/com/nktkln/rackphone/companion/Inbox.kt:55-65 | A batch in flight is handed out again; only without one is the spool rotated |
| `PhoneInbox.Inbox.Ack` | app/android/app/src/main/kotlin/com/nktkln/rackphone/companion/Inbox.kt:68-70 | Exactly the in-flight file is deleted |
| `PhoneInbox.Inbox.Peek` | app/android/app/src/main/kotlin/com/nktkln/rackphone/companion/Inbox.kt:73-78 | Everything still owed, in-flight before spool, is shown and nothing changes |
| `PhoneInbox.Inbox.Reset` | app/android/app/src/main/kotlin/com/nktkln/rackphone/companion/Inbox.kt:81-86 | Both files go; sequence and drop count stay |
| `PhoneInbox.RunKeeps` | app/android/app/src/main/kotlin/com/nktkln/rackphone/companion/Inbox.kt:31-112 | Over any operations: ids climb, the spool is the newest part of the record, the in-flight file an older unbroken stretch of it, and every event is accounted for |
| `PhoneInbox.EveryEventIsInOnePlace` | app/android/app/src/main/kotlin/com/nktkln/rackphone/companion/Inbox.kt:45-86 | Conservation: each recorded event is in exactly one of spool, in flight, acked, dropped, reset; nothing else is anywhere; the drop counter counts the dropped |
| `PhoneInbox.PendingClimbs` | app/android/app/src/main/kotlin/com/nktkln/rackphone/companion/Inbox.kt:45-78 | In-flight followed by spool is in record order and holds only recorded events |
| `PhoneInbox.TrimDropsOnlyTheOldest` | app/android/app/src/main/kotlin/com/nktkln/rackphone/companion/Inbox.kt:103-112 | After every record the spool fits the cap; only a full spool drops, and only events older than all it keeps |
| `PhoneInbox.UnackedBatchNeverChanges` | app/android/app/src/main/kotlin/com/nktkln/rackphone/companion/Inbox.kt:55-70 | Until acked or reset, a batch stays the same through any records and drains |
| `PhoneInbox.TwoRoundsEmptyThePhone` | app/android/app/src/main/kotlin/com/nktkln/rackphone/companion/Inbox.kt:55-70 | In every reachable state a drain hands out the oldest pending events as long as there are any, the ack after it deletes exactly those, and a second round leaves nothing |
| `PhoneInbox.RecordedIds` | app/android/app/src/main/kotlin/com/nktkln/rackphone/companion/Inbox.kt:31-51 | The i-th recorded event carries the id the clock readings up to it determine |
| `PhoneInbox.NthIdClosedForm` | app/android/app/src/main/kotlin/com/nktkln/rackphone/companion/Inbox.kt:31-38 | The n-th id is the larger of initial sequence + n and all clock_k + (n - k) |
| `PhoneInbox.IdsAlwaysClimb` | app/android/app/src/main/kotlin/com/nktkln/rackphone/companion/Inbox.kt:31-38 | Ids strictly increase, whatever the clock does |
| `PhoneInbox.FallenBackSequenceStaysAbove` | app/android/app/src/main/kotlin/com/nktkln/rackphone/companion/Inbox.kt:24-38 | After the stored sequence falls back to any value, or is wiped, all new ids are above all old ones if and only if that value or the next clock reading has not fallen behind the last id issued |
| `EventStore.Store.AddEvents` | cli/src/rackphone/gateway/store.py:142-174 | The table and the list of new events after a batch, one insert after another |
| `EventStore.Store.AddSent` | cli/src/rackphone/gateway/store.py:176-235 | A send always adds exactly one row at the end: outgoing SMS of that unit, address, body and time, under an id nobody has |
| `EventStore.Store.Prune` | cli/src/rackphone/gateway/store.py:295-325 | The table after all policies, and how many rows left it |
| `EventStore.Store.QueryEvents` | cli/src/rackphone/gateway/store.py:237-270 | At most the limit, clamped to 1 to 1000; only rows of the kind, unit and time asked for; time stamps falling, missing ones last, ids falling among equal ones; and a wanted row is left out only if the answer is full and every row in it comes before it in those terms |
| `EventStore.Store.LatestEventId` | cli/src/rackphone/gateway/store.py:283-293 | The largest row id present, zero for an empty table |
| `EventStore.BatchAppendsExactlyTheNewOnes` | cli/src/rackphone/gateway/store.py:142-174 | A batch appends exactly the events reported new, in order, none of which was stored; afterwards every key of it is stored |
| `EventStore.StoredBatchIsANoOp` | cli/src/rackphone/gateway/store.py:142-174 | A batch whose keys are all stored changes and reports nothing |
| `EventStore.RedeliveryIsANoOp` | cli/src/rackphone/gateway/store.py:142-174 | Redelivering any part of a batch stores nothing and reports nothing |
| `EventStore.SentIdIsBelowEverything` | cli/src/rackphone/gateway/store.py:201-227 | The id of a send is below every SMS id of its unit and unused; negative for a positive timestamp |
| `EventStore.SentIdIsTheHighest` | cli/src/rackphone/gateway/store.py:201-227 | It is the highest such id that is not above the negated time of the send; with no SMS stored, the highest below zero |
| `EventStore.PruneRemovesExactlyTheExpired` | cli/src/rackphone/gateway/store.py:295-325 | A row survives if and only if no policy has expired it; order, keys and row ids stay valid |
| `EventStore.SurvivesIffYoung` | cli/src/rackphone/gateway/store.py:307-321 | A row survives if and only if its own time stamp in seconds, or its arrival where it has none, is at most the days of each policy of its kind ago; zero days keep for ever |
| `EventStore.TopIsRankBelowLimit` | cli/src/rackphone/gateway/store.py:267-270 | A row is returned if and only if fewer than the limit come before it in (ts, id) order, with missing timestamps last |
| `EventStore.LeftOutComesLater` | cli/src/rackphone/gateway/store.py:267-270 | A row left out of a full answer has no later time stamp than any row in it, and among equal stamps a lower id |
| `EventStore.MatchingIsFilter` | cli/src/rackphone/gateway/store.py:255-266 | The conditions select exactly the matching rows |
| `Delivery.NextKeeps` | cli/src/rackphone/gateway/drain.py:73-113 | Every step of phones, host, crash, send and prune keeps the protocol invariant |
| `Delivery.RunKeeps` | cli/src/rackphone/gateway/drain.py:73-113 | So does every run |
| `Delivery.NothingIsLost` | app/android/app/src/main/kotlin/com/nktkln/rackphone/companion/Inbox.kt:45-86 | At least once: in every run each recorded event is still on the phone; or an event with its unit, id, kind, address, body, time, direction and duration, each under its own name, was committed; or it was counted as dropped, reset, or skipped because its line could not be read; without unreadable lines none is skipped |
| `Delivery.AckDeletesOnlyCommitted` | cli/src/rackphone/gateway/drain.py:91-112 | An ack never deletes an event that was not committed before, except one skipped for an unreadable line; without such lines never |
| `Delivery.StoredTellsWhatWasRecorded` | cli/src/rackphone/gateway/store.py:103-113 | Everything committed, and every row of an arrival, has field by field the content of an event that phone recorded |
| `Delivery.SameKeySameEvent` | cli/src/rackphone/gateway/store.py:142-174 | Two arrivals with one key are copies of one event |
| `Delivery.CommitSettles` | cli/src/rackphone/gateway/drain.py:95-106 | A commit stores exactly the events whose lines arrived whole, in order and field by field, and settles every event of its batch |
| `Delivery.IgnoredInsertIsACopy` | cli/src/rackphone/gateway/store.py:155-174 | When a row with the unit, kind and id of an event the host holds is stored, it agrees with that event in every field: INSERT OR IGNORE drops only duplicates |
| `Delivery.ReportedOnceBetweenPrunes` | cli/src/rackphone/gateway/store.py:142-174 | Exactly once: an arrival was reported new as often as its row was pruned, plus one if it is there; without pruning at most once |
| `Delivery.LateAckDeletesAnUncommittedEvent` | app/android/app/src/main/kotlin/com/nktkln/rackphone/companion/Inbox.kt:68-70 | A concrete run in which an ack taking effect late deletes an event never committed |
| `DrainLoop.ParseBatch` | cli/src/rackphone/gateway/drain.py:91-102 | One event for each line that arrived whole, in order, with the id, kind, address, body, time, direction and duration of that line; other lines are skipped, and the parse fails exactly if a line raises |
| `DrainLoop.Gateway.constructor` | cli/src/rackphone/gateway/drain.py:50-71 | A new gateway over an empty store stands at the start of a run |
| `DrainLoop.Gateway.DrainCommand` | cli/src/rackphone/gateway/drain.py:85-93 | The on-device drain is the protocol step; its lines are what the host then holds, and it holds nothing if they are all blank |
| `DrainLoop.Gateway.Commit` | cli/src/rackphone/gateway/drain.py:104-106 | The commit is the protocol step; the counters move by what was parsed and what was new |
| `DrainLoop.Gateway.AckCommand` | cli/src/rackphone/gateway/drain.py:108-112 | The ack is the protocol step, possible only once the batch is committed |
| `DrainLoop.Gateway.Acknowledge` | cli/src/rackphone/gateway/drain.py:108-113 | A failed ack leaves the batch in flight; a lost reply does not, and is still reported as a failure |
| `DrainLoop.Gateway.StoreAndAck` | cli/src/rackphone/gateway/drain.py:95-113 | Commit before ack, wherever it breaks off; it fails exactly if a line, the store or the ack raises, and then the batch stays |
| `DrainLoop.Gateway.DrainUnit` | cli/src/rackphone/gateway/drain.py:73-113 | One drain moves the protocol by the steps its fault and its damaged lines allow, fails exactly where one of its calls raises, and else answers the number of rows reported new |
| `DrainLoop.Gateway.PruneIfDue` | cli/src/rackphone/gateway/drain.py:132-142 | A prune exactly if there was none in the last 3600 seconds, remembered before it runs |
| `DrainLoop.Gateway.Attempt` | cli/src/rackphone/gateway/drain.py:124-129 | A failing unit is counted as exactly one error and adds nothing to the total; any other adds its new rows and no error |
| `DrainLoop.Gateway.RunOnce` | cli/src/rackphone/gateway/drain.py:115-130 | A pass is a prune if due and then all visits; the errors counted are exactly the visits that fail, and the total exactly the new rows of the others |
| `DrainLoop.DrainUnitIsARun` | cli/src/rackphone/gateway/drain.py:73-113 | One drain, broken off anywhere, is a piece of a protocol run |
| `DrainLoop.PassIsARun` | cli/src/rackphone/gateway/drain.py:115-130 | So is a whole pass, so all results about runs hold of the loop |
| `DrainLoop.HealthyUnitIsServed` | cli/src/rackphone/gateway/drain.py:123-129 | A unit whose visit does not fail has every event whose line arrives whole committed and its batch acked, however the other visits fail |
| `EventStream.Follower.Turn` | cli/src/rackphone/gateway/api.py:1250-1263 | A turn without a live login ends the stream and reads nothing; any other yields the poll's rows, each with the filters' verdict, silenced rows included |
| `EventStream.Follower.Poll` | cli/src/rackphone/gateway/api.py:1251-1262 | The rows of one poll: the readable new rows of the newest hundred, the cursor moving past them |
| `EventStream.Follower.Yield` | cli/src/rackphone/gateway/api.py:1259-1262 | The rows come oldest first, the cursor rising with each |
| `EventStream.FramesAre` | cli/src/rackphone/gateway/api.py:1250-1258 | A row is yielded by a poll if and only if it is readable, above the cursor and among the newest hundred |
| `EventStream.ReadableIff` | cli/src/rackphone/gateway/api.py:205-238 | Readable if nothing is configured for the unit, and otherwise a notification with the capability "notifications" and anything else with "sms" |
| `EventStream.RankCounts` | cli/src/rackphone/gateway/store.py:267-270 | The newest hundred are counted by time stamp and id: the rows before a row are those of a later stamp, or of the same one and a higher id |
| `EventStream.FrameSays` | cli/src/rackphone/gateway/api.py:241-266 | Without filters everything is announced; with them, as they decide, under the name of the rule that did |
| `EventStream.NoIdTwice` | cli/src/rackphone/gateway/api.py:1250-1263 | Over any run of inserts, prunes and polls no row id is yielded twice |
| `EventStream.PassedOverIsLost` | cli/src/rackphone/gateway/api.py:1250-1263 | A row the cursor has passed without yielding it is never yielded |
| `EventStream.FirstPollYieldsIff` | cli/src/rackphone/gateway/api.py:1250-1263 | For one new row in any run: the first poll after its insertion yields it if and only if the id it was given is above the cursor, that is, pruning had not taken the newest row back below it, and it is readable, still there and among the newest hundred |
| `EventStream.OwnConditionYieldsOnce` | cli/src/rackphone/gateway/api.py:1250-1263 | A row that meets that condition is yielded exactly once from its insertion on, however the run goes on and whatever becomes of other rows |
| `EventStream.YieldedOnceIffShown` | cli/src/rackphone/gateway/api.py:1250-1263 | From any point of any run: a row is yielded once if some poll finds it readable, present, among the newest hundred and above the cursor, and otherwise never |
| `EventStream.ReachedIdIsNeverYielded` | cli/src/rackphone/gateway/api.py:1250-1263 | A row inserted under an id the cursor has reached is yielded by nothing that follows |
| `EventStream.EveryNewRowExactlyOnce` | cli/src/rackphone/gateway/api.py:1250-1263 | The whole-run form: if every prune spares the newest row and all new rows are in the top hundred at the next poll, every readable row inserted after connecting is yielded exactly once, and no other |
| `EventStream.PrunedNewestRowHidesTheNextOne` | cli/src/rackphone/gateway/store.py:295-325 | A concrete run in which the next row reuses a pruned id and is never yielded |
| `StreamAccess.StreamTurn` | cli/src/rackphone/gateway/api.py:1207-1213 | A stream goes on exactly while its login's family is live, or without a login to follow |
| `StreamAccess.StreamFollowsItsFamily` | cli/src/rackphone/gateway/api.py:1207-1213 | A stream that has ended could not go on later, and rotating the token it was opened with does not end it |
| `Login.LoginService.constructor` | cli/src/rackphone/gateway/login.py:83-100 | A new service has no attempts and no locks |
| `Login.LoginService.RecordFailure` | cli/src/rackphone/gateway/login.py:127-174 | The failure is logged and the locks are those the log determines |
| `Login.LoginService.LockOut` | cli/src/rackphone/gateway/authstore.py:93-115 | The subject is locked one rung above its last level |
| `Login.LoginService.CheckCredentials` | cli/src/rackphone/gateway/login.py:186-246 | Success exactly if unlocked and every factor holds; the reason is the first failing factor; a locked caller changes nothing and is told when both locks are over |
| `Login.LoginService.LogIn` | cli/src/rackphone/gateway/login.py:248-309 | Lets in exactly where every factor holds and nothing is locked; a success is logged and clears the locks, a refusal is counted unless locked or not set up |
| `Login.LoginService.Reauthenticate` | cli/src/rackphone/gateway/login.py:311-340 | The same decision and the same counting of failures, but a success is not logged and clears nothing |
| `Login.SubjectsNeverMeet` | cli/src/rackphone/gateway/login.py:102-108 | An address and the account never share a lock row, nor do two addresses |
| `Login.ActiveLocksStand` | cli/src/rackphone/gateway/login.py:186-224 | No recorded attempt shortens, lifts or replaces an active lock |
| `Login.FailureLocksIff` | cli/src/rackphone/gateway/login.py:127-174 | One failure locks its address if and only if it is the third of the address within 900 seconds, and the account if and only if it is the fifth naming the administrator within 3600 |
| `Login.LocksHaveFailuresBehind` | cli/src/rackphone/gateway/login.py:127-174 | In every log an address has a lock row only if three of its failures came within 900 seconds, and the account only if five naming the administrator came within 3600 |
| `Login.FewFailuresLetIn` | cli/src/rackphone/gateway/login.py:186-246 | The right factors get in at any time as long as at most two failures of the address and four naming the account came before |
| `Login.LockHolds` | cli/src/rackphone/gateway/authstore.py:93-115 | A lock holds for exactly 60, 120, 240, 480 and then 900 seconds by level for an address, and 1, 6, 12 and then 24 hours for the account |
| `Login.SuccessClearsTwo` | cli/src/rackphone/gateway/login.py:280-283 | A success takes away the rows of its address and of the account, and no other |
| `Login.SpreadBoundsTheWindow` | cli/src/rackphone/gateway/login.py:36-43 | If any k + 1 times in a row span w, no half-open window of w holds more than k |
| `Login.AccountFailuresAreSpread` | cli/src/rackphone/gateway/login.py:127-174 | Any six failures naming the administrator in a row span an hour |
| `Login.AtMostFiveAccountFailuresAnHour` | cli/src/rackphone/gateway/login.py:127-174 | At most five of them in any half-open hour, whatever succeeds between; at most five for each hour begun over any span |
| `Login.TrailClimbs` | cli/src/rackphone/gateway/login.py:127-174 | Without a success, the failures of an address climb the ladder: levels never fall, each full window lifts one, and the next failure waits out its rung |
| `Login.SevenMarksTakeFifteenMinutes` | cli/src/rackphone/gateway/login.py:36-38 | Seven such failures in a row span 900 seconds |
| `Login.AtMostSixAddressFailures` | cli/src/rackphone/gateway/login.py:127-174 | Without a success from it, at most six failures of an address in any half-open 900 seconds |
| `RefreshTokens.TokenStore.IssueRefresh` | cli/src/rackphone/gateway/authstore.py:252-282 | A login adds one row under a new id, unless the hash is taken |
| `RefreshTokens.TokenStore.ResolveRefresh` | cli/src/rackphone/gateway/authstore.py:284-307 | The live row with the hash is stamped and returned; none only if none is live |
| `RefreshTokens.TokenStore.RotateRefresh` | cli/src/rackphone/gateway/authstore.py:309-354 | Succeeds exactly if the old hash is live and the new one unused; then revokes one row and adds its replacement |
| `RefreshTokens.TokenStore.RevokeRefresh` | cli/src/rackphone/gateway/authstore.py:356-372 | Answers true exactly if that row existed unrevoked |
| `RefreshTokens.TokenStore.RevokeEverything` | cli/src/rackphone/gateway/authstore.py:374-389 | Counts exactly the live rows it revokes |
| `RefreshTokens.RunKeeps` | cli/src/rackphone/gateway/authstore.py:252-389 | Any steps keep ids and hashes unique, families rooted at a login, and all but the newest row of a family revoked |
| `RefreshTokens.IssuedIsLiveUntil` | cli/src/rackphone/gateway/authstore.py:252-282 | A token just issued resolves at exactly the times before now + ttl, to a row of the label and scope given that starts its own family |
| `RefreshTokens.RotatedIsLiveUntil` | cli/src/rackphone/gateway/authstore.py:309-354 | A rotated token never resolves again, and its replacement does at exactly the times before now + ttl, with the old label, scope and family |
| `RefreshTokens.OneLiveRowPerFamily` | cli/src/rackphone/gateway/authstore.py:309-354 | In every reachable table a family has at most one live row, and one label and scope |
| `RefreshTokens.FamilyLiveIsPerFamily` | cli/src/rackphone/gateway/authstore.py:422-442 | Every id of a family gets the same answer; an id never issued is not live |
| `RefreshTokens.DeadFamilyStaysDead` | cli/src/rackphone/gateway/authstore.py:309-442 | A family with no live row never has one again, over any later steps |
| `RefreshTokens.RevokeAllEndsEveryFamily` | cli/src/rackphone/gateway/authstore.py:374-389 | Revoking everything ends every family for good |
| `RefreshTokens.RevokeEndsTheFamilyIff` | cli/src/rackphone/gateway/authstore.py:356-372 | Revoking one id ends its family if and only if that row was unrevoked or the family was over |
| `RefreshTokens.LogOutEndsTheFamily` | cli/src/rackphone/gateway/login.py:393-412 | Logging out with a live token ends its family for good |
| `Sessions.SessionManager.constructor` | cli/src/rackphone/gateway/session.py:92-117 | A new manager holds nothing |
| `Sessions.SessionManager.ReleaseLocked` | cli/src/rackphone/gateway/session.py:224-243 | The session goes, the tunnel entry stays; tunnel and server are cleaned up if a device is found |
| `Sessions.SessionManager.Acquire` | cli/src/rackphone/gateway/session.py:124-170 | A fresh session refuses, a stale one is released first; a failure after the start attempts both cleanups |
| `Sessions.SessionManager.TakeOver` | cli/src/rackphone/gateway/session.py:245-249 | A release and then an acquisition, whoever held the unit |
| `Sessions.SessionManager.Heartbeat` | cli/src/rackphone/gateway/session.py:190-212 | Only the holder (or an anonymous beat) on a fresh lease renews it; a stale one is released |
| `Sessions.SessionManager.Reap` | cli/src/rackphone/gateway/session.py:251-260 | Over all held units, in any order: listing the stale ones first and releasing them after is the same as releasing as one goes |
| `Sessions.SessionManager.CleanUp` | cli/src/rackphone/gateway/api.py:574-578 | The unit is released only if the session is still the same one |
| `Sessions.AcquisitionIs` | cli/src/rackphone/gateway/session.py:139-170 | An acquisition is refused by holder and start exactly while the unit's session was seen in the last 30 seconds; otherwise it succeeds exactly if every call does, with a session of the caller begun and last seen now; no other unit is touched |
| `Sessions.TakeOverIs` | cli/src/rackphone/gateway/session.py:245-249 | A takeover is never refused, and succeeds exactly if every call does, with such a session |
| `Sessions.HeartbeatIs` | cli/src/rackphone/gateway/session.py:203-212 | A beat of the holder, or an anonymous one, makes a session seen in the last 30 seconds seen now and ends an older one; anybody else's changes nothing |
| `Sessions.FreshSessionRefuses` | cli/src/rackphone/gateway/session.py:139-167 | From an acquisition or takeover on, every rival is refused by its holder and start for 30 seconds, and none after that |
| `Sessions.AcquiredSessionIsKept` | cli/src/rackphone/gateway/session.py:139-260 | Counted from its acquisition or takeover, beats at most 30 seconds apart keep a session as it was begun, and every rival is refused |
| `Sessions.LeftBehindIff` | cli/src/rackphone/gateway/session.py:124-260 | In every reachable state, under any failures: a held session has a tunnel with its own port; a start with no stop attempted since belongs to the held session or was left by a release that found no device, and so does every tunnel opened with no close attempted since |
| `Sessions.StopOrUnresolvedBetween` | cli/src/rackphone/gateway/session.py:224-243 | Between two starts on a unit there is a stop, or a release that found no device |
| `Sessions.StopBetweenStarts` | cli/src/rackphone/gateway/session.py:224-249 | Where every release finds the device, a stop attempt lies between any two starts |
| `Sessions.FailedAcquireCleansUp` | cli/src/rackphone/gateway/session.py:148-170 | A failed acquisition leaves no session and has attempted a stop after its own start and a close after its own tunnel; what is left started or open is exactly what a release that found no device left |
| `Sessions.StepSparesTheFresh` | cli/src/rackphone/gateway/session.py:139-212 | One step by anybody, short of release and takeover, changes nothing of a fresh session but its last beat |
| `Sessions.BeatingHolderKeepsTheSession` | cli/src/rackphone/gateway/session.py:139-260 | A holder beating every 30 s keeps session, start and port through anything but release or takeover, and every acquisition meanwhile is refused naming it |
| `Sessions.ReapEndsExactlyTheStale` | cli/src/rackphone/gateway/session.py:251-260 | A reap ends a session if and only if its lease has run out, and changes no other |
| `Sessions.SameSessionIff` | cli/src/rackphone/gateway/session.py:52-70 | After any steps the held session passes for the socket's own if and only if that was never ended or replaced, or a look-alike (same holder, second and port) was established and never ended |
| `Sessions.CleanupReleasesIff` | cli/src/rackphone/gateway/api.py:574-578 | The cleanup releases the unit in exactly these cases; so it is right if and only if no look-alike is held, and always where no acquisition repeats holder, second and port |
| `Sessions.RecycledPortFoolsTheCleanup` | cli/src/rackphone/gateway/session.py:52-70 | A takeover by the same device in the same second on the same port is mistaken for the old session |
| `Leases.RenewLease` | cli/src/rackphone/gateway/api.py:442-458 | Renewed exactly if the login row is live and the holder's lease is fresh; a dead login leaves the manager untouched |
| `Leases.RelayHeartbeat` | cli/src/rackphone/gateway/api.py:460-479 | The loop runs until the first beat that is not renewed, or at which a line seen in use is seen idle |
| `Leases.AcquireOwn` | cli/src/rackphone/gateway/api.py:481-510 | A device is told it is busy with itself only after the grace period and within 17 tries; any other answer comes at once, and refused tries change nothing |
| `Leases.RowLiveIff` | cli/src/rackphone/gateway/authstore.py:404-420 | The row a socket was opened with is live if and only if its family is and nothing was rotated into it since |
| `Leases.RotationEndsTheLease` | cli/src/rackphone/gateway/api.py:453-457 | Rotating the token ends the lease for good although the family is live |
| `Leases.DeadRowStaysDead` | cli/src/rackphone/gateway/authstore.py:404-420 | A dead row is dead after any later steps |
| `Leases.TurnsAreARun` | cli/src/rackphone/gateway/api.py:460-479 | While the login is live a socket's turns are a run of the manager in which it beats |
| `Leases.LiveLoginKeepsTheSession` | cli/src/rackphone/gateway/api.py:442-479 | With a live login and beats in time every beat is renewed and the session stays the same, whatever others do short of ending it |
| `Leases.DeadLoginNeverRenews` | cli/src/rackphone/gateway/api.py:450-457 | Once the login row is dead the next beat ends the relay |
| `Dedup.NotificationDeduplicator.constructor` | app/android/app/src/main/kotlin/com/nktkln/rackphone/companion/NotificationCollector.kt:76-81 | The map starts empty |
| `Dedup.NotificationDeduplicator.IsDuplicate` | app/android/app/src/main/kotlin/com/nktkln/rackphone/companion/NotificationCollector.kt:83-89 | Duplicate exactly if the key holds this content; the key becomes the newest and the oldest leaves a full map |
| `Dedup.MapIsNewestOfHistory` | app/android/app/src/main/kotlin/com/nktkln/rackphone/companion/NotificationCollector.kt:76-89 | The bounded map is exactly the newest `capacity` entries of the unbounded one, never more |
| `Dedup.DuplicateIff` | app/android/app/src/main/kotlin/com/nktkln/rackphone/companion/NotificationCollector.kt:83-89 | Duplicate if and only if the last content under the key is equal and fewer than `capacity` distinct other keys were used since |
| `Numbers.SanitiseNumber` | app/android/app/src/main/kotlin/com/nktkln/rackphone/companion/Numbers.kt:24-44 | The character loop against its specification, refusals included |
| `Numbers.SanitisedIsDialable` | app/android/app/src/main/kotlin/com/nktkln/rackphone/companion/Numbers.kt:24-44 | A cleaned number is digits, of any script, with at most a leading plus, 1 to 20 of them, and cleaning it again changes nothing |
| `Numbers.SanitiseIff` | app/android/app/src/main/kotlin/com/nktkln/rackphone/companion/Numbers.kt:24-44 | A number is usable if and only if, trimmed, it is digits, the listed grouping characters and at most a plus in front, with 1 to 20 digits; what is left is everything but the grouping |
| `Numbers.TrimTakesTheSpaces` | app/android/app/src/main/kotlin/com/nktkln/rackphone/companion/Numbers.kt:25 | Trimming takes whitespace off both ends, all of it and nothing else |
| `Numbers.FirstDigitsAre` | app/android/app/src/main/kotlin/com/nktkln/rackphone/companion/Numbers.kt:35 | Before the Arabic digits, the ten ASCII digits and no other character count as digits |
| `Calls.CallReceiver.OnReceive` | app/android/app/src/main/kotlin/com/nktkln/rackphone/companion/CallReceiver.kt:54-70 | One broadcast moves the stored fields and the log as specified |
| `Calls.CallReceiver.StartRinging` | app/android/app/src/main/kotlin/com/nktkln/rackphone/companion/CallReceiver.kt:72-103 | The first ring opens a call; a repeat only names an unknown caller, once |
| `Calls.CallReceiver.Finish` | app/android/app/src/main/kotlin/com/nktkln/rackphone/companion/CallReceiver.kt:138-165 | Idle clears the stored call and records its outcome, if there was one |
| `Calls.LogTellsTheCalls` | app/android/app/src/main/kotlin/com/nktkln/rackphone/companion/CallReceiver.kt:54-165 | For every sequence of broadcasts the log is the ended calls, each one ring, at most one naming and one outcome, then the records of the open call |
| `Calls.OpenPartIsTheTail` | app/android/app/src/main/kotlin/com/nktkln/rackphone/companion/CallReceiver.kt:54-70 | A call's broadcasts are those since the last idle |
| `Calls.GroupSaysWhatHappened` | app/android/app/src/main/kotlin/com/nktkln/rackphone/companion/CallReceiver.kt:72-165 | A call ends "in" if and only if off-hook came after its first ring, is named late if and only if the first ring was anonymous and a later one was not, and keeps id, start and SIM of the first ring |
| `Calls.RingIsTold` | app/android/app/src/main/kotlin/com/nktkln/rackphone/companion/CallReceiver.kt:72-103 | The first ring after an idle is told at once, with its number or else that of the call on the screen, its own id and time, and the SIM its intent names or else the call's |
| `Calls.FurtherRingIsTold` | app/android/app/src/main/kotlin/com/nktkln/rackphone/companion/CallReceiver.kt:83-90 | A further ring is told exactly if it is the first of its call to come with a number, under the id, start and SIM of the first ring |
| `Calls.EndIsTold` | app/android/app/src/main/kotlin/com/nktkln/rackphone/companion/CallReceiver.kt:138-165 | An idle after a ring is told once: "in" with the whole seconds since the phone was first off the hook after the first ring, or "missed" with none; the first number any ring came with, or none; id, start and SIM of the first ring. Where nothing rang nothing is told |
| `Keepalive.Scheduler.Schedule` | app/android/app/src/main/kotlin/com/nktkln/rackphone/companion/Keepalive.kt:103-122 | The alarm is the earliest run time, but at least a minute ahead; none when disabled |
| `Keepalive.Scheduler.Fire` | app/android/app/src/main/kotlin/com/nktkln/rackphone/companion/Keepalive.kt:137-156 | Each covered SIM that is due, or all when forced, is attempted; then the alarm is armed again |
| `Keepalive.Scheduler.SendFor` | app/android/app/src/main/kotlin/com/nktkln/rackphone/companion/Keepalive.kt:158-180 | The attempt is stamped before it is made |
| `Keepalive.Scheduler.OnDelivered` | app/android/app/src/main/kotlin/com/nktkln/rackphone/companion/Sender.kt:150-166 | A delivery stamps its SIM and arms the alarm again |
| `Keepalive.ListedSimsAreCovered` | app/android/app/src/main/kotlin/com/nktkln/rackphone/companion/Keepalive.kt:81-92 | A listed SIM is covered if and only if it is named and, where readable, present |
| `Keepalive.OtherSettingsCover` | app/android/app/src/main/kotlin/com/nktkln/rackphone/companion/Keepalive.kt:81-92 | "all" covers every SIM there is, or the default where none can be read; "default" covers the default |
| `Keepalive.UnforcedAttemptsKeepTheirDistance` | app/android/app/src/main/kotlin/com/nktkln/rackphone/companion/Keepalive.kt:137-166 | Over any run with a clock that never goes back an unforced attempt comes 24 h - 60 s after each earlier attempt, an interval - 60 s after each delivery, and not before the first delivery |
| `Keepalive.NoDeliveryNoKeepalive` | app/android/app/src/main/kotlin/com/nktkln/rackphone/companion/Keepalive.kt:54-67 | A SIM with no delivery is never picked unforced |
| `Keepalive.PickedIff` | app/android/app/src/main/kotlin/com/nktkln/rackphone/companion/Keepalive.kt:54-67 | When exactly an unforced run picks a SIM: it has delivered, an interval ago less 60 s, and was last tried a day ago less 60 s, if ever |
| `Keepalive.IntervalIs` | app/android/app/src/main/kotlin/com/nktkln/rackphone/companion/Config.kt:329-330 | The interval is thirty days before any setting, then the hours set, but at least 1 and at most 8760 |
| `Keepalive.LoopAttemptsExactlyTheDue` | app/android/app/src/main/kotlin/com/nktkln/rackphone/companion/Keepalive.kt:137-156 | A run attempts exactly the covered SIMs that are due, or all of them when forced, each once and in order, and stamps those and no other |
| `Keepalive.DueSimsAreAttempted` | app/android/app/src/main/kotlin/com/nktkln/rackphone/companion/Keepalive.kt:137-156 | Every covered SIM that is due, or any when forced, is attempted, listed twice or not |
| `Keepalive.AlarmIsNeverTooLate` | app/android/app/src/main/kotlin/com/nktkln/rackphone/companion/Keepalive.kt:103-122 | In every reachable state the armed alarm is no later than the run time of a covered SIM that has delivered, or a minute after arming |
| `Keepalive.AlarmIs` | app/android/app/src/main/kotlin/com/nktkln/rackphone/companion/Keepalive.kt:103-122 | The alarm is set for the first run time of the covered SIMs, or an interval ahead where none is, but at least a minute ahead; never while disabled |
| `Sender.Outbox.constructor` | app/android/app/src/main/kotlin/com/nktkln/rackphone/companion/Sender.kt:33-50 | Nothing pending, all counters zero |
| `Sender.Outbox.Reject` | app/android/app/src/main/kotlin/com/nktkln/rackphone/companion/Sender.kt:173-187 | A rejection is counted and recorded with its reason |
| `Sender.Outbox.Send` | app/android/app/src/main/kotlin/com/nktkln/rackphone/companion/Sender.kt:51-117 | Accepted exactly if every check passes, the text has 1 to 10 parts and the radio takes it; the pending record is stored first and taken back on a refusal |
| `Sender.Outbox.OnPartResult` | app/android/app/src/main/kotlin/com/nktkln/rackphone/companion/Sender.kt:127-170 | A result is folded into its pending record; the last one resolves it; a result for nothing pending is ignored |
| `Sender.FoldCounts` | app/android/app/src/main/kotlin/com/nktkln/rackphone/companion/Sender.kt:127-150 | Counts add up, and the errors are exactly the names of the failing codes, none twice |
| `Sender.VerdictIgnoresOrder` | app/android/app/src/main/kotlin/com/nktkln/rackphone/companion/Sender.kt:127-170 | Permuted results give the same status, counts and set of errors |
| `Sender.EverySendResolvesOnce` | app/android/app/src/main/kotlin/com/nktkln/rackphone/companion/Sender.kt:85-170 | With distinct ids each accepted send resolves exactly once, at its last part, with the verdict of its first results; later ones are ignored |
| `Sender.VerdictIff` | app/android/app/src/main/kotlin/com/nktkln/rackphone/companion/Sender.kt:150-156 | The one verdict of an accepted send is "ok" if and only if each of its first results is -1, and "failed" otherwise, with the counts and the names of those that are not |
| `Sender.CountersAreTallies` | app/android/app/src/main/kotlin/com/nktkln/rackphone/companion/Sender.kt:158-168 | In every run each counter is the number of outbox entries it stands for: sends resolved "ok", sends resolved "failed", rejections |
| `Sender.ErrorNamesAre` | app/android/app/src/main/kotlin/com/nktkln/rackphone/companion/Sender.kt:190-201 | The eight codes with a name have theirs, and no two codes share one |
| `Sender.AcceptedSendsAreAccounted` | app/android/app/src/main/kotlin/com/nktkln/rackphone/companion/Sender.kt:85-170 | In every run, reused ids included: sent + failed + pending + overwritten = accepted |
| `Sender.CountersBalanceIff` | app/android/app/src/main/kotlin/com/nktkln/rackphone/companion/Sender.kt:85-170 | Sent + failed + pending = accepted if and only if no request reached the radio under the id of a send still pending |
| `Sender.ReusedIdLosesASend` | app/android/app/src/main/kotlin/com/nktkln/rackphone/companion/Sender.kt:85-117 | A second send under a pending id takes the first one's record |
| `Codecs.DecodeUndoesEncode` | cli/src/rackphone/gateway/auth.py:230-238 | Decoding an unpadded encoding is the identity on every byte string |
| `Codecs.CharsAreTheAlphabet` | cli/src/rackphone/gateway/auth.py:230-231 | The characters are the alphabet of section 5 of RFC 4648, in its order |
| `Codecs.ReadIff` | cli/src/rackphone/gateway/auth.py:234-238 | A character is read as a number if and only if it is that place of the alphabet, or the plus or slash the decoder takes for its last two |
| `Codecs.SextetsAreTheBits` | cli/src/rackphone/gateway/auth.py:230-231 | Three bytes and their four sextets are one 24-bit number; a shorter end is filled with zero bits |
| `Codecs.EndIsZeroFilled` | cli/src/rackphone/gateway/auth.py:230-231 | Any bytes are encoded as their filling with zeros to whole blocks is, up to what only the zeros fill |
| `Codecs.Utf8RoundTrip` | cli/src/rackphone/gateway/auth.py:255-273 | Decoding an encoded payload gives the text back |
| `Codecs.DecodesIff` | cli/src/rackphone/gateway/auth.py:255-273 | Bytes decode to a text if and only if they are its encoding: no text has a second spelling |
| `Codecs.EncodedBitsAre` | cli/src/rackphone/gateway/auth.py:255 | A character's bytes carry its number in the bits section 3 of RFC 3629 gives them |
| `Codecs.DecimalRoundTrip` | cli/src/rackphone/gateway/auth.py:255-278 | A printed integer is read back and holds no colon; a minus leads it exactly when it is negative, a zero exactly when it is zero |
| `AccessTokens.VerifyAssembled` | cli/src/rackphone/gateway/auth.py:260-286 | A token of any payload and signature is accepted only if the signature is the payload's HMAC, and then by its payload alone |
| `AccessTokens.PayloadReads` | cli/src/rackphone/gateway/auth.py:255 | The payload reads version, id, scope, expiry, between colons |
| `AccessTokens.VerifyUndoesIssue` | cli/src/rackphone/gateway/auth.py:241-286 | Verifying an issued token gives exactly its claims if and only if now < expires_at and the scope has no colon, for every id, expiry and HMAC |
| `AccessTokens.SwappedSignatureIsRefused` | cli/src/rackphone/gateway/auth.py:274-277 | Another token's signature, or another key's, is refused unless the HMACs collide |
| `Totp.VerifyTotp` | cli/src/rackphone/gateway/auth.py:163-186 | Accepted exactly if some existing step of the window whose counter fits eight bytes has this code |
| `Totp.CodesAreSixDigits` | cli/src/rackphone/gateway/auth.py:154-160 | A code is exactly six digits and reads back as the four bytes at the offset the digest's last byte names, big-endian, modulo 2^31 and then a million |
| `Totp.AcceptedAcrossTheWindow` | cli/src/rackphone/gateway/auth.py:144-186 | A code is accepted at another time if and only if the steps differ by at most the window or it collides with a step inside |
| `Totp.CountersPackApart` | cli/src/rackphone/gateway/auth.py:154-157 | Different steps give the HMAC different messages |
| `UnitFiles.LoadUnit` | cli/src/rackphone/units.py:68-87 | The parsing loop against its specification |
| `UnitFiles.PrintedLineParses` | cli/src/rackphone/units.py:18 | A printed setting line is parsed back to its key and value |
| `UnitFiles.PrintedLineSays` | cli/src/rackphone/units.py:75-86 | A line gives the serial, the label or a setting by its key; other reserved keys give nothing |
| `UnitFiles.CharactersAre` | cli/src/rackphone/units.py:18 | The characters keys are made of, and what counts as a space and as a line break |
| `UnitFiles.LoadUndoesSave` | cli/src/rackphone/units.py:56-103 | Loading a saved file gives the unit back, whatever its header of remarks and the order of its settings |
| `UnitFiles.LoadedIsPrintable` | cli/src/rackphone/units.py:56-87 | Whatever text is loaded, saving and loading it again loses nothing |
| `UnitFiles.RoundTripIff` | cli/src/rackphone/units.py:56-103 | Under any header of remarks, save then load is the identity if and only if values are trimmed single lines, the serial not an empty string, and keys plain and not reserved |
| `Tones.Keypad.Dtmf` | app/android/app/src/main/kotlin/com/nktkln/rackphone/companion/CallControl.kt:168-185 | Valid digits during a call are queued after what is playing; anything else changes nothing |
| `Tones.TonesNeverOverlap` | app/android/app/src/main/kotlin/com/nktkln/rackphone/companion/CallControl.kt:168-185 | Over any requests tones never overlap, keep the gap, and press exactly the accepted digits in order |
| `Tones.TonesStartPromptly` | app/android/app/src/main/kotlin/com/nktkln/rackphone/companion/CallControl.kt:177-182 | A request's first tone starts at once, or 100 ms after the last one queued where that is later, and each next one 250 ms after the one before |
| `Tones.AcceptedIff` | app/android/app/src/main/kotlin/com/nktkln/rackphone/companion/CallControl.kt:35-36 | Played are 1 to 32 of the digits, star and hash, and only during a call |
| `Balance.Refresher.constructor` | app/android/app/src/main/kotlin/com/nktkln/rackphone/companion/Balance.kt:53-81 | A refresh asks its first SIM, or is done at once without one |
| `Balance.Refresher.Ask` | app/android/app/src/main/kotlin/com/nktkln/rackphone/companion/Balance.kt:69-80 | The next request, or the one call of onDone |
| `Balance.Refresher.Callback` | app/android/app/src/main/kotlin/com/nktkln/rackphone/companion/Ussd.kt:45-100 | The first callback of a request settles it and asks on; any other changes nothing |
| `Balance.AskedIff` | app/android/app/src/main/kotlin/com/nktkln/rackphone/companion/Balance.kt:25-66 | A SIM is asked if and only if it is present, a code is set, and it is forced, never read or read an interval ago |
| `Balance.OneEntryPerSim` | app/android/app/src/main/kotlin/com/nktkln/rackphone/companion/Balance.kt:53-81 | Whatever callbacks come: one unsettled request at a time, one entry per SIM in order, onDone exactly once with all of them |
| `Balance.ResultsNeverChange` | app/android/app/src/main/kotlin/com/nktkln/rackphone/companion/Ussd.kt:45-100 | No later callback changes a result or repeats onDone |
| `Balance.WaitingRequestProgresses` | app/android/app/src/main/kotlin/com/nktkln/rackphone/companion/Ussd.kt:45-100 | Any callback of the waiting request, a timeout included, brings the refresh one SIM on |
| `Balance.TimeoutsFinish` | app/android/app/src/main/kotlin/com/nktkln/rackphone/companion/Ussd.kt:67-68 | From wherever it stands, timeouts alone finish a refresh: onDone is called, once, with a timeout for every remaining SIM |
| `Filters.VerdictIff` | cli/src/rackphone/gateway/filters.py:299-335 | Announced if and only if no rule denies and, if any allow rule applies, one matches |
| `Filters.MatchesIff` | cli/src/rackphone/gateway/filters.py:140-180 | A rule matches exactly if it is enabled and each of its conditions that is not empty is met; a condition on the body never by an event without one |
| `Filters.DecidingRule` | cli/src/rackphone/gateway/filters.py:312-335 | The rule named with the verdict: a matching deny rule, or an allow rule for the kind where nothing matches, when silenced; a matching allow rule, or none where none is for the kind, when announced |
| `Filters.VerdictIgnoresOrder` | cli/src/rackphone/gateway/filters.py:299-335 | Reordering the rules never changes the verdict |
| `Filters.AddedRuleEffects` | cli/src/rackphone/gateway/filters.py:299-335 | Adding a deny rule anywhere never un-silences an event; a disabled rule changes nothing |
| `Relay.ScreenRelay.DeviceToClient` | cli/src/rackphone/gateway/relay.py:89-95 | One loop sends its reads, tagged, up to the first empty one |
| `Relay.ScreenRelay.ClientToDevice` | cli/src/rackphone/gateway/relay.py:97-115 | Each device channel gets exactly the bytes tagged for it; empty messages and unknown channels are ignored |
| `Relay.ClientGetsAPrefix` | cli/src/rackphone/gateway/relay.py:73-95 | However the loops interleave and wherever the first end of anything cuts them, the client has of each channel exactly what its loop read and sent: a prefix of what the device wrote, short of what was taken by at most one read, and all of it if and only if all was read and nothing is held |
| `Relay.EndedLoopSentAll` | cli/src/rackphone/gateway/relay.py:89-95 | In every run, a loop that did not break is over only once the client has everything the device wrote to its channel |
| `Relay.NothingAfterTheCut` | cli/src/rackphone/gateway/relay.py:80-83 | The loops are cut only once some task has ended, and nothing is sent after that |
| `Relay.OneEndCutsTheOther` | cli/src/rackphone/gateway/relay.py:78-83 | A concrete run in which the end of one channel loses the client what had been read of the other |

## Left out

- Routing, WebSocket and event-loop plumbing, threads and their locks: every operation is one step, so the gap between `get` and `release` in a socket's cleanup, the gap between taking an id and appending its event, and concurrent login attempts are not modelled.
- PhoneInbox.Inbox.Record: failures of file operations, which the phone swallows, are not modelled; neither is overflow of 64-bit ids.
- EventStore.Store.AddEvents: the raw record, the SIM number of a send and the row id limit of SQLite are not modelled.
- JSON text: a spool line is a parsed record, or one of the ways a line can be bad.
- Login.LoginService.CheckCredentials: password hashing, recovery codes and the code comparison are given as booleans (`Totp` models the codes by themselves); alerts, audit rows and the known-device check are left out.
- HMAC-SHA256, HMAC-SHA1 and the base32 decoding of secrets are arbitrary functions; the randomness of tokens is a parameter.
- Codecs.DecodeUndoesEncode: the decoder is exact on text without padding; text that brings its own padding is not modelled further than that it may be refused. Python's other integer spellings (spaces, underscores, other scripts' digits) and its cap on the length of decimals are left out too; an issued token contains none of them.
- UnitFiles.RoundTripIff: the header is any list of remarks rather than the five the source writes, so a unit name with a line break in it is not covered; the order of setting keys is any order rather than the sorted one; a carriage return before a line feed is two breaks, the second ending an empty line that the parser skips.
- Sessions.SessionManager.Acquire: what a listener, a socket name or an adb error holds besides success or failure; the warning texts.
- Leases.RelayHeartbeat: real time between beats; each beat carries its own clock readings and what everyone else did before it.
- Relay.ClientGetsAPrefix: sending a message over the WebSocket is one step; what a cancelled send may have put on the wire is not modelled.
- Leases.AcquireOwn: the script must hold enough tries to reach the end of the grace period, and sleeps are never cut short.
- Sender.Outbox.Send: how a SIM is resolved and the text divided into parts, the destination and length fields of a record, and the exception class in a `send_failed` reason.
- Sender.Outbox.OnPartResult: the stamp that a delivered send puts on its SIM is a step of `Keepalive` (`Scheduler.OnDelivered`).
- Keepalive.Scheduler.SendFor: the target number and body, and the send itself, whose delivery is a step of its own.
- Keepalive.AlarmIsNeverTooLate: speaks of the SIMs the alarm was armed for; a SIM that appears later is covered from the next arming on.
- Balance.Refresher.Callback: the amount parsed out of a reply and the stored balance.
- Filters.VerdictIff: globbing, substring and regular-expression search are arbitrary predicates; parsing of the rules is left out.
- Capability checks beyond the stream's readable rows, scopes, file-name confinement, commands of the CLI, metrics, rendering, audio, video decoding and the Flutter client.

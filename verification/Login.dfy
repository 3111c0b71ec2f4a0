/**
 * Login lockouts (login.py over authstore.py). Failures are counted in sliding
 * windows per address and for the administrator, and each full window locks its
 * subject one rung further up a ladder.
 */
module Login {
  import opened Prelude

  const LOCKOUT_LADDER: seq<int> := [3600, 21600, 43200, 86400]
  const IP_LADDER: seq<int> := [60, 120, 240, 480, 900]
  const IP_FAILURE_THRESHOLD := 3
  const IP_FAILURE_WINDOW_SECONDS := 900
  const ACCOUNT_FAILURE_THRESHOLD := 5
  const ACCOUNT_FAILURE_WINDOW_SECONDS := 3600

  datatype Attempt = Attempt(at: int, ip: string, username: string, ok: bool)

  datatype Lockout = Lockout(subject: string, level: int, until: int)

  type Locks = map<string, Lockout>

  function NextLockout(subject: string, level: int, now: int, ladder: seq<int>): Lockout
    requires ladder != []
  {
    var rung := Min(Max(level, 0), |ladder| - 1);
    Lockout(subject, Min(rung + 1, |ladder|), now + ladder[rung])
  }

  function IpSubject(ip: string): string {
    "ip:" + ip
  }

  function AccountSubject(username: string): string {
    "account:" + username
  }

  lemma SubjectsNeverMeet(ip: string, other: string, username: string)
    ensures IpSubject(ip) != AccountSubject(username)
    ensures IpSubject(ip) == IpSubject(other) ==> ip == other
  {
    assert IpSubject(ip)[0] == 'i' && AccountSubject(username)[0] == 'a';
    assert IpSubject(ip)[3..] == ip && IpSubject(other)[3..] == other;
  }

  function ActiveLock(locks: Locks, subject: string, now: int): Option<Lockout> {
    if subject in locks && locks[subject].until > now then Some(locks[subject]) else None
  }

  function LastLevel(locks: Locks, subject: string): int {
    if subject in locks then locks[subject].level else 0
  }

  /** When one address failed, oldest first. */
  function IpFailures(log: seq<Attempt>, ip: string): seq<int> {
    if log == [] then []
    else
      var last := log[|log| - 1];
      IpFailures(log[..|log| - 1], ip) + (if !last.ok && last.ip == ip then [last.at] else [])
  }

  /** When one name was tried and failed, oldest first. */
  function NameFailures(log: seq<Attempt>, username: string): seq<int> {
    if log == [] then []
    else
      var last := log[|log| - 1];
      NameFailures(log[..|log| - 1], username)
      + (if !last.ok && last.username == username then [last.at] else [])
  }

  /** How many of the times lie in the half-open window. */
  function CountIn(times: seq<int>, from: int, to: int): nat {
    if times == [] then 0
    else
      CountIn(times[..|times| - 1], from, to)
      + (if from <= times[|times| - 1] < to then 1 else 0)
  }

  function CountSince(times: seq<int>, since: int): nat {
    if times == [] then 0
    else CountSince(times[..|times| - 1], since) + (if times[|times| - 1] >= since then 1 else 0)
  }

  lemma OneMore(times: seq<int>, t: int, since: int)
    ensures CountSince(times + [t], since) == CountSince(times, since) + (if t >= since then 1 else 0)
  {
    assert (times + [t])[..|times|] == times;
  }

  predicate IpWindowFull(log: seq<Attempt>, ip: string, now: int) {
    CountSince(IpFailures(log, ip), now - IP_FAILURE_WINDOW_SECONDS) >= IP_FAILURE_THRESHOLD
  }

  predicate AccountWindowFull(log: seq<Attempt>, admin: string, now: int) {
    CountSince(NameFailures(log, admin), now - ACCOUNT_FAILURE_WINDOW_SECONDS) >= ACCOUNT_FAILURE_THRESHOLD
  }

  function Locked(locks: Locks, l: Lockout): Locks {
    locks[l.subject := l]
  }

  function IpStep(locks: Locks, log: seq<Attempt>, ip: string, now: int): Locks {
    if IpWindowFull(log, ip, now)
    then Locked(locks, NextLockout(IpSubject(ip), LastLevel(locks, IpSubject(ip)), now, IP_LADDER))
    else locks
  }

  /** Only attempts naming the real account count towards its lock. */
  function AccountStep(locks: Locks, log: seq<Attempt>, username: string, admin: string, now: int): Locks {
    if username == admin && AccountWindowFull(log, admin, now)
    then Locked(locks, NextLockout(AccountSubject(admin), LastLevel(locks, AccountSubject(admin)), now, LOCKOUT_LADDER))
    else locks
  }

  /** The locks after the attempt that ends `log`, given those before it. */
  function LocksStep(locks: Locks, log: seq<Attempt>, admin: string): Locks
    requires log != []
  {
    var a := log[|log| - 1];
    if a.ok then locks - {IpSubject(a.ip)} - {AccountSubject(admin)}
    else AccountStep(IpStep(locks, log, a.ip, a.at), log, a.username, admin, a.at)
  }

  /** The lock table is a function of the attempt log: nothing else changes it. */
  function LocksAfter(log: seq<Attempt>, admin: string): Locks {
    if log == [] then map[]
    else LocksStep(LocksAfter(log[..|log| - 1], admin), log, admin)
  }

  predicate Refused(locks: Locks, ip: string, admin: string, now: int) {
    ActiveLock(locks, IpSubject(ip), now).Some? || ActiveLock(locks, AccountSubject(admin), now).Some?
  }

  /** Logs the service can produce: times never go back, and no attempt is recorded under a lock. */
  ghost predicate Admissible(log: seq<Attempt>, admin: string) {
    log == []
    || (var init, last := log[..|log| - 1], log[|log| - 1];
        && Admissible(init, admin)
        && (init != [] ==> init[|init| - 1].at <= last.at)
        && !Refused(LocksAfter(init, admin), last.ip, admin, last.at))
  }

  lemma Appended(log: seq<Attempt>, a: Attempt, admin: string)
    ensures LocksAfter(log + [a], admin) == LocksStep(LocksAfter(log, admin), log + [a], admin)
    ensures Admissible(log, admin) && (log != [] ==> log[|log| - 1].at <= a.at)
            && !Refused(LocksAfter(log, admin), a.ip, admin, a.at)
            ==> Admissible(log + [a], admin)
  {
    assert (log + [a])[..|log|] == log;
  }

  lemma FailureAppended(log: seq<Attempt>, a: Attempt, admin: string)
    requires Admissible(log, admin) && (log != [] ==> log[|log| - 1].at <= a.at) && !a.ok
    requires !Refused(LocksAfter(log, admin), a.ip, admin, a.at)
    ensures Admissible(log + [a], admin)
    ensures LocksAfter(log + [a], admin)
            == AccountStep(IpStep(LocksAfter(log, admin), log + [a], a.ip, a.at), log + [a], a.username, admin, a.at)
  {
    Appended(log, a, admin);
  }

  lemma SuccessAppended(log: seq<Attempt>, a: Attempt, admin: string)
    requires Admissible(log, admin) && (log != [] ==> log[|log| - 1].at <= a.at) && a.ok
    requires !Refused(LocksAfter(log, admin), a.ip, admin, a.at)
    ensures Admissible(log + [a], admin)
    ensures LocksAfter(log + [a], admin) == LocksAfter(log, admin) - {IpSubject(a.ip)} - {AccountSubject(admin)}
  {
    Appended(log, a, admin);
  }

  // -------------------------------------------------------------- the service

  datatype Reason = BadCredentials | TotpRequired | BadTotp | LockedOut | NotConfigured

  /** The factor that fails first, if one does. */
  function FailedFactor(p: Presented, admin: string): Option<Reason> {
    if p.username != admin || !p.passwordOk then Some(BadCredentials)
    else if p.secondFactorOn && !p.codeGiven then Some(TotpRequired)
    else if p.secondFactorOn && !p.codeOk then Some(BadTotp)
    else None
  }

  datatype Refusal = Refusal(reason: Reason, lockedUntil: Option<int>)

  /** What was presented, after the uninterpreted checks: scrypt, TOTP, recovery codes. */
  datatype Presented = Presented(
    username: string,
    passwordOk: bool,
    secondFactorOn: bool,
    codeGiven: bool,
    codeOk: bool)

  /** Every factor holds, and neither the address nor the account is locked. */
  predicate LetIn(configured: bool, locks: Locks, p: Presented, ip: string, admin: string, now: int) {
    && configured && !Refused(locks, ip, admin, now)
    && p.username == admin && p.passwordOk && (p.secondFactorOn ==> p.codeGiven && p.codeOk)
  }

  /** What an attempt adds to the log: a failure unless locked or not set up; on success, as the caller says. */
  function Recorded(refusal: Option<Refusal>, p: Presented, ip: string, now: int, success: seq<Attempt>): seq<Attempt> {
    match refusal
    case None => success
    case Some(r) =>
      if r.reason.LockedOut? || r.reason.NotConfigured? then [] else [Attempt(now, ip, p.username, false)]
  }

  class LoginService {
    const admin: string
    const configured: bool
    var attempts: seq<Attempt>
    var lockouts: Locks

    ghost predicate Valid()
      reads this
    {
      Admissible(attempts, admin) && lockouts == LocksAfter(attempts, admin)
    }

    ghost predicate NotBefore(now: int)
      reads this
    {
      attempts != [] ==> attempts[|attempts| - 1].at <= now
    }

    constructor (admin: string, configured: bool)
      ensures Valid() && attempts == [] && this.admin == admin && this.configured == configured
    {
      this.admin, this.configured := admin, configured;
      attempts, lockouts := [], map[];
    }

    method RecordFailure(username: string, ip: string, now: int)
      requires Valid() && NotBefore(now) && !Refused(lockouts, ip, admin, now)
      modifies this
      ensures Valid()
      ensures attempts == old(attempts) + [Attempt(now, ip, username, false)]
    {
      FailureAppended(attempts, Attempt(now, ip, username, false), admin);
      attempts := attempts + [Attempt(now, ip, username, false)];
      var ipFailures := CountSince(IpFailures(attempts, ip), now - IP_FAILURE_WINDOW_SECONDS);
      if ipFailures >= IP_FAILURE_THRESHOLD {
        LockOut(IpSubject(ip), now, IP_LADDER);
      }
      assert lockouts == IpStep(old(lockouts), attempts, ip, now);
      if username == admin {
        var accountFailures := CountSince(NameFailures(attempts, admin), now - ACCOUNT_FAILURE_WINDOW_SECONDS);
        if accountFailures >= ACCOUNT_FAILURE_THRESHOLD {
          LockOut(AccountSubject(admin), now, LOCKOUT_LADDER);
        }
      }
      assert lockouts == AccountStep(IpStep(old(lockouts), attempts, ip, now), attempts, username, admin, now);
    }

    method LockOut(subject: string, now: int, ladder: seq<int>)
      requires ladder != []
      modifies this`lockouts
      ensures lockouts == Locked(old(lockouts), NextLockout(subject, LastLevel(old(lockouts), subject), now, ladder))
    {
      var lockout := NextLockout(subject, LastLevel(lockouts, subject), now, ladder);
      lockouts := lockouts[lockout.subject := lockout];
    }

    /** Every refusal but a lock (or a missing setup) is recorded; a locked caller changes nothing. */
    method CheckCredentials(p: Presented, ip: string, now: int) returns (refusal: Option<Refusal>)
      requires Valid() && NotBefore(now)
      modifies this
      ensures Valid()
      ensures refusal.None? <==> LetIn(configured, old(lockouts), p, ip, admin, now)
      ensures refusal.None? ==> lockouts == old(lockouts)
      ensures configured && !Refused(old(lockouts), ip, admin, now) ==>
              (if refusal.None? then None else Some(refusal.value.reason)) == FailedFactor(p, admin)
      ensures !configured ==> refusal == Some(Refusal(NotConfigured, None)) && lockouts == old(lockouts)
      ensures refusal.Some? && refusal.value.reason.LockedOut? <==>
              configured && Refused(old(lockouts), ip, admin, now)
      ensures refusal.Some? && refusal.value.reason.LockedOut? ==>
              && refusal.value.lockedUntil.Some? && refusal.value.lockedUntil.value > now
              && !Refused(old(lockouts), ip, admin, refusal.value.lockedUntil.value)
      ensures attempts == old(attempts) + Recorded(refusal, p, ip, now, [])
    {
      if !configured {
        return Some(Refusal(NotConfigured, None));
      }
      var ipLock := ActiveLock(lockouts, IpSubject(ip), now);
      var accountLock := ActiveLock(lockouts, AccountSubject(admin), now);
      if ipLock.Some? || accountLock.Some? {
        var until :=
          if ipLock.None? then accountLock.value.until
          else if accountLock.None? then ipLock.value.until
          else Max(ipLock.value.until, accountLock.value.until);
        return Some(Refusal(LockedOut, Some(until)));
      }
      if p.username != admin || !p.passwordOk {
        RecordFailure(p.username, ip, now);
        return Some(Refusal(BadCredentials, None));
      }
      if p.secondFactorOn {
        if !p.codeGiven {
          RecordFailure(p.username, ip, now);
          return Some(Refusal(TotpRequired, None));
        }
        if !p.codeOk {
          RecordFailure(p.username, ip, now);
          return Some(Refusal(BadTotp, None));
        }
      }
      refusal := None;
    }

    method LogIn(p: Presented, ip: string, now: int) returns (refusal: Option<Refusal>)
      requires Valid() && NotBefore(now)
      modifies this
      ensures Valid()
      ensures attempts == old(attempts) + Recorded(refusal, p, ip, now, [Attempt(now, ip, p.username, true)])
      ensures refusal.None? <==> LetIn(configured, old(lockouts), p, ip, admin, now)
      ensures refusal.Some? && refusal.value.reason.LockedOut? <==>
              configured && Refused(old(lockouts), ip, admin, now)
    {
      refusal := CheckCredentials(p, ip, now);
      if refusal.Some? {
        return;
      }
      SuccessAppended(attempts, Attempt(now, ip, p.username, true), admin);
      attempts := attempts + [Attempt(now, ip, p.username, true)];
      lockouts := lockouts - {IpSubject(ip)};
      lockouts := lockouts - {AccountSubject(admin)};
    }

    /** A step-up check: the same ladder as a login, and a success is not recorded. */
    method Reauthenticate(p: Presented, ip: string, now: int) returns (refusal: Option<Refusal>)
      requires Valid() && NotBefore(now) && p.username == admin
      modifies this
      ensures Valid()
      ensures attempts == old(attempts) + Recorded(refusal, p, ip, now, [])
      ensures refusal.None? <==> LetIn(configured, old(lockouts), p, ip, admin, now)
      ensures refusal.None? ==> lockouts == old(lockouts)
      ensures refusal.Some? && refusal.value.reason.LockedOut? <==>
              configured && Refused(old(lockouts), ip, admin, now)
    {
      refusal := CheckCredentials(p, ip, now);
    }
  }

  // ------------------------------------------------------- counting in windows

  ghost predicate Sorted(times: seq<int>) {
    forall i, j :: 0 <= i <= j < |times| ==> times[i] <= times[j]
  }

  /** Any k + 1 of the times in a row span at least w. */
  ghost predicate Spread(times: seq<int>, k: nat, w: int) {
    forall i :: 0 <= i < |times| - k ==> times[i + k] - times[i] >= w
  }

  lemma {:induction false} CountAtMostTail(times: seq<int>, from: int, to: int, k: nat)
    requires k <= |times| && forall i :: 0 <= i < |times| - k ==> times[i] < from
    ensures CountIn(times, from, to) <= k
    decreases |times|
  {
    if times != [] {
      var init := times[..|times| - 1];
      if k > 0 {
        CountAtMostTail(init, from, to, k - 1);
      } else {
        CountAtMostTail(init, from, to, 0);
      }
    }
  }

  /** Spread times never put more than k of themselves into one window. */
  lemma {:induction false} SpreadBoundsTheWindow(times: seq<int>, k: nat, w: int, from: int)
    requires Sorted(times) && Spread(times, k, w)
    ensures CountIn(times, from, from + w) <= k
  {
    if times != [] {
      var n := |times|;
      var init := times[..n - 1];
      if times[n - 1] >= from + w || times[n - 1] < from {
        assert Spread(init, k, w);
        SpreadBoundsTheWindow(init, k, w, from);
      } else if n <= k {
        CountAtMostTail(times, from, from + w, n);
      } else {
        assert times[n - 1 - k + k] - times[n - 1 - k] >= w;
        forall i | 0 <= i < n - k
          ensures times[i] < from
        {
          assert times[i] <= times[n - 1 - k];
        }
        CountAtMostTail(times, from, from + w, k);
      }
    }
  }

  lemma {:induction false} WindowsAddUp(times: seq<int>, a: int, b: int, c: int)
    requires a <= b <= c
    ensures CountIn(times, a, c) == CountIn(times, a, b) + CountIn(times, b, c)
  {
    if times != [] {
      WindowsAddUp(times[..|times| - 1], a, b, c);
    }
  }

  /** Over any span the count grows at most like k per window. */
  lemma {:induction false} SpreadBoundsTheSpan(times: seq<int>, k: nat, w: int, from: int, windows: nat)
    requires Sorted(times) && Spread(times, k, w) && w > 0
    ensures CountIn(times, from, from + windows * w) <= k * windows
    decreases windows
  {
    if windows == 0 {
      EmptyWindow(times, from);
    } else {
      var mid := from + (windows - 1) * w;
      assert mid + w == from + windows * w;
      assert from <= mid by { ProductNotNegative(windows - 1, w); }
      SpreadBoundsTheSpan(times, k, w, from, windows - 1);
      SpreadBoundsTheWindow(times, k, w, mid);
      WindowsAddUp(times, from, mid, mid + w);
      assert k * (windows - 1) + k == k * windows;
    }
  }

  lemma ProductNotNegative(a: nat, b: nat)
    ensures a * b >= 0
  {}

  lemma {:induction false} EmptyWindow(times: seq<int>, from: int)
    ensures CountIn(times, from, from) == 0
  {
    if times != [] {
      EmptyWindow(times[..|times| - 1], from);
    }
  }

  lemma {:induction false} CountGrowsWithWindow(times: seq<int>, from: int, to: int, further: int)
    requires to <= further
    ensures CountIn(times, from, to) <= CountIn(times, from, further)
  {
    if times != [] {
      CountGrowsWithWindow(times[..|times| - 1], from, to, further);
    }
  }

  lemma {:induction false} LateTimesAreCounted(times: seq<int>, since: int, k: nat)
    requires k <= |times| && forall i :: |times| - k <= i < |times| ==> times[i] >= since
    ensures CountSince(times, since) >= k
    decreases k
  {
    if k > 0 {
      var init := times[..|times| - 1];
      forall i | |init| - (k - 1) <= i < |init|
        ensures init[i] >= since
      {
        assert times[i] >= since;
      }
      LateTimesAreCounted(init, since, k - 1);
    }
  }

  /** An active lock is never shortened, lifted or replaced by a recorded attempt. */
  lemma ActiveLocksStand(log: seq<Attempt>, admin: string, subject: string)
    requires Admissible(log, admin) && log != []
    requires var before := LocksAfter(log[..|log| - 1], admin);
             ActiveLock(before, subject, log[|log| - 1].at).Some?
    ensures subject in LocksAfter(log, admin)
    ensures LocksAfter(log, admin)[subject] == LocksAfter(log[..|log| - 1], admin)[subject]
  {
    var last := log[|log| - 1];
    assert subject != IpSubject(last.ip) && subject != AccountSubject(admin);
  }

  // ---------------------------------------------------- what a lock has behind it

  lemma {:induction false} NoneIsLate(times: seq<int>, since: int)
    requires Sorted(times) && (times == [] || times[|times| - 1] < since)
    ensures CountSince(times, since) == 0
  {
    if times != [] {
      var init := times[..|times| - 1];
      assert init != [] ==> init[|init| - 1] <= times[|times| - 1];
      NoneIsLate(init, since);
    }
  }

  /** Sorted times of which k are late end in k late ones. */
  lemma {:induction false} CountedAreLast(times: seq<int>, since: int, k: nat)
    requires Sorted(times) && 1 <= k <= CountSince(times, since)
    ensures k <= |times| && times[|times| - k] >= since
    decreases k
  {
    if times[|times| - 1] < since {
      NoneIsLate(times, since);
    } else if k > 1 {
      CountedAreLast(times[..|times| - 1], since, k - 1);
    }
  }

  lemma {:induction false} IpFailuresAreSorted(log: seq<Attempt>, admin: string, ip: string)
    requires Admissible(log, admin)
    ensures Sorted(IpFailures(log, ip))
    ensures log != [] ==> forall t :: t in IpFailures(log, ip) ==> t <= LastAt(log)
  {
    if log != [] {
      IpFailuresAreSorted(log[..|log| - 1], admin, ip);
      var init := IpFailures(log[..|log| - 1], ip);
      assert forall i :: 0 <= i < |init| ==> init[i] in init;
    }
  }

  /** The address's window is full exactly if its last failures were three within 900 seconds. */
  lemma IpWindowFullIff(log: seq<Attempt>, admin: string, ip: string)
    requires Admissible(log, admin) && log != [] && log[|log| - 1].ip == ip && !log[|log| - 1].ok
    ensures var f := IpFailures(log, ip); var n := |f|;
            IpWindowFull(log, ip, LastAt(log)) <==> n >= 3 && f[n - 1] - f[n - 3] <= 900
  {
    var f := IpFailures(log, ip);
    var n := |f|;
    IpFailuresAreSorted(log, admin, ip);
    assert f[n - 1] == LastAt(log);
    if IpWindowFull(log, ip, LastAt(log)) {
      CountedAreLast(f, LastAt(log) - 900, 3);
    }
    if n >= 3 && f[n - 1] - f[n - 3] <= 900 {
      LateTimesAreCounted(f, LastAt(log) - 900, 3);
    }
  }

  lemma AccountWindowFullIff(log: seq<Attempt>, admin: string)
    requires Admissible(log, admin) && log != [] && log[|log| - 1].username == admin && !log[|log| - 1].ok
    ensures var g := NameFailures(log, admin); var n := |g|;
            AccountWindowFull(log, admin, LastAt(log)) <==> n >= 5 && g[n - 1] - g[n - 5] <= 3600
  {
    var g := NameFailures(log, admin);
    var n := |g|;
    NameFailuresAreSorted(log, admin, admin);
    assert g[n - 1] == LastAt(log);
    if AccountWindowFull(log, admin, LastAt(log)) {
      CountedAreLast(g, LastAt(log) - 3600, 5);
    }
    if n >= 5 && g[n - 1] - g[n - 5] <= 3600 {
      forall i | n - 5 <= i < n
        ensures g[i] >= LastAt(log) - 3600
      {
        assert g[n - 5] <= g[i];
      }
      LateTimesAreCounted(g, LastAt(log) - 3600, 5);
    }
  }

  /** The ladders: each lock lasts as long as its rung says, and the last rung repeats. */
  lemma RungsAre(subject: string, level: nat, now: int)
    ensures NextLockout(subject, level, now, IP_LADDER)
            == (if level == 0 then Lockout(subject, 1, now + 60)
                else if level == 1 then Lockout(subject, 2, now + 120)
                else if level == 2 then Lockout(subject, 3, now + 240)
                else if level == 3 then Lockout(subject, 4, now + 480)
                else Lockout(subject, 5, now + 900))
    ensures NextLockout(subject, level, now, LOCKOUT_LADDER)
            == (if level == 0 then Lockout(subject, 1, now + 60 * 60)
                else if level == 1 then Lockout(subject, 2, now + 6 * 60 * 60)
                else if level == 2 then Lockout(subject, 3, now + 12 * 60 * 60)
                else Lockout(subject, 4, now + 24 * 60 * 60))
  {}

  /** A lock holds from now until its rung is over, and not a second longer. */
  lemma LockHolds(locks: Locks, subject: string, level: nat, now: int, t: int)
    ensures ActiveLock(Locked(locks, NextLockout(subject, level, now, IP_LADDER)), subject, t).Some? <==>
            t < now + (if level == 0 then 60 else if level == 1 then 120 else if level == 2 then 240
                       else if level == 3 then 480 else 900)
    ensures ActiveLock(Locked(locks, NextLockout(subject, level, now, LOCKOUT_LADDER)), subject, t).Some? <==>
            t < now + (if level == 0 then 3600 else if level == 1 then 21_600 else if level == 2 then 43_200 else 86_400)
  {
    RungsAre(subject, level, now);
  }

  /**
   * What one failure does, exactly: it locks its address if and only if it is the
   * third of the address within 900 seconds, and the account if and only if it is
   * the fifth naming the administrator within an hour.
   */
  lemma FailureLocksIff(log: seq<Attempt>, admin: string)
    requires Admissible(log, admin) && log != [] && !log[|log| - 1].ok
    ensures var last := log[|log| - 1]; var locks := LocksAfter(log, admin);
            var f, g := IpFailures(log, last.ip), NameFailures(log, admin); var n, m := |f|, |g|;
            && (ActiveLock(locks, IpSubject(last.ip), last.at).Some? <==> n >= 3 && f[n - 1] - f[n - 3] <= 900)
            && (ActiveLock(locks, AccountSubject(admin), last.at).Some? <==>
                  last.username == admin && m >= 5 && g[m - 1] - g[m - 5] <= 3600)
  {
    ItsAddressIsLockedIff(log, admin);
    TheAccountIsLockedIff(log, admin);
  }

  lemma LockedIsActive(locks: Locks, subject: string, level: int, now: int)
    ensures ActiveLock(Locked(locks, NextLockout(subject, level, now, IP_LADDER)), subject, now).Some?
    ensures ActiveLock(Locked(locks, NextLockout(subject, level, now, LOCKOUT_LADDER)), subject, now).Some?
  {
    RungsAre(subject, Max(level, 0), now);
  }

  lemma OtherSubjectStands(locks: Locks, l: Lockout, subject: string, now: int)
    requires l.subject != subject
    ensures ActiveLock(Locked(locks, l), subject, now) == ActiveLock(locks, subject, now)
  {}

  lemma ItsAddressIsLockedIff(log: seq<Attempt>, admin: string)
    requires Admissible(log, admin) && log != [] && !log[|log| - 1].ok
    ensures var last := log[|log| - 1]; var f := IpFailures(log, last.ip); var n := |f|;
            ActiveLock(LocksAfter(log, admin), IpSubject(last.ip), last.at).Some? <==>
            n >= 3 && f[n - 1] - f[n - 3] <= 900
  {
    var last, before := log[|log| - 1], LocksAfter(log[..|log| - 1], admin);
    var mine, account := IpSubject(last.ip), AccountSubject(admin);
    SubjectsNeverMeet(last.ip, last.ip, admin);
    IpWindowFullIff(log, admin, last.ip);
    LockedIsActive(before, mine, LastLevel(before, mine), last.at);
    var mid := IpStep(before, log, last.ip, last.at);
    OtherSubjectStands(mid, NextLockout(account, LastLevel(mid, account), last.at, LOCKOUT_LADDER), mine, last.at);
  }

  lemma TheAccountIsLockedIff(log: seq<Attempt>, admin: string)
    requires Admissible(log, admin) && log != [] && !log[|log| - 1].ok
    ensures var last := log[|log| - 1]; var g := NameFailures(log, admin); var m := |g|;
            ActiveLock(LocksAfter(log, admin), AccountSubject(admin), last.at).Some? <==>
            last.username == admin && m >= 5 && g[m - 1] - g[m - 5] <= 3600
  {
    var last, before := log[|log| - 1], LocksAfter(log[..|log| - 1], admin);
    var mine, account := IpSubject(last.ip), AccountSubject(admin);
    SubjectsNeverMeet(last.ip, last.ip, admin);
    OtherSubjectStands(before, NextLockout(mine, LastLevel(before, mine), last.at, IP_LADDER), account, last.at);
    var mid := IpStep(before, log, last.ip, last.at);
    LockedIsActive(mid, account, LastLevel(mid, account), last.at);
    if last.username == admin {
      AccountWindowFullIff(log, admin);
    }
  }

  /** A success takes its address's row and the account's away, whatever their levels, and no other. */
  lemma SuccessClearsTwo(log: seq<Attempt>, admin: string, subject: string)
    requires log != [] && log[|log| - 1].ok
    ensures var before, after := LocksAfter(log[..|log| - 1], admin), LocksAfter(log, admin);
            && (subject in after <==>
                  subject in before && subject != "ip:" + log[|log| - 1].ip && subject != "account:" + admin)
            && (subject in after ==> after[subject] == before[subject])
  {}

  /** Some failure of the address is its third within 900 seconds. */
  ghost predicate ThreeFailures(log: seq<Attempt>, ip: string) {
    var f := IpFailures(log, ip);
    exists i :: 2 <= i < |f| && f[i] - f[i - 2] <= 900
  }

  /** Some failure naming the administrator is the fifth within an hour. */
  ghost predicate FiveFailures(log: seq<Attempt>, admin: string) {
    var g := NameFailures(log, admin);
    exists i :: 4 <= i < |g| && g[i] - g[i - 4] <= 3600
  }

  lemma FailuresStay(log: seq<Attempt>, ip: string, admin: string)
    requires log != []
    ensures ThreeFailures(log[..|log| - 1], ip) ==> ThreeFailures(log, ip)
    ensures FiveFailures(log[..|log| - 1], admin) ==> FiveFailures(log, admin)
  {
    var f0, f := IpFailures(log[..|log| - 1], ip), IpFailures(log, ip);
    if i :| 2 <= i < |f0| && f0[i] - f0[i - 2] <= 900 {
      assert f[i] == f0[i] && f[i - 2] == f0[i - 2];
    }
    var g0, g := NameFailures(log[..|log| - 1], admin), NameFailures(log, admin);
    if i :| 4 <= i < |g0| && g0[i] - g0[i - 4] <= 3600 {
      assert g[i] == g0[i] && g[i - 4] == g0[i - 4];
    }
  }

  lemma NewAddressRowIsEarned(log: seq<Attempt>, ip: string, admin: string)
    requires Admissible(log, admin) && log != []
    requires IpSubject(ip) in LocksAfter(log, admin) && IpSubject(ip) !in LocksAfter(log[..|log| - 1], admin)
    ensures ThreeFailures(log, ip)
  {
    var last := log[|log| - 1];
    SubjectsNeverMeet(ip, last.ip, admin);
    if !last.ok && last.ip == ip {
      IpWindowFullIff(log, admin, ip);
      var f := IpFailures(log, ip);
      assert f[|f| - 1] - f[|f| - 1 - 2] <= 900;
    }
  }

  lemma NewAccountRowIsEarned(log: seq<Attempt>, admin: string)
    requires Admissible(log, admin) && log != []
    requires AccountSubject(admin) in LocksAfter(log, admin)
    requires AccountSubject(admin) !in LocksAfter(log[..|log| - 1], admin)
    ensures FiveFailures(log, admin)
  {
    var last := log[|log| - 1];
    SubjectsNeverMeet(last.ip, last.ip, admin);
    if !last.ok && last.username == admin {
      AccountWindowFullIff(log, admin);
      var g := NameFailures(log, admin);
      assert g[|g| - 1] - g[|g| - 1 - 4] <= 3600;
    }
  }

  /**
   * No lock without its failures: an address has a lock row only if three of its
   * failures came within 900 seconds, and the account only if five naming the
   * administrator came within an hour.
   */
  lemma {:induction false} LocksHaveFailuresBehind(log: seq<Attempt>, ip: string, admin: string)
    requires Admissible(log, admin)
    ensures IpSubject(ip) in LocksAfter(log, admin) ==> ThreeFailures(log, ip)
    ensures AccountSubject(admin) in LocksAfter(log, admin) ==> FiveFailures(log, admin)
  {
    if log != [] {
      LocksHaveFailuresBehind(log[..|log| - 1], ip, admin);
      FailuresStay(log, ip, admin);
      if IpSubject(ip) in LocksAfter(log, admin) && IpSubject(ip) !in LocksAfter(log[..|log| - 1], admin) {
        NewAddressRowIsEarned(log, ip, admin);
      }
      if AccountSubject(admin) in LocksAfter(log, admin)
         && AccountSubject(admin) !in LocksAfter(log[..|log| - 1], admin) {
        NewAccountRowIsEarned(log, admin);
      }
    }
  }

  /**
   * So the administrator gets in at any time with the right factors, as long as at
   * most two failures of the address and four naming the account came before.
   */
  lemma FewFailuresLetIn(log: seq<Attempt>, p: Presented, ip: string, admin: string, now: int)
    requires Admissible(log, admin)
    requires |IpFailures(log, ip)| <= 2 && |NameFailures(log, admin)| <= 4
    requires p.username == admin && p.passwordOk && (p.secondFactorOn ==> p.codeGiven && p.codeOk)
    ensures LetIn(true, LocksAfter(log, admin), p, ip, admin, now)
  {
    LocksHaveFailuresBehind(log, ip, admin);
  }

  // ------------------------------------------------------------ the account bound

  function LastAt(log: seq<Attempt>): int
    requires log != []
  {
    log[|log| - 1].at
  }

  lemma {:induction false} NameFailuresAreSorted(log: seq<Attempt>, admin: string, username: string)
    requires Admissible(log, admin)
    ensures Sorted(NameFailures(log, username))
    ensures log != [] ==> forall t :: t in NameFailures(log, username) ==> t <= LastAt(log)
  {
    if log != [] {
      NameFailuresAreSorted(log[..|log| - 1], admin, username);
      var init := NameFailures(log[..|log| - 1], username);
      assert forall i :: 0 <= i < |init| ==> init[i] in init;
    }
  }

  /** After five failures within an hour the account is locked until an hour past the fifth. */
  ghost predicate AccountHeld(log: seq<Attempt>, admin: string) {
    var times := NameFailures(log, admin); var n := |times|;
    n >= 5 && times[n - 1] - times[n - 5] <= 3600 ==>
      || LastAt(log) >= times[n - 1] + 3600
      || (AccountSubject(admin) in LocksAfter(log, admin)
          && LocksAfter(log, admin)[AccountSubject(admin)].until >= times[n - 1] + 3600)
  }

  lemma FifthFailureLocks(log: seq<Attempt>, admin: string)
    requires log != [] && Admissible(log, admin)
    requires !log[|log| - 1].ok && log[|log| - 1].username == admin
    ensures AccountHeld(log, admin)
  {
    var times := NameFailures(log, admin);
    var n := |times|;
    NameFailuresAreSorted(log, admin, admin);
    assert times[n - 1] == LastAt(log);
    if n >= 5 && times[n - 1] - times[n - 5] <= 3600 {
      forall i | n - 5 <= i < n
        ensures times[i] >= LastAt(log) - 3600
      {
        assert times[n - 5] <= times[i];
      }
      LateTimesAreCounted(times, LastAt(log) - 3600, 5);
      assert AccountWindowFull(log, admin, LastAt(log));
    }
  }

  lemma OtherAttemptsKeepTheHold(log: seq<Attempt>, admin: string)
    requires log != [] && Admissible(log, admin) && AccountHeld(log[..|log| - 1], admin)
    requires log[|log| - 1].ok || log[|log| - 1].username != admin
    ensures AccountHeld(log, admin)
  {
    var init, last := log[..|log| - 1], log[|log| - 1];
    SubjectsNeverMeet(last.ip, last.ip, admin);
    assert NameFailures(log, admin) == NameFailures(init, admin);
    if init != [] {
      assert LastAt(init) <= LastAt(log);
    } else {
      assert NameFailures(init, admin) == [];
    }
  }

  /** Any six failures naming the administrator in a row span at least an hour. */
  lemma {:induction false} AccountFailuresAreSpread(log: seq<Attempt>, admin: string)
    requires Admissible(log, admin)
    ensures Spread(NameFailures(log, admin), 5, 3600)
    ensures AccountHeld(log, admin)
  {
    if log != [] {
      var init, last := log[..|log| - 1], log[|log| - 1];
      AccountFailuresAreSpread(init, admin);
      if last.ok || last.username != admin {
        assert NameFailures(log, admin) == NameFailures(init, admin);
        OtherAttemptsKeepTheHold(log, admin);
      } else {
        FifthFailureLocks(log, admin);
        SixthWaits(init, last, admin);
        var times := NameFailures(init, admin);
        assert NameFailures(log, admin) == times + [last.at];
      }
    }
  }

  lemma SixthWaits(init: seq<Attempt>, last: Attempt, admin: string)
    requires Admissible(init, admin) && AccountHeld(init, admin)
    requires init != [] ==> LastAt(init) <= last.at
    requires !Refused(LocksAfter(init, admin), last.ip, admin, last.at)
    ensures var times := NameFailures(init, admin);
            |times| >= 5 ==> last.at - times[|times| - 5] >= 3600
  {
    var times := NameFailures(init, admin);
    var n := |times|;
    if n >= 5 {
      NameFailuresAreSorted(init, admin, admin);
      assert init != [];
      assert times[n - 1] in times;
      assert times[n - 5] <= times[n - 1] <= LastAt(init);
    }
  }

  /**
   * In any half-open hour at most five failures naming the administrator are ever
   * counted, whatever else happens between; so over any span at most five for
   * each hour begun.
   */
  lemma AtMostFiveAccountFailuresAnHour(log: seq<Attempt>, admin: string, from: int, span: nat, hours: nat)
    requires Admissible(log, admin) && span <= hours * 3600
    ensures CountIn(NameFailures(log, admin), from, from + 3600) <= 5
    ensures CountIn(NameFailures(log, admin), from, from + span) <= 5 * hours
  {
    AccountFailuresAreSpread(log, admin);
    NameFailuresAreSorted(log, admin, admin);
    FiveAnHour(NameFailures(log, admin), from, span, hours);
  }

  lemma FiveAnHour(times: seq<int>, from: int, span: nat, hours: nat)
    requires Sorted(times) && Spread(times, 5, 3600) && span <= hours * 3600
    ensures CountIn(times, from, from + 3600) <= 5
    ensures CountIn(times, from, from + span) <= 5 * hours
  {
    CountGrowsWithWindow(times, from, from + span, from + hours * 3600);
    SpreadBoundsTheWindow(times, 5, 3600, from);
    SpreadBoundsTheSpan(times, 5, 3600, from, hours);
  }

  // ------------------------------------------------------------ the address bound

  /** A counted failure of one address and the level its lock row had afterwards. */
  datatype Mark = Mark(at: int, level: int)

  function Trail(log: seq<Attempt>, from: nat, ip: string, admin: string): seq<Mark> {
    if |log| <= from then []
    else
      var last := log[|log| - 1];
      Trail(log[..|log| - 1], from, ip, admin)
      + (if !last.ok && last.ip == ip
         then [Mark(last.at, LastLevel(LocksAfter(log, admin), IpSubject(ip)))] else [])
  }

  ghost predicate NoSuccess(log: seq<Attempt>, from: nat, ip: string) {
    forall i :: from <= i < |log| ==> !(log[i].ok && log[i].ip == ip)
  }

  function Times(marks: seq<Mark>): seq<int> {
    if marks == [] then [] else Times(marks[..|marks| - 1]) + [marks[|marks| - 1].at]
  }

  lemma {:induction false} TimesAt(marks: seq<Mark>)
    ensures |Times(marks)| == |marks|
    ensures forall i :: 0 <= i < |marks| ==> Times(marks)[i] == marks[i].at
  {
    if marks != [] {
      TimesAt(marks[..|marks| - 1]);
    }
  }

  /** The third failure within the window, counting back from mark i. */
  ghost predicate Third(marks: seq<Mark>, i: int) {
    2 <= i < |marks| && marks[i].at - marks[i - 2].at <= 900
  }

  function Rung(level: int): int
    requires 1 <= level <= 5
  {
    IP_LADDER[level - 1]
  }

  ghost predicate Ordered(marks: seq<Mark>) {
    && (forall i :: 0 <= i < |marks| ==> 0 <= marks[i].level <= 5)
    && (forall i :: 0 < i < |marks| ==> marks[i - 1].at <= marks[i].at && marks[i - 1].level <= marks[i].level)
  }

  /** A full window lifts the level, and the next failure waits out the rung reached. */
  ghost predicate Lifted(marks: seq<Mark>, i: int)
    requires Third(marks, i)
  {
    && marks[i].level >= Min(marks[i - 1].level + 1, 5)
    && marks[i].level >= 1
    && (i + 1 < |marks| ==> marks[i + 1].at >= marks[i].at + Rung(Min(Max(1, marks[i].level), 5)))
  }

  ghost predicate Lifts(marks: seq<Mark>) {
    forall i :: Third(marks, i) ==> Lifted(marks, i)
  }

  ghost predicate Climbs(marks: seq<Mark>) {
    Ordered(marks) && Lifts(marks)
  }

  /** The lock row of the address agrees with the end of its trail. */
  ghost predicate RowAgrees(log: seq<Attempt>, from: nat, ip: string, admin: string) {
    var marks := Trail(log, from, ip, admin); var n := |marks|;
    var locks := LocksAfter(log, admin);
    && 0 <= LastLevel(locks, IpSubject(ip)) <= 5
    && (n > 0 ==> log != [] && marks[n - 1].at <= LastAt(log) && marks[n - 1].level == LastLevel(locks, IpSubject(ip)))
    && (Third(marks, n - 1) ==>
          && IpSubject(ip) in locks
          && locks[IpSubject(ip)].level >= 1
          && locks[IpSubject(ip)].until == marks[n - 1].at + Rung(locks[IpSubject(ip)].level))
  }

  lemma {:induction false} LevelsStayOnTheLadder(log: seq<Attempt>, ip: string, admin: string)
    ensures 0 <= LastLevel(LocksAfter(log, admin), IpSubject(ip)) <= 5
  {
    if log != [] {
      var last := log[|log| - 1];
      LevelsStayOnTheLadder(log[..|log| - 1], ip, admin);
      SubjectsNeverMeet(ip, last.ip, admin);
    }
  }

  /** Attempts that are not this address's failures or successes leave its lock row alone. */
  lemma OthersLeaveTheRow(log: seq<Attempt>, ip: string, admin: string)
    requires log != [] && log[|log| - 1].ip != ip
    ensures var before, after := LocksAfter(log[..|log| - 1], admin), LocksAfter(log, admin);
            && (IpSubject(ip) in after <==> IpSubject(ip) in before)
            && (IpSubject(ip) in before ==> after[IpSubject(ip)] == before[IpSubject(ip)])
  {
    SubjectsNeverMeet(ip, log[|log| - 1].ip, admin);
  }

  /** The failures of a trail are counted among all of the address's failures. */
  lemma {:induction false} TrailIsCounted(log: seq<Attempt>, from: nat, ip: string, admin: string, since: int)
    ensures CountSince(Times(Trail(log, from, ip, admin)), since) <= CountSince(IpFailures(log, ip), since)
  {
    if |log| > from {
      var init, last := log[..|log| - 1], log[|log| - 1];
      TrailIsCounted(init, from, ip, admin, since);
      if !last.ok && last.ip == ip {
        var marks := Trail(init, from, ip, admin);
        assert Trail(log, from, ip, admin)[..|marks|] == marks;
        OneMore(Times(marks), last.at, since);
        OneMore(IpFailures(init, ip), last.at, since);
      } else {
        assert IpFailures(log, ip) == IpFailures(init, ip);
        assert Trail(log, from, ip, admin) == Trail(init, from, ip, admin);
      }
    }
  }

  lemma {:induction false} WholeTrail(log: seq<Attempt>, ip: string, admin: string)
    ensures Times(Trail(log, 0, ip, admin)) == IpFailures(log, ip)
  {
    if log != [] {
      var init, last := log[..|log| - 1], log[|log| - 1];
      WholeTrail(init, ip, admin);
      var marks := Trail(init, 0, ip, admin);
      if !last.ok && last.ip == ip {
        assert Trail(log, 0, ip, admin)[..|marks|] == marks;
      } else {
        assert IpFailures(log, ip) == IpFailures(init, ip);
        assert Trail(log, 0, ip, admin) == marks;
      }
    }
  }

  /** This address's own failure: what happens to its lock row. */
  lemma OwnFailure(log: seq<Attempt>, ip: string, admin: string)
    requires log != [] && log[|log| - 1].ip == ip && !log[|log| - 1].ok
    ensures var before, after := LocksAfter(log[..|log| - 1], admin), LocksAfter(log, admin);
            var level := LastLevel(before, IpSubject(ip));
            if IpWindowFull(log, ip, LastAt(log))
            then IpSubject(ip) in after
                 && after[IpSubject(ip)] == NextLockout(IpSubject(ip), level, LastAt(log), IP_LADDER)
            else LastLevel(after, IpSubject(ip)) == level
  {
    SubjectsNeverMeet(ip, ip, admin);
  }

  lemma ThirdFillsTheWindow(log: seq<Attempt>, from: nat, ip: string, admin: string, marks: seq<Mark>)
    requires log != [] && marks == Trail(log, from, ip, admin)
    requires Third(marks, |marks| - 1) && marks[|marks| - 1].at == LastAt(log)
    requires marks[|marks| - 3].at <= marks[|marks| - 2].at <= LastAt(log)
    ensures IpWindowFull(log, ip, LastAt(log))
  {
    TimesAt(marks);
    LateTimesAreCounted(Times(marks), LastAt(log) - 900, 3);
    TrailIsCounted(log, from, ip, admin, LastAt(log) - 900);
  }

  /** A mark that comes late enough and is lifted enough continues a climb. */
  lemma MarkContinuesTheClimb(marks: seq<Mark>, m: Mark)
    requires Climbs(marks) && 0 <= m.level <= 5
    requires var n := |marks|;
             && (n > 0 ==> marks[n - 1].at <= m.at && marks[n - 1].level <= m.level)
             && (Third(marks + [m], n) ==> m.level >= 1 && m.level >= Min(marks[n - 1].level + 1, 5))
             && (Third(marks, n - 1) ==> m.at >= marks[n - 1].at + Rung(Min(Max(1, marks[n - 1].level), 5)))
    ensures Climbs(marks + [m])
  {
    var marks', n := marks + [m], |marks|;
    forall i | Third(marks', i)
      ensures Lifted(marks', i)
    {
      if i < n {
        MarkSettlesTheOneBefore(marks, m, i);
      }
    }
    assert Ordered(marks');
  }

  lemma MarkSettlesTheOneBefore(marks: seq<Mark>, m: Mark, i: int)
    requires Third(marks, i) && Lifted(marks, i)
    requires i == |marks| - 1 ==> m.at >= marks[i].at + Rung(Min(Max(1, marks[i].level), 5))
    ensures Third(marks + [m], i) && Lifted(marks + [m], i)
  {
    var marks' := marks + [m];
    assert marks'[i] == marks[i] && marks'[i - 1] == marks[i - 1] && marks'[i - 2] == marks[i - 2];
    assert i + 1 < |marks| ==> marks'[i + 1] == marks[i + 1];
  }

  /** The level a failure leaves behind: lifted by one when its window is full. */
  lemma OwnFailureLifts(log: seq<Attempt>, ip: string, admin: string)
    requires log != [] && log[|log| - 1].ip == ip && !log[|log| - 1].ok
    ensures var before, after := LocksAfter(log[..|log| - 1], admin), LocksAfter(log, admin);
            var level, level' := LastLevel(before, IpSubject(ip)), LastLevel(after, IpSubject(ip));
            && level <= level' <= 5
            && (IpWindowFull(log, ip, LastAt(log)) ==>
                  && IpSubject(ip) in after
                  && level' == Min(level + 1, 5)
                  && after[IpSubject(ip)].until == LastAt(log) + Rung(level'))
  {
    LevelsStayOnTheLadder(log[..|log| - 1], ip, admin);
    OwnFailure(log, ip, admin);
  }

  /** An attempt of the address was let through, so any rung its last mark reached has been waited out. */
  lemma AttemptWaited(log: seq<Attempt>, from: nat, ip: string, admin: string)
    requires Admissible(log, admin) && log != [] && log[|log| - 1].ip == ip
    requires RowAgrees(log[..|log| - 1], from, ip, admin)
    ensures var init := log[..|log| - 1];
            var marks := Trail(init, from, ip, admin); var n := |marks|;
            n > 0 ==>
              && marks[n - 1].at <= LastAt(log)
              && marks[n - 1].level == LastLevel(LocksAfter(init, admin), IpSubject(ip))
              && (Third(marks, n - 1) ==>
                    LastAt(log) >= marks[n - 1].at + Rung(Min(Max(1, marks[n - 1].level), 5)))
  {
    assert ActiveLock(LocksAfter(log[..|log| - 1], admin), IpSubject(ip), LastAt(log)).None?;
  }

  lemma OwnFailureExtends(log: seq<Attempt>, from: nat, ip: string, admin: string, m: Mark)
    requires from < |log| && log[|log| - 1].ip == ip && !log[|log| - 1].ok
    requires m == Mark(LastAt(log), LastLevel(LocksAfter(log, admin), IpSubject(ip)))
    ensures Trail(log, from, ip, admin) == Trail(log[..|log| - 1], from, ip, admin) + [m]
  {}

  /** A failure of the address appends a mark that keeps the climb. */
  lemma OwnFailureClimbs(log: seq<Attempt>, from: nat, ip: string, admin: string)
    requires Admissible(log, admin) && from < |log|
    requires log[|log| - 1].ip == ip && !log[|log| - 1].ok
    requires Climbs(Trail(log[..|log| - 1], from, ip, admin))
    requires RowAgrees(log[..|log| - 1], from, ip, admin)
    ensures Climbs(Trail(log, from, ip, admin)) && RowAgrees(log, from, ip, admin)
  {
    var marks := Trail(log[..|log| - 1], from, ip, admin);
    var m := Mark(LastAt(log), LastLevel(LocksAfter(log, admin), IpSubject(ip)));
    OwnFailureExtends(log, from, ip, admin, m);
    AttemptWaited(log, from, ip, admin);
    OwnFailureLifts(log, ip, admin);
    if Third(marks + [m], |marks|) {
      ThirdFillsTheWindow(log, from, ip, admin, marks + [m]);
    }
    MarkContinuesTheClimb(marks, m);
  }

  /** Any other attempt leaves trail and row as they are. */
  lemma OtherAttemptKeepsTheTrail(log: seq<Attempt>, from: nat, ip: string, admin: string)
    requires Admissible(log, admin) && from < |log| && log[|log| - 1].ip != ip
    requires RowAgrees(log[..|log| - 1], from, ip, admin)
    ensures Trail(log, from, ip, admin) == Trail(log[..|log| - 1], from, ip, admin)
    ensures RowAgrees(log, from, ip, admin)
  {
    OthersLeaveTheRow(log, ip, admin);
    LevelsStayOnTheLadder(log, ip, admin);
    assert Trail(log, from, ip, admin) == Trail(log[..|log| - 1], from, ip, admin);
  }

  lemma {:induction false} TrailClimbs(log: seq<Attempt>, from: nat, ip: string, admin: string)
    requires Admissible(log, admin) && NoSuccess(log, from, ip)
    ensures Climbs(Trail(log, from, ip, admin)) && RowAgrees(log, from, ip, admin)
  {
    if |log| <= from {
      LevelsStayOnTheLadder(log, ip, admin);
      assert Trail(log, from, ip, admin) == [];
    } else {
      var init, last := log[..|log| - 1], log[|log| - 1];
      assert NoSuccess(init, from, ip) && Admissible(init, admin);
      TrailClimbs(init, from, ip, admin);
      if last.ip == ip {
        OwnFailureClimbs(log, from, ip, admin);
      } else {
        OtherAttemptKeepsTheTrail(log, from, ip, admin);
      }
    }
  }

  /** Seven marks in a row: either some window of three is open, or four waits add up to 900 seconds. */
  lemma SevenMarksTakeFifteenMinutes(marks: seq<Mark>, i: nat)
    requires Climbs(marks) && i + 6 < |marks|
    ensures marks[i + 6].at - marks[i].at >= 900
  {
    assert marks[i].at <= marks[i + 1].at <= marks[i + 2].at <= marks[i + 3].at;
    assert marks[i + 3].at <= marks[i + 4].at <= marks[i + 5].at <= marks[i + 6].at;
    if marks[i + 5].at - marks[i].at < 900 {
      assert Third(marks, i + 2) && Third(marks, i + 3) && Third(marks, i + 4) && Third(marks, i + 5);
      assert marks[i + 3].at >= marks[i + 2].at + 60;
      assert marks[i + 3].level >= 2 && marks[i + 4].at >= marks[i + 3].at + 120;
      assert marks[i + 4].level >= 3 && marks[i + 5].at >= marks[i + 4].at + 240;
      assert marks[i + 5].level >= 4 && marks[i + 6].at >= marks[i + 5].at + 480;
    }
  }

  /**
   * While an address has no successful login, at most six of its failures are
   * counted in any half-open quarter of an hour.
   */
  lemma AtMostSixAddressFailures(log: seq<Attempt>, from: nat, ip: string, admin: string, start: int)
    requires Admissible(log, admin) && from <= |log| && NoSuccess(log, from, ip)
    ensures CountIn(Times(Trail(log, from, ip, admin)), start, start + 900) <= 6
    ensures from == 0 ==> CountIn(IpFailures(log, ip), start, start + 900) <= 6
  {
    var marks := Trail(log, from, ip, admin);
    TrailClimbs(log, from, ip, admin);
    ClimbBoundsTheWindow(marks, start);
    if from == 0 {
      WholeTrail(log, ip, admin);
    }
  }

  lemma ClimbIsSpread(marks: seq<Mark>)
    requires Climbs(marks)
    ensures Spread(Times(marks), 6, 900) && Sorted(Times(marks))
  {
    TimesAt(marks);
    forall i | 0 <= i < |Times(marks)| - 6
      ensures Times(marks)[i + 6] - Times(marks)[i] >= 900
    {
      SevenMarksTakeFifteenMinutes(marks, i);
    }
    StepwiseIsSorted(Times(marks));
  }

  lemma {:induction false} StepwiseIsSorted(times: seq<int>)
    requires forall i :: 0 < i < |times| ==> times[i - 1] <= times[i]
    ensures Sorted(times)
  {
    if |times| > 1 {
      var init := times[..|times| - 1];
      StepwiseIsSorted(init);
      assert times[|times| - 2] <= times[|times| - 1];
      forall i | 0 <= i < |times|
        ensures times[i] <= times[|times| - 1]
      {
        if i < |times| - 1 {
          assert init[i] <= init[|init| - 1];
        }
      }
    }
  }

  lemma ClimbBoundsTheWindow(marks: seq<Mark>, start: int)
    requires Climbs(marks)
    ensures CountIn(Times(marks), start, start + 900) <= 6
  {
    ClimbIsSpread(marks);
    SpreadBoundsTheWindow(Times(marks), 6, 900, start);
  }
}

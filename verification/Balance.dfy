/**
 * Balance checks (Balance.kt over Ussd.kt): one USSD request at a time, each
 * settled by the first of its callbacks, whatever order they come in.
 */
module Balance {
  import opened Prelude

  /** What can call back for one request, at once or later; more than one of them may. */
  datatype Callback =
    | NotSent(reason: string)
    | TimedOut
    | Answered(text: string)
    | Refused(code: int)
    | SendFailed

  datatype Entry = Entry(sub: int, outcome: Callback)

  /** A refresh in progress: requests issued, which of them settled, results, and calls of onDone. */
  datatype Refresh = Refresh(subs: seq<int>, settled: seq<bool>, results: seq<Entry>, done: seq<seq<Entry>>)

  function NextRunAt(lastAt: int, intervalMs: int, now: int): int {
    if lastAt <= 0 then now else lastAt + intervalMs
  }

  predicate Due(lastAt: int, intervalMs: int, now: int) {
    NextRunAt(lastAt, intervalMs, now) <= now
  }

  function LastRead(readAt: map<int, int>, sub: int): int {
    if sub in readAt then readAt[sub] else 0
  }

  /** The SIMs a refresh asks: none without a code, all when forced, otherwise those that are due. */
  function SimsToAsk(codeBlank: bool, force: bool, active: seq<int>, readAt: map<int, int>, intervalMs: int, now: int): seq<int> {
    if codeBlank || active == [] then []
    else
      var sub := active[|active| - 1];
      SimsToAsk(codeBlank, force, active[..|active| - 1], readAt, intervalMs, now)
      + (if force || Due(LastRead(readAt, sub), intervalMs, now) then [sub] else [])
  }

  /** A SIM is asked exactly if it is present, a code is set, and it is forced, never read, or read an interval ago. */
  lemma {:induction false} AskedIff(
    codeBlank: bool, force: bool, active: seq<int>, readAt: map<int, int>, intervalMs: int, now: int, sub: int)
    ensures sub in SimsToAsk(codeBlank, force, active, readAt, intervalMs, now) <==>
            !codeBlank && sub in active
            && (force || sub !in readAt || readAt[sub] <= 0 || readAt[sub] + intervalMs <= now)
  {
    if !codeBlank && active != [] {
      AskedIff(codeBlank, force, active[..|active| - 1], readAt, intervalMs, now, sub);
      assert active == active[..|active| - 1] + [active[|active| - 1]];
    }
  }

  /** `ask(index)`: issue the next request, or finish. */
  function Asked(r: Refresh, index: nat): Refresh {
    if index >= |r.subs| then r.(done := r.done + [r.results]) else r.(settled := r.settled + [false])
  }

  function Started(subs: seq<int>): Refresh {
    if subs == [] then Refresh(subs, [], [], [[]]) else Asked(Refresh(subs, [], [], []), 0)
  }

  /** A callback of request `i`: the first one settles it and asks on, the others do nothing. */
  function OnCallback(r: Refresh, i: nat, c: Callback): Refresh {
    if i >= |r.settled| || i >= |r.subs| || r.settled[i] then r
    else Asked(r.(settled := r.settled[i := true], results := r.results + [Entry(r.subs[i], c)]), i + 1)
  }

  datatype Event = Event(request: nat, callback: Callback)

  function Run(subs: seq<int>, events: seq<Event>): Refresh {
    if events == [] then Started(subs)
    else
      var last := events[|events| - 1];
      OnCallback(Run(subs, events[..|events| - 1]), last.request, last.callback)
  }

  class Refresher {
    const subs: seq<int>
    var settled: seq<bool>
    var results: seq<Entry>
    var done: seq<seq<Entry>>

    function Now(): Refresh
      reads this
    {
      Refresh(subs, settled, results, done)
    }

    constructor (subs: seq<int>)
      ensures Now() == Started(subs)
    {
      this.subs := subs;
      results := [];
      settled := if subs == [] then [] else [false];
      done := if subs == [] then [[]] else [];
    }

    method Ask(index: nat)
      modifies this`settled, this`done
      ensures Now() == Asked(old(Now()), index)
    {
      if index >= |subs| {
        done := done + [results];
        return;
      }
      settled := settled + [false];
    }

    method Callback(i: nat, c: Callback)
      modifies this
      ensures Now() == OnCallback(old(Now()), i, c)
    {
      if i >= |settled| || i >= |subs| || settled[i] {
        return;
      }
      settled := settled[i := true];
      results := results + [Entry(subs[i], c)];
      Ask(i + 1);
    }
  }

  /** All issued requests but the newest have settled; the newest has not, until all are done. */
  ghost predicate OneAtATime(r: Refresh) {
    && |r.results| <= |r.settled| <= |r.subs|
    && (forall i :: 0 <= i < |r.settled| ==> (r.settled[i] <==> i < |r.results|))
    && |r.settled| == Min(|r.results| + 1, |r.subs|)
    && (forall i :: 0 <= i < |r.results| ==> r.results[i].sub == r.subs[i])
    && r.done == if |r.results| == |r.subs| then [r.results] else []
  }

  /**
   * However callbacks come, late and repeated ones included: at most one request
   * is unsettled, there is one entry per SIM asked, in order, and `onDone` is
   * called exactly once, with all of them, when and only when every SIM has one.
   */
  lemma {:induction false} OneEntryPerSim(subs: seq<int>, events: seq<Event>)
    ensures Run(subs, events).subs == subs
    ensures OneAtATime(Run(subs, events))
  {
    if events != [] {
      OneEntryPerSim(subs, events[..|events| - 1]);
      var r, last := Run(subs, events[..|events| - 1]), events[|events| - 1];
      var r' := OnCallback(r, last.request, last.callback);
      if r' != r {
        assert last.request == |r.results|;
      }
    }
  }

  /** A result, once there, and the call of `onDone`, once made, are not touched by any later callback. */
  lemma {:induction false} ResultsNeverChange(subs: seq<int>, events: seq<Event>, more: seq<Event>)
    ensures Run(subs, events).results <= Run(subs, events + more).results
    ensures Run(subs, events).done <= Run(subs, events + more).done
  {
    if more == [] {
      assert events + more == events;
    } else {
      ResultsNeverChange(subs, events, more[..|more| - 1]);
      assert (events + more)[..|events + more| - 1] == events + more[..|more| - 1];
    }
  }

  /** Any callback of the request now waiting brings the refresh one SIM on. */
  lemma WaitingRequestProgresses(subs: seq<int>, events: seq<Event>, c: Callback)
    ensures var r := Run(subs, events);
            r.done == [] ==>
              var r' := Run(subs, events + [Event(|r.results|, c)]);
              |r.results| < |subs| && r'.results == r.results + [Entry(subs[|r.results|], c)]
  {
    OneEntryPerSim(subs, events);
    var r := Run(subs, events);
    assert (events + [Event(|r.results|, c)])[..|events|] == events;
  }

  /** The timeouts of the requests from one on, each when it is the one waiting. */
  function Timeouts(from: nat, count: nat): seq<Event> {
    if count == 0 then [] else Timeouts(from, count - 1) + [Event(from + count - 1, TimedOut)]
  }

  function TimedOutEntries(subs: seq<int>, from: nat, count: nat): (entries: seq<Entry>)
    requires from + count <= |subs|
    ensures |entries| == count
    ensures forall i :: 0 <= i < count ==> entries[i] == Entry(subs[from + i], TimedOut)
  {
    if count == 0 then [] else TimedOutEntries(subs, from, count - 1) + [Entry(subs[from + count - 1], TimedOut)]
  }

  lemma OneTimeout(subs: seq<int>, events: seq<Event>, n: nat)
    requires |Run(subs, events).results| == n < |subs|
    ensures Run(subs, events + [Event(n, TimedOut)]).results
            == Run(subs, events).results + [Entry(subs[n], TimedOut)]
  {
    OneEntryPerSim(subs, events);
    WaitingRequestProgresses(subs, events, TimedOut);
  }

  lemma {:induction false} TimeoutsAdvance(subs: seq<int>, events: seq<Event>, from: nat, count: nat)
    requires |Run(subs, events).results| == from && from + count <= |subs|
    ensures Run(subs, events + Timeouts(from, count)).results
            == Run(subs, events).results + TimedOutEntries(subs, from, count)
  {
    if count == 0 {
      assert events + Timeouts(from, 0) == events;
    } else {
      TimeoutsAdvance(subs, events, from, count - 1);
      var last := Event(from + count - 1, TimedOut);
      OneTimeout(subs, events + Timeouts(from, count - 1), from + count - 1);
      JoinsAssociate(events, Timeouts(from, count - 1), [last]);
      JoinsAssociate(Run(subs, events).results, TimedOutEntries(subs, from, count - 1),
                     [Entry(subs[from + count - 1], TimedOut)]);
    }
  }

  lemma JoinsAssociate<T>(a: seq<T>, b: seq<T>, c: seq<T>)
    ensures a + (b + c) == (a + b) + c
  {}

  /**
   * Timeouts alone finish a refresh, wherever it stands: once each remaining
   * request has timed out, `onDone` has been called, once, with what there was and
   * a timeout for every remaining SIM.
   */
  lemma TimeoutsFinish(subs: seq<int>, events: seq<Event>)
    ensures var before := Run(subs, events).results;
            && |before| <= |subs|
            && Run(subs, events + Timeouts(|before|, |subs| - |before|)).done
               == [before + TimedOutEntries(subs, |before|, |subs| - |before|)]
  {
    OneEntryPerSim(subs, events);
    var before := Run(subs, events).results;
    var all := events + Timeouts(|before|, |subs| - |before|);
    TimeoutsAdvance(subs, events, |before|, |subs| - |before|);
    OneEntryPerSim(subs, all);
  }
}

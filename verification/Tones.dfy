/** Queued keypad tones (`dtmf` in CallControl.kt). */
module Tones {
  import opened Prelude

  const TONE_MS := 150
  const GAP_MS := 100
  const MAX_DTMF_DIGITS := 32

  predicate IsDtmfDigits(digits: string) {
    && digits != ""
    && |digits| <= MAX_DTMF_DIGITS
    && forall i :: 0 <= i < |digits| ==> '0' <= digits[i] <= '9' || digits[i] == '*' || digits[i] == '#'
  }

  datatype Tone = Tone(key: char, start: int, stop: int)

  datatype Status = Sent(digits: nat) | InvalidDigits | NoCall

  datatype Request = Request(digits: string, callActive: bool, uptime: int)

  function Posted(digits: string, start: int): seq<Tone> {
    seq(|digits|, i requires 0 <= i < |digits| =>
      Tone(digits[i], start + i * (TONE_MS + GAP_MS), start + i * (TONE_MS + GAP_MS) + TONE_MS))
  }

  datatype State = State(freeAt: int, tones: seq<Tone>)

  predicate Accepted(r: Request) {
    IsDtmfDigits(r.digits) && r.callActive
  }

  function Next(s: State, r: Request): State {
    if !Accepted(r) then s
    else
      var start := Max(r.uptime, s.freeAt);
      State(start + |r.digits| * (TONE_MS + GAP_MS), s.tones + Posted(r.digits, start))
  }

  function Run(requests: seq<Request>): State {
    if requests == [] then State(0, []) else Next(Run(requests[..|requests| - 1]), requests[|requests| - 1])
  }

  class Keypad {
    var dtmfFreeAt: int
    var tones: seq<Tone>

    function Now(): State
      reads this
    {
      State(dtmfFreeAt, tones)
    }

    constructor ()
      ensures Now() == Run([])
    {
      dtmfFreeAt, tones := 0, [];
    }

    method Dtmf(r: Request) returns (status: Status)
      modifies this
      ensures Now() == Next(old(Now()), r)
      ensures status.Sent? <==> Accepted(r)
      ensures status.Sent? ==> status.digits == |r.digits|
    {
      if !IsDtmfDigits(r.digits) {
        return InvalidDigits;
      }
      if !r.callActive {
        return NoCall;
      }
      var start := Max(r.uptime, dtmfFreeAt);
      for i := 0 to |r.digits|
        invariant dtmfFreeAt == old(dtmfFreeAt)
        invariant tones == old(tones) + Posted(r.digits, start)[..i]
      {
        var at := start + i * (TONE_MS + GAP_MS);
        tones := tones + [Tone(r.digits[i], at, at + TONE_MS)];
      }
      dtmfFreeAt := start + |r.digits| * (TONE_MS + GAP_MS);
      status := Sent(|r.digits|);
    }
  }

  /** Tones that play whole, in order, a gap apart, all over by the time the queue is free. */
  ghost predicate InOrder(s: State) {
    && (forall i :: 0 <= i < |s.tones| ==>
          s.tones[i].stop == s.tones[i].start + 150 && s.tones[i].stop + 100 <= s.freeAt)
    && (forall i, j :: 0 <= i < j < |s.tones| ==> s.tones[i].stop + 100 <= s.tones[j].start)
    && s.freeAt == if s.tones == [] then 0 else s.tones[|s.tones| - 1].stop + 100
  }

  lemma PostedInOrder(digits: string, start: int)
    requires digits != ""
    ensures InOrder(State(start + |digits| * (TONE_MS + GAP_MS), Posted(digits, start)))
    ensures forall i :: 0 <= i < |digits| ==> Posted(digits, start)[i].start >= start
  {
    var tones := Posted(digits, start);
    forall i, j | 0 <= i < j < |tones|
      ensures tones[i].stop + GAP_MS <= tones[j].start
    {
      assert i * 250 + 250 <= j * 250;
    }
  }

  lemma JoinedInOrder(s: State, more: State, start: int)
    requires InOrder(s) && InOrder(more) && start >= s.freeAt && more.tones != []
    requires forall i :: 0 <= i < |more.tones| ==> more.tones[i].start >= start
    ensures InOrder(State(more.freeAt, s.tones + more.tones))
  {}

  function Pressed(requests: seq<Request>): string {
    if requests == [] then ""
    else
      var last := requests[|requests| - 1];
      Pressed(requests[..|requests| - 1]) + (if Accepted(last) then last.digits else "")
  }

  function Keys(tones: seq<Tone>): string {
    seq(|tones|, i requires 0 <= i < |tones| => tones[i].key)
  }

  lemma KeysJoin(tones: seq<Tone>, digits: string, start: int)
    ensures Keys(tones + Posted(digits, start)) == Keys(tones) + digits
  {}

  lemma {:induction false} RunInOrder(requests: seq<Request>)
    ensures InOrder(Run(requests))
  {
    if requests != [] {
      var s, last := Run(requests[..|requests| - 1]), requests[|requests| - 1];
      RunInOrder(requests[..|requests| - 1]);
      if Accepted(last) {
        var start := Max(last.uptime, s.freeAt);
        PostedInOrder(last.digits, start);
        JoinedInOrder(s, State(start + |last.digits| * 250, Posted(last.digits, start)), start);
      }
    }
  }

  lemma {:induction false} RunPresses(requests: seq<Request>)
    ensures Keys(Run(requests).tones) == Pressed(requests)
  {
    if requests != [] {
      var s, last := Run(requests[..|requests| - 1]), requests[|requests| - 1];
      RunPresses(requests[..|requests| - 1]);
      if Accepted(last) {
        KeysJoin(s.tones, last.digits, Max(last.uptime, s.freeAt));
      }
    }
  }

  /**
   * Whatever requests come and whenever, the tones never overlap, keep at least the
   * gap between them, and press exactly the accepted digits in order.
   */
  lemma TonesNeverOverlap(requests: seq<Request>)
    ensures InOrder(Run(requests))
    ensures Keys(Run(requests).tones) == Pressed(requests)
  {
    RunInOrder(requests);
    RunPresses(requests);
  }

  /** What is played: one to 32 of the digits, star and hash, during a call. */
  lemma AcceptedIff(r: Request)
    ensures Accepted(r) <==>
            && r.callActive && 1 <= |r.digits| <= 32
            && forall c :: c in r.digits ==> c in {'0', '1', '2', '3', '4', '5', '6', '7', '8', '9', '*', '#'}
  {
    if r.callActive && 1 <= |r.digits| <= 32
       && forall c :: c in r.digits ==> c in {'0', '1', '2', '3', '4', '5', '6', '7', '8', '9', '*', '#'} {
      forall i | 0 <= i < |r.digits|
        ensures '0' <= r.digits[i] <= '9' || r.digits[i] == '*' || r.digits[i] == '#'
      {
        assert r.digits[i] in r.digits;
      }
    }
  }

  /**
   * Tones are no later than they must be: the first of a request starts at once, or
   * the gap after the last one queued where that is later, and each next one 250
   * milliseconds after the one before.
   */
  lemma TonesStartPromptly(requests: seq<Request>, r: Request, i: nat)
    requires Accepted(r) && i < |r.digits|
    ensures var before, after := Run(requests).tones, Run(requests + [r]).tones;
            var free := if before == [] then 0 else before[|before| - 1].stop + 100;
            && |after| == |before| + |r.digits| && before <= after
            && after[|before| + i] == Tone(r.digits[i], Max(r.uptime, free) + i * 250, Max(r.uptime, free) + i * 250 + 150)
  {
    TonesNeverOverlap(requests);
    assert (requests + [r])[..|requests|] == requests;
  }
}

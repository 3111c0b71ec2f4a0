/** Phone numbers as Numbers.kt cleans them. */
module Numbers {
  import opened Prelude

  const MAX_DIGITS := 20

  predicate IsPunctuation(c: char) {
    c in {' ', '\U{00A0}', '-', '\U{2013}', '(', ')', '.', '/'}
  }

  /** The zeros of the decimal digits of every script, as far as one UTF-16 unit reaches. */
  const ZEROS: seq<int> := [
    0x0030, 0x0660, 0x06F0, 0x07C0, 0x0966, 0x09E6, 0x0A66, 0x0AE6, 0x0B66, 0x0BE6, 0x0C66, 0x0CE6, 0x0D66,
    0x0DE6, 0x0E50, 0x0ED0, 0x0F20, 0x1040, 0x1090, 0x17E0, 0x1810, 0x1946, 0x19D0, 0x1A80, 0x1A90, 0x1B50,
    0x1BB0, 0x1C40, 0x1C50, 0xA620, 0xA8D0, 0xA900, 0xA9D0, 0xA9F0, 0xAA50, 0xABF0, 0xFF10]

  predicate IsDigit(c: char) {
    exists zero :: zero in ZEROS && zero <= c as int < zero + 10
  }

  lemma LaterZerosAreFar(i: nat)
    requires 0 < i < |ZEROS|
    ensures ZEROS[i] >= 0x0660
  {}

  lemma FirstZeroIs(zero: int)
    requires zero in ZEROS && zero < 0x0660
    ensures zero == 0x0030
  {
    var i :| 0 <= i < |ZEROS| && ZEROS[i] == zero;
    if i > 0 {
      LaterZerosAreFar(i);
    }
  }

  lemma AsciiDigitIsDigit(c: char)
    requires '0' <= c <= '9'
    ensures IsDigit(c)
  {
    assert ZEROS[0] in ZEROS;
  }

  /** Before the Arabic ones, the ten digits of ASCII and nothing else. */
  lemma FirstDigitsAre(c: char)
    requires c as int < 0x0660
    ensures IsDigit(c) <==> '0' <= c <= '9'
  {
    if IsDigit(c) {
      var zero :| zero in ZEROS && zero <= c as int < zero + 10;
      FirstZeroIs(zero);
    }
    if '0' <= c <= '9' {
      AsciiDigitIsDigit(c);
    }
  }

  predicate IsWhitespace(c: char) {
    || '\U{0009}' <= c <= '\U{000D}'
    || '\U{001C}' <= c <= '\U{0020}'
    || c in {'\U{00A0}', '\U{1680}', '\U{2028}', '\U{2029}', '\U{202F}', '\U{205F}', '\U{3000}'}
    || '\U{2000}' <= c <= '\U{200A}'
  }

  lemma SpacesAre(c: char)
    ensures IsWhitespace(c) <==>
            c as int in {0x09, 0x0A, 0x0B, 0x0C, 0x0D, 0x1C, 0x1D, 0x1E, 0x1F, 0x20, 0xA0, 0x1680,
                         0x2000, 0x2001, 0x2002, 0x2003, 0x2004, 0x2005, 0x2006, 0x2007, 0x2008, 0x2009, 0x200A,
                         0x2028, 0x2029, 0x202F, 0x205F, 0x3000}
  {}

  function Trim(s: string): string {
    if s == "" then s
    else if IsWhitespace(s[0]) then Trim(s[1..])
    else if IsWhitespace(s[|s| - 1]) then Trim(s[..|s| - 1])
    else s
  }

  /** Strip the grouping characters; anything else but digits and a leading plus is refused. */
  function Clean(s: string): Option<string> {
    if s == "" then Some("")
    else
      var c := s[|s| - 1];
      match Clean(s[..|s| - 1])
      case None => None
      case Some(built) =>
        if IsPunctuation(c) then Some(built)
        else if (c == '+' && |s| == 1) || IsDigit(c) then Some(built + [c])
        else None
  }

  function Digits(s: string): nat {
    if s == "" then 0 else Digits(s[..|s| - 1]) + (if IsDigit(s[|s| - 1]) then 1 else 0)
  }

  function Sanitise(raw: string): Option<string> {
    match Clean(Trim(raw))
    case None => None
    case Some(cleaned) => if 1 <= Digits(cleaned) <= MAX_DIGITS then Some(cleaned) else None
  }

  /** What a usable number looks like: digits of any script, with at most a leading plus. */
  predicate Dialable(s: string) {
    && 1 <= Digits(s) <= MAX_DIGITS
    && forall i :: 0 <= i < |s| ==> IsDigit(s[i]) || (i == 0 && s[i] == '+')
  }

  method SanitiseNumber(raw: string) returns (r: Option<string>)
    ensures r == Sanitise(raw)
  {
    var trimmed := Trim(raw);
    if trimmed == "" {
      return None;
    }
    var built := "";
    for i := 0 to |trimmed|
      invariant Clean(trimmed[..i]) == Some(built)
    {
      var c := trimmed[i];
      assert trimmed[..i + 1][..i] == trimmed[..i];
      if IsPunctuation(c) {
        continue;
      } else if (c == '+' && i == 0) || IsDigit(c) {
        built := built + [c];
      } else {
        RefusedStaysRefused(trimmed, i + 1);
        return None;
      }
    }
    assert trimmed[..|trimmed|] == trimmed;
    var digits := Digits(built);
    r := if digits == 0 || digits > MAX_DIGITS then None else Some(built);
  }

  lemma {:induction false} RefusedStaysRefused(s: string, i: nat)
    requires i <= |s| && Clean(s[..i]).None?
    ensures Clean(s).None?
    decreases |s| - i
  {
    if i < |s| {
      assert s[..i + 1][..i] == s[..i];
      RefusedStaysRefused(s, i + 1);
    } else {
      assert s[..i] == s;
    }
  }

  lemma {:induction false} CleanedIsPlain(s: string)
    ensures Clean(s).Some? ==> forall i :: 0 <= i < |Clean(s).value| ==>
              IsDigit(Clean(s).value[i]) || (i == 0 && Clean(s).value[i] == '+')
    ensures Clean(s).Some? && s == "" ==> Clean(s).value == ""
  {
    if s != "" {
      CleanedIsPlain(s[..|s| - 1]);
    }
  }

  lemma DigitIsNoSpace(c: char)
    ensures IsDigit(c) ==> !IsWhitespace(c)
  {}

  lemma LetterIsNoDigit()
    ensures !IsDigit('u')
  {}

  lemma DigitIsNoPunctuation(c: char)
    ensures IsDigit(c) ==> !IsPunctuation(c)
  {}

  /** A last character that is a digit, or a plus standing alone, is kept. */
  lemma PlainLastIsKept(s: string)
    requires s != "" && (IsDigit(s[|s| - 1]) || (|s| == 1 && s[0] == '+'))
    requires Clean(s[..|s| - 1]).Some?
    ensures Clean(s) == Some(Clean(s[..|s| - 1]).value + [s[|s| - 1]])
  {
    DigitIsNoPunctuation(s[|s| - 1]);
  }

  lemma {:induction false} PlainIsClean(s: string)
    requires forall i :: 0 <= i < |s| ==> IsDigit(s[i]) || (i == 0 && s[i] == '+')
    ensures Clean(s) == Some(s)
  {
    if s != "" {
      PlainIsClean(s[..|s| - 1]);
      PlainLastIsKept(s);
      assert s == s[..|s| - 1] + [s[|s| - 1]];
    }
  }

  /** A cleaned number is dialable, and cleaning it again changes nothing. */
  lemma SanitisedIsDialable(raw: string)
    ensures Sanitise(raw).Some? ==>
              && Dialable(Sanitise(raw).value)
              && Sanitise(raw).value != ""
              && Sanitise(Sanitise(raw).value) == Sanitise(raw)
  {
    CleanedIsPlain(Trim(raw));
    if Sanitise(raw).Some? {
      var n := Sanitise(raw).value;
      PlainIsClean(n);
      assert n != "";
      DigitIsNoSpace(n[0]);
      DigitIsNoSpace(n[|n| - 1]);
    }
  }

  /** Written as a number is: digits, grouping characters, and at most a plus in front. */
  predicate Written(s: string) {
    forall i :: 0 <= i < |s| ==>
      || s[i] in {' ', '\U{00A0}', '-', '\U{2013}', '(', ')', '.', '/'}
      || IsDigit(s[i])
      || (i == 0 && s[i] == '+')
  }

  function Ungrouped(s: string): string {
    if s == "" then ""
    else Ungrouped(s[..|s| - 1]) + (if IsPunctuation(s[|s| - 1]) then "" else [s[|s| - 1]])
  }

  lemma OneMoreCharacter(s: string, c: char)
    ensures Written(s + [c]) <==> Written(s) && (IsPunctuation(c) || IsDigit(c) || (s == "" && c == '+'))
    ensures Digits(s + [c]) == Digits(s) + (if IsDigit(c) then 1 else 0)
    ensures Ungrouped(s + [c]) == Ungrouped(s) + (if IsPunctuation(c) then "" else [c])
  {
    var more := s + [c];
    assert more[..|s|] == s && more[|s|] == c;
    if Written(more) {
      forall i | 0 <= i < |s|
        ensures s[i] in {' ', '\U{00A0}', '-', '\U{2013}', '(', ')', '.', '/'} || IsDigit(s[i]) || (i == 0 && s[i] == '+')
      {
        assert more[i] == s[i];
      }
    }
  }

  lemma {:induction false} CleanIff(s: string)
    ensures Clean(s) == if Written(s) then Some(Ungrouped(s)) else None
    ensures Digits(Ungrouped(s)) == Digits(s)
  {
    if s != "" {
      var init, c := s[..|s| - 1], s[|s| - 1];
      assert s == init + [c];
      CleanIff(init);
      OneMoreCharacter(init, c);
      DigitIsNoPunctuation(c);
      if IsPunctuation(c) {
        assert Ungrouped(s) == Ungrouped(init);
      } else {
        OneMoreCharacter(Ungrouped(init), c);
      }
    }
  }

  lemma {:induction false} TrimmedEnds(s: string)
    ensures Trim(s) != "" ==> !IsWhitespace(Trim(s)[0]) && !IsWhitespace(Trim(s)[|Trim(s)| - 1])
  {
    if s != "" && IsWhitespace(s[0]) {
      TrimmedEnds(s[1..]);
    } else if s != "" && IsWhitespace(s[|s| - 1]) {
      TrimmedEnds(s[..|s| - 1]);
    }
  }

  lemma {:induction false} TrimTakesTheSpaces(s: string) returns (before: string, after: string)
    ensures s == before + Trim(s) + after
    ensures forall i :: 0 <= i < |before| ==> IsWhitespace(before[i])
    ensures forall i :: 0 <= i < |after| ==> IsWhitespace(after[i])
    ensures Trim(s) != "" ==> !IsWhitespace(Trim(s)[0]) && !IsWhitespace(Trim(s)[|Trim(s)| - 1])
  {
    TrimmedEnds(s);
    before, after := "", "";
    if s == "" {
    } else if IsWhitespace(s[0]) {
      before, after := TrimTakesTheSpaces(s[1..]);
      before := [s[0]] + before;
    } else if IsWhitespace(s[|s| - 1]) {
      before, after := TrimTakesTheSpaces(s[..|s| - 1]);
      after := after + [s[|s| - 1]];
    }
  }

  /**
   * Which numbers are usable, exactly: those that, trimmed, are written as numbers
   * are and have one to twenty digits; and what is left of them is everything but
   * the grouping.
   */
  lemma SanitiseIff(raw: string)
    ensures Sanitise(raw) ==
            if Written(Trim(raw)) && 1 <= Digits(Trim(raw)) <= 20 then Some(Ungrouped(Trim(raw))) else None
  {
    CleanIff(Trim(raw));
  }
}

/**
 * Incoming calls reconstructed from phone-state broadcasts (CallReceiver.kt):
 * the state survives between broadcasts, and records go to the inbox.
 */
module Calls {
  import opened Prelude
  import Numbers

  const UNKNOWN_CALLER := "unknown"
  const SUB_DEFAULT := -1

  type Millis = t: int | t > 0 witness 1
  type CallId = s: string | s != "" witness "0"

  datatype Broadcast =
    | Ringing(number: string, activeNumber: string, intentSub: int, activeSub: int, newId: CallId, now: Millis)
    | OffHook(now: Millis)
    | Idle(now: Millis)

  datatype Record =
    | Rang(address: string, ts: int, callId: string, sub: int)
    | Ended(address: string, ts: int, callId: string, sub: int, direction: string, duration: int)

  /** The stored fields of Config, and what has been recorded. */
  datatype Phone = Phone(
    ringingFrom: string,
    ringingSinceMs: int,
    callAnsweredMs: int,
    ringingSub: int,
    callId: string,
    log: seq<Record>)

  const QUIET := Phone("", 0, 0, SUB_DEFAULT, "", [])

  predicate ShouldRecordRinging(wasRinging: bool) {
    !wasRinging
  }

  predicate NamesCallerLate(wasRinging: bool, recorded: string, number: Option<string>) {
    wasRinging && recorded == UNKNOWN_CALLER && number.Some? && number.value != ""
  }

  function CorrelatedCallId(existing: string, generated: string): string {
    if existing == "" then generated else existing
  }

  function Address(from: string): string {
    if from == UNKNOWN_CALLER then "" else from
  }

  function CallerOf(b: Broadcast): string
    requires b.Ringing?
  {
    Numbers.Sanitise(b.number).GetOr(Numbers.Sanitise(b.activeNumber).GetOr(UNKNOWN_CALLER))
  }

  function SubOf(b: Broadcast): int
    requires b.Ringing?
  {
    if b.intentSub >= 0 then b.intentSub else b.activeSub
  }

  class CallReceiver {
    var ringingFrom: string
    var ringingSinceMs: int
    var callAnsweredMs: int
    var ringingSub: int
    var callId: string
    var log: seq<Record>

    function State(): Phone
      reads this
    {
      Phone(ringingFrom, ringingSinceMs, callAnsweredMs, ringingSub, callId, log)
    }

    constructor ()
      ensures State() == Phone("", 0, 0, -1, "", [])
    {
      ringingFrom, ringingSinceMs, callAnsweredMs, ringingSub, callId, log := "", 0, 0, SUB_DEFAULT, "", [];
    }

    method OnReceive(b: Broadcast)
      modifies this
      ensures State() == Next(old(State()), b)
    {
      match b
      case Ringing(_, _, _, _, _, _) => StartRinging(b);
      case OffHook(now) =>
        if ringingFrom != "" && callAnsweredMs == 0 {
          callAnsweredMs := now;
        }
      case Idle(now) => Finish(now);
    }

    method StartRinging(b: Broadcast)
      requires b.Ringing?
      modifies this
      ensures State() == Next(old(State()), b)
    {
      var wasRinging := ringingFrom != "";
      var from := CallerOf(b);
      if NamesCallerLate(wasRinging, ringingFrom, if from != UNKNOWN_CALLER then Some(from) else None) {
        ringingFrom := from;
        log := log + [Rang(Address(from), ringingSinceMs, callId, ringingSub)];
        return;
      }
      if !ShouldRecordRinging(wasRinging) {
        return;
      }
      callId := CorrelatedCallId(callId, b.newId);
      ringingFrom := from;
      ringingSinceMs := b.now;
      callAnsweredMs := 0;
      ringingSub := SubOf(b);
      log := log + [Rang(Address(from), b.now, callId, ringingSub)];
    }

    method Finish(now: Millis)
      modifies this
      ensures State() == Next(old(State()), Idle(now))
    {
      var from, since, answeredAt, id, sub := ringingFrom, ringingSinceMs, callAnsweredMs, callId, ringingSub;
      ringingSub, ringingFrom, ringingSinceMs, callAnsweredMs, callId := SUB_DEFAULT, "", 0, 0, "";
      if from == "" {
        return;
      }
      log := log + [EndRecord(from, since, answeredAt, id, sub, now)];
    }
  }

  function EndRecord(from: string, since: int, answeredAt: int, id: string, sub: int, now: int): Record {
    var answered := answeredAt > 0;
    Ended(Address(from), if since > 0 then since else now, id, sub,
          if answered then "in" else "missed",
          if answered then TruncDiv(now - answeredAt, 1000) else 0)
  }

  function Next(p: Phone, b: Broadcast): Phone {
    match b
    case Ringing(_, _, _, _, newId, now) =>
      var wasRinging := p.ringingFrom != "";
      var from := CallerOf(b);
      if NamesCallerLate(wasRinging, p.ringingFrom, if from != UNKNOWN_CALLER then Some(from) else None) then
        p.(ringingFrom := from, log := p.log + [Rang(Address(from), p.ringingSinceMs, p.callId, p.ringingSub)])
      else if !ShouldRecordRinging(wasRinging) then p
      else
        var id := CorrelatedCallId(p.callId, newId);
        Phone(from, now, 0, SubOf(b), id, p.log + [Rang(Address(from), now, id, SubOf(b))])
    case OffHook(now) =>
      if p.ringingFrom != "" && p.callAnsweredMs == 0 then p.(callAnsweredMs := now) else p
    case Idle(now) =>
      QUIET.(log := p.log + (if p.ringingFrom == "" then []
                             else [EndRecord(p.ringingFrom, p.ringingSinceMs, p.callAnsweredMs, p.callId, p.ringingSub, now)]))
  }

  function Run(broadcasts: seq<Broadcast>): Phone {
    if broadcasts == [] then QUIET
    else Next(Run(broadcasts[..|broadcasts| - 1]), broadcasts[|broadcasts| - 1])
  }

  // ----------------------------------------------------- the reference: groups

  /** One incoming call as the log should tell it. */
  datatype Group = Group(
    callId: string,
    since: int,
    sub: int,
    first: string,
    named: Option<string>,
    answeredAt: Option<int>)

  /** The broadcasts since the last idle. */
  function OpenPart(broadcasts: seq<Broadcast>): seq<Broadcast> {
    if broadcasts == [] || broadcasts[|broadcasts| - 1].Idle? then []
    else OpenPart(broadcasts[..|broadcasts| - 1]) + [broadcasts[|broadcasts| - 1]]
  }

  /** Where in a part the phone first rings. */
  function FirstRing(part: seq<Broadcast>): Option<nat> {
    if part == [] then None
    else
      var earlier := FirstRing(part[..|part| - 1]);
      if earlier.Some? then earlier
      else if part[|part| - 1].Ringing? then Some(|part| - 1)
      else None
  }

  /** The first caller known from a ring after position `i`. */
  function FirstName(part: seq<Broadcast>, i: nat): Option<string> {
    if |part| <= i + 1 then None
    else
      var earlier, last := FirstName(part[..|part| - 1], i), part[|part| - 1];
      if earlier.Some? then earlier
      else if last.Ringing? && CallerOf(last) != UNKNOWN_CALLER then Some(CallerOf(last))
      else None
  }

  /** When the phone first goes off-hook after position `i`. */
  function FirstOffHook(part: seq<Broadcast>, i: nat): Option<int> {
    if |part| <= i + 1 then None
    else
      var earlier, last := FirstOffHook(part[..|part| - 1], i), part[|part| - 1];
      if earlier.Some? then earlier
      else if last.OffHook? then Some(last.now)
      else None
  }

  lemma {:induction false} FirstRingIsRing(part: seq<Broadcast>)
    ensures FirstRing(part).Some? ==> FirstRing(part).value < |part| && part[FirstRing(part).value].Ringing?
    ensures FirstRing(part).Some? ==> forall k :: 0 <= k < FirstRing(part).value ==> !part[k].Ringing?
    ensures FirstRing(part).None? ==> forall k :: 0 <= k < |part| ==> !part[k].Ringing?
  {
    if part != [] {
      FirstRingIsRing(part[..|part| - 1]);
    }
  }

  /** The call a part without idle tells of: its first ring decides id, start and SIM. */
  function GroupOf(part: seq<Broadcast>): Option<Group> {
    FirstRingIsRing(part);
    match FirstRing(part)
    case None => None
    case Some(i) =>
      var ring := part[i];
      var from := CallerOf(ring);
      Some(Group(ring.newId, ring.now, SubOf(ring), from,
                 if from == UNKNOWN_CALLER then FirstName(part, i) else None,
                 FirstOffHook(part, i)))
  }

  function RingRecords(g: Option<Group>): seq<Record> {
    match g
    case None => []
    case Some(c) =>
      [Rang(Address(c.first), c.since, c.callId, c.sub)]
      + (if c.named.None? then [] else [Rang(c.named.value, c.since, c.callId, c.sub)])
  }

  /** The outcome: "in" exactly if the phone went off-hook after it rang. */
  function OutcomeRecord(g: Option<Group>, now: int): seq<Record> {
    match g
    case None => []
    case Some(c) =>
      [Ended(Address(c.named.GetOr(c.first)), c.since, c.callId, c.sub,
             if c.answeredAt.Some? then "in" else "missed",
             if c.answeredAt.Some? then TruncDiv(now - c.answeredAt.value, 1000) else 0)]
  }

  /** The records of all calls that an idle has ended. */
  function Settled(broadcasts: seq<Broadcast>): seq<Record> {
    if broadcasts == [] then []
    else
      var init, last := broadcasts[..|broadcasts| - 1], broadcasts[|broadcasts| - 1];
      if last.Idle? then
        var g := GroupOf(OpenPart(init));
        Settled(init) + RingRecords(g) + OutcomeRecord(g, last.now)
      else Settled(init)
  }

  /** The stored fields say what the open part says. */
  ghost predicate Remembers(p: Phone, part: seq<Broadcast>) {
    match GroupOf(part)
    case None => p == QUIET.(log := p.log)
    case Some(c) =>
      && p.ringingFrom == c.named.GetOr(c.first)
      && p.ringingSinceMs == c.since
      && p.callAnsweredMs == c.answeredAt.GetOr(0)
      && p.ringingSub == c.sub
      && p.callId == c.callId
      && p.ringingFrom != "" && c.since > 0 && c.callId != ""
      && (c.answeredAt.Some? ==> c.answeredAt.value > 0)
      && (c.named.Some? ==> c.named.value != UNKNOWN_CALLER && c.first == UNKNOWN_CALLER)
  }

  lemma CallerIsNeverEmpty(b: Broadcast)
    requires b.Ringing?
    ensures CallerOf(b) != ""
  {
    Numbers.SanitisedIsDialable(b.number);
    Numbers.SanitisedIsDialable(b.activeNumber);
  }

  lemma RingExtends(part: seq<Broadcast>, b: Broadcast)
    ensures FirstRing(part + [b]) ==
            if FirstRing(part).Some? then FirstRing(part) else if b.Ringing? then Some(|part|) else None
    ensures forall i: nat :: i < |part| ==>
              FirstName(part + [b], i) ==
                (if FirstName(part, i).Some? then FirstName(part, i)
                 else if b.Ringing? && CallerOf(b) != UNKNOWN_CALLER then Some(CallerOf(b)) else None)
              && FirstOffHook(part + [b], i) ==
                (if FirstOffHook(part, i).Some? then FirstOffHook(part, i)
                 else if b.OffHook? then Some(b.now) else None)
  {
    assert (part + [b])[..|part|] == part;
  }

  /** The first ring of a part starts its call. */
  lemma RingStarts(p: Phone, part: seq<Broadcast>, b: Broadcast)
    requires Remembers(p, part) && !b.Idle? && GroupOf(part).None?
    ensures Remembers(Next(p, b), part + [b])
    ensures Next(p, b).log == p.log + RingRecords(GroupOf(part + [b]))
  {
    RingExtends(part, b);
    if b.Ringing? {
      CallerIsNeverEmpty(b);
      assert (part + [b])[|part|] == b;
      assert FirstName(part + [b], |part|).None? && FirstOffHook(part + [b], |part|).None?;
    } else {
      assert p.log + [] == p.log;
    }
  }

  /** Anything after it can name the caller, once, or mark the call answered, once. */
  lemma RingContinues(p: Phone, part: seq<Broadcast>, b: Broadcast)
    requires Remembers(p, part) && !b.Idle? && GroupOf(part).Some?
    ensures Remembers(Next(p, b), part + [b])
    ensures exists added :: Next(p, b).log == p.log + added
                            && RingRecords(GroupOf(part + [b])) == RingRecords(GroupOf(part)) + added
  {
    RingExtends(part, b);
    FirstRingIsRing(part);
    assert (part + [b])[FirstRing(part).value] == part[FirstRing(part).value];
    if b.Ringing? {
      CallerIsNeverEmpty(b);
    }
    var added := Next(p, b).log[|p.log|..];
    assert Next(p, b).log == p.log + added;
    assert RingRecords(GroupOf(part + [b])) == RingRecords(GroupOf(part)) + added;
  }

  /** One broadcast other than idle, against the part it extends. */
  lemma StepRemembers(p: Phone, part: seq<Broadcast>, b: Broadcast)
    requires Remembers(p, part) && !b.Idle?
    ensures Remembers(Next(p, b), part + [b])
    ensures exists added :: Next(p, b).log == p.log + added
                            && RingRecords(GroupOf(part + [b])) == RingRecords(GroupOf(part)) + added
  {
    if GroupOf(part).None? {
      RingStarts(p, part, b);
      var added := RingRecords(GroupOf(part + [b]));
      assert RingRecords(GroupOf(part)) + added == added;
    } else {
      RingContinues(p, part, b);
    }
  }

  /**
   * For every sequence of broadcasts the log is the settled calls, each a group of
   * one ringing record, at most one naming record and one outcome, followed by the
   * ringing records of the call still open.
   */
  lemma {:induction false} LogTellsTheCalls(broadcasts: seq<Broadcast>)
    ensures Run(broadcasts).log == Settled(broadcasts) + RingRecords(GroupOf(OpenPart(broadcasts)))
    ensures Remembers(Run(broadcasts), OpenPart(broadcasts))
  {
    if broadcasts != [] {
      var init, last := broadcasts[..|broadcasts| - 1], broadcasts[|broadcasts| - 1];
      LogTellsTheCalls(init);
      var p, part := Run(init), OpenPart(init);
      if last.Idle? {
        IdleSettles(p, part, last.now);
      } else {
        StepRemembers(p, part, last);
        var added :| Next(p, last).log == p.log + added
                     && RingRecords(GroupOf(part + [last])) == RingRecords(GroupOf(part)) + added;
        assert Settled(init) + RingRecords(GroupOf(part)) + added
            == Settled(init) + (RingRecords(GroupOf(part)) + added);
      }
    }
  }

  lemma IdleSettles(p: Phone, part: seq<Broadcast>, now: Millis)
    requires Remembers(p, part)
    ensures Next(p, Idle(now)) == QUIET.(log := p.log + OutcomeRecord(GroupOf(part), now))
  {}

  lemma {:induction false} OpenPartIsTheTail(broadcasts: seq<Broadcast>)
    ensures var part := OpenPart(broadcasts); var k := |broadcasts| - |part|;
            && 0 <= k
            && part == broadcasts[k..]
            && (forall b :: b in part ==> !b.Idle?)
            && (k > 0 ==> broadcasts[k - 1].Idle?)
  {
    if broadcasts != [] {
      OpenPartIsTheTail(broadcasts[..|broadcasts| - 1]);
    }
  }

  lemma {:induction false} FirstOffHookIff(part: seq<Broadcast>, i: nat)
    ensures FirstOffHook(part, i).Some? <==> exists k :: i < k < |part| && part[k].OffHook?
    ensures FirstName(part, i).Some? <==>
            exists k :: i < k < |part| && part[k].Ringing? && CallerOf(part[k]) != UNKNOWN_CALLER
  {
    if |part| > i + 1 {
      var init := part[..|part| - 1];
      FirstOffHookIff(init, i);
      assert forall k :: i < k < |part| - 1 ==> init[k] == part[k];
    }
  }

  /** The number a ring comes with: its own, or else that of the call on the screen. */
  function NumberOf(b: Broadcast): Option<string>
    requires b.Ringing?
  {
    if Numbers.Sanitise(b.number).Some? then Numbers.Sanitise(b.number) else Numbers.Sanitise(b.activeNumber)
  }

  lemma UnknownIsNoNumber(raw: string)
    ensures Numbers.Sanitise(raw) != Some("unknown")
  {
    Numbers.SanitisedIsDialable(raw);
    Numbers.LetterIsNoDigit();
    assert "unknown"[0] == 'u';
  }

  lemma CallerIs(b: Broadcast)
    requires b.Ringing?
    ensures CallerOf(b) == NumberOf(b).GetOr("unknown")
    ensures NumberOf(b).None? <==> CallerOf(b) == UNKNOWN_CALLER
    ensures NumberOf(b) != Some("unknown") && NumberOf(b) != Some("")
  {
    UnknownIsNoNumber(b.number);
    UnknownIsNoNumber(b.activeNumber);
    CallerIsNeverEmpty(b);
  }

  lemma {:induction false} FirstOffHookAt(part: seq<Broadcast>, i: nat, k: nat)
    requires i < k < |part| && part[k].OffHook? && forall j :: i < j < k ==> !part[j].OffHook?
    ensures FirstOffHook(part, i) == Some(part[k].now)
    decreases |part|
  {
    var init := part[..|part| - 1];
    if k < |part| - 1 {
      FirstOffHookAt(init, i, k);
    } else {
      FirstOffHookIff(init, i);
    }
  }

  lemma {:induction false} FirstNameAt(part: seq<Broadcast>, i: nat, k: nat)
    requires i < k < |part| && part[k].Ringing? && NumberOf(part[k]).Some?
    requires forall j :: i < j < k && part[j].Ringing? ==> NumberOf(part[j]).None?
    ensures FirstName(part, i) == NumberOf(part[k])
    decreases |part|
  {
    var init := part[..|part| - 1];
    if k < |part| - 1 {
      FirstNameAt(init, i, k);
    } else {
      FirstOffHookIff(init, i);
      CallerIs(part[k]);
      forall j | i < j < |init| && init[j].Ringing?
        ensures CallerOf(init[j]) == UNKNOWN_CALLER
      {
        CallerIs(part[j]);
      }
    }
  }

  /** The first ring after an idle is told at once, with the number it comes with, if any. */
  lemma RingIsTold(broadcasts: seq<Broadcast>, b: Broadcast)
    requires b.Ringing? && forall k :: 0 <= k < |OpenPart(broadcasts)| ==> !OpenPart(broadcasts)[k].Ringing?
    ensures Run(broadcasts + [b]).log == Run(broadcasts).log
            + [Rang(NumberOf(b).GetOr(""), b.now, b.newId, if b.intentSub >= 0 then b.intentSub else b.activeSub)]
  {
    LogTellsTheCalls(broadcasts);
    FirstRingIsRing(OpenPart(broadcasts));
    CallerIs(b);
    assert (broadcasts + [b])[..|broadcasts|] == broadcasts;
  }

  /**
   * A further ring of the same call is told only if it is the first to come with a
   * number, and then under the id, start and SIM of the first.
   */
  lemma FurtherRingIsTold(broadcasts: seq<Broadcast>, b: Broadcast, i: nat)
    requires var part := OpenPart(broadcasts);
             && b.Ringing? && i < |part| && part[i].Ringing? && forall k :: 0 <= k < i ==> !part[k].Ringing?
    ensures var part := OpenPart(broadcasts); var ring := part[i];
            var anonymous := forall k :: 0 <= k < |part| && part[k].Ringing? ==> NumberOf(part[k]).None?;
            Run(broadcasts + [b]).log == Run(broadcasts).log
            + (if anonymous && NumberOf(b).Some?
               then [Rang(NumberOf(b).value, ring.now, ring.newId,
                          if ring.intentSub >= 0 then ring.intentSub else ring.activeSub)]
               else [])
  {
    LogTellsTheCalls(broadcasts);
    StillAnonymousIff(OpenPart(broadcasts), i);
    FurtherRingAdds(Run(broadcasts), b);
    assert (broadcasts + [b])[..|broadcasts|] == broadcasts;
  }

  lemma FurtherRingAdds(p: Phone, b: Broadcast)
    requires b.Ringing? && p.ringingFrom != ""
    ensures Next(p, b).log == p.log
            + (if p.ringingFrom == UNKNOWN_CALLER && NumberOf(b).Some?
               then [Rang(NumberOf(b).value, p.ringingSinceMs, p.callId, p.ringingSub)] else [])
  {
    CallerIs(b);
  }

  lemma {:induction false} FirstNameIsAName(part: seq<Broadcast>, i: nat)
    ensures FirstName(part, i) != Some(UNKNOWN_CALLER)
  {
    if |part| > i + 1 {
      FirstNameIsAName(part[..|part| - 1], i);
    }
  }

  lemma StillAnonymousIff(part: seq<Broadcast>, i: nat)
    requires i < |part| && part[i].Ringing? && forall k :: 0 <= k < i ==> !part[k].Ringing?
    ensures GroupOf(part).Some?
    ensures var c := GroupOf(part).value;
            (c.named.GetOr(c.first) == UNKNOWN_CALLER <==>
             forall k :: 0 <= k < |part| && part[k].Ringing? ==> NumberOf(part[k]).None?)
    ensures var c := GroupOf(part).value;
            && c.since == part[i].now && c.callId == part[i].newId
            && c.sub == (if part[i].intentSub >= 0 then part[i].intentSub else part[i].activeSub)
  {
    GroupSaysWhatHappened(part, i);
    FirstRingIsRing(part);
    FirstNameIsAName(part, i);
    forall k | 0 <= k < |part| && part[k].Ringing?
      ensures NumberOf(part[k]).None? <==> CallerOf(part[k]) == UNKNOWN_CALLER
    {
      CallerIs(part[k]);
    }
  }

  /**
   * What the end of a call says of its broadcasts: "in" with the seconds since the
   * phone was first taken off the hook after the first ring, or "missed"; the first
   * number any of its rings came with; and the id, start and SIM of the first ring.
   */
  ghost predicate EndTells(end: Record, part: seq<Broadcast>, i: nat, now: int)
    requires i < |part| && part[i].Ringing?
  {
    var ring := part[i];
    && end.Ended?
    && end.ts == ring.now && end.callId == ring.newId
    && end.sub == (if ring.intentSub >= 0 then ring.intentSub else ring.activeSub)
    && ((forall k :: i < k < |part| ==> !part[k].OffHook?) ==> end.direction == "missed" && end.duration == 0)
    && (forall k :: i < k < |part| && part[k].OffHook? && (forall j :: i < j < k ==> !part[j].OffHook?) ==>
          end.direction == "in" && end.duration == TruncDiv(now - part[k].now, 1000))
    && ((forall k :: i <= k < |part| && part[k].Ringing? ==> NumberOf(part[k]).None?) ==> end.address == "")
    && (forall k :: i <= k < |part| && part[k].Ringing? && NumberOf(part[k]).Some?
                    && (forall j :: i <= j < k && part[j].Ringing? ==> NumberOf(part[j]).None?) ==>
          end.address == NumberOf(part[k]).value)
  }

  lemma OutcomeTells(part: seq<Broadcast>, i: nat, now: int)
    requires i < |part| && part[i].Ringing? && forall k :: 0 <= k < i ==> !part[k].Ringing?
    ensures var told := OutcomeRecord(GroupOf(part), now);
            |told| == 1 && EndTells(told[0], part, i, now)
  {
    GroupSaysWhatHappened(part, i);
    NumbersOfTheCall(part, i);
    AnsweredAtTheFirst(part, i);
  }

  lemma AnsweredAtTheFirst(part: seq<Broadcast>, i: nat)
    requires i < |part| && part[i].Ringing? && forall k :: 0 <= k < i ==> !part[k].Ringing?
    ensures GroupOf(part).Some?
    ensures forall k :: i < k < |part| && part[k].OffHook? && (forall j :: i < j < k ==> !part[j].OffHook?) ==>
              GroupOf(part).value.answeredAt == Some(part[k].now)
  {
    GroupSaysWhatHappened(part, i);
    FirstRingIsRing(part);
    forall k | i < k < |part| && part[k].OffHook? && (forall j :: i < j < k ==> !part[j].OffHook?)
      ensures GroupOf(part).value.answeredAt == Some(part[k].now)
    {
      FirstOffHookAt(part, i, k);
    }
  }

  /** A call's end is told once, when the line goes idle; where nothing rang, nothing is told. */
  lemma EndIsTold(broadcasts: seq<Broadcast>, now: Millis, i: nat)
    ensures var part := OpenPart(broadcasts);
            var log, log' := Run(broadcasts).log, Run(broadcasts + [Idle(now)]).log;
            && (i < |part| && part[i].Ringing? && (forall k :: 0 <= k < i ==> !part[k].Ringing?) ==>
                  |log'| == |log| + 1 && log <= log' && EndTells(log'[|log|], part, i, now))
            && ((forall k :: 0 <= k < |part| ==> !part[k].Ringing?) ==> log' == log)
  {
    var part := OpenPart(broadcasts);
    LogTellsTheCalls(broadcasts);
    IdleSettles(Run(broadcasts), part, now);
    assert (broadcasts + [Idle(now)])[..|broadcasts|] == broadcasts;
    FirstRingIsRing(part);
    if i < |part| && part[i].Ringing? && (forall k :: 0 <= k < i ==> !part[k].Ringing?) {
      OutcomeTells(part, i, now);
    }
  }

  /** Whom a call is from: the first of its rings that comes with a number. */
  lemma NumbersOfTheCall(part: seq<Broadcast>, i: nat)
    requires i < |part| && part[i].Ringing? && forall k :: 0 <= k < i ==> !part[k].Ringing?
    ensures GroupOf(part).Some?
    ensures var c := GroupOf(part).value; var address := Address(c.named.GetOr(c.first));
            && ((forall k :: i <= k < |part| && part[k].Ringing? ==> NumberOf(part[k]).None?) ==> address == "")
            && (forall k :: i <= k < |part| && part[k].Ringing? && NumberOf(part[k]).Some?
                            && (forall j :: i <= j < k && part[j].Ringing? ==> NumberOf(part[j]).None?) ==>
                  address == NumberOf(part[k]).value)
  {
    AnonymousCall(part, i);
    forall k | i <= k < |part| && part[k].Ringing? && NumberOf(part[k]).Some?
               && (forall j :: i <= j < k && part[j].Ringing? ==> NumberOf(part[j]).None?)
      ensures var c := GroupOf(part).value; Address(c.named.GetOr(c.first)) == NumberOf(part[k]).value
    {
      NumberedCall(part, i, k);
    }
  }

  lemma AnonymousCall(part: seq<Broadcast>, i: nat)
    requires i < |part| && part[i].Ringing? && forall k :: 0 <= k < i ==> !part[k].Ringing?
    ensures GroupOf(part).Some?
    ensures (forall k :: i <= k < |part| && part[k].Ringing? ==> NumberOf(part[k]).None?) ==>
              var c := GroupOf(part).value; Address(c.named.GetOr(c.first)) == ""
  {
    StillAnonymousIff(part, i);
  }

  lemma NumberedCall(part: seq<Broadcast>, i: nat, k: nat)
    requires i <= k < |part| && part[i].Ringing? && forall j :: 0 <= j < i ==> !part[j].Ringing?
    requires part[k].Ringing? && NumberOf(part[k]).Some?
    requires forall j :: i <= j < k && part[j].Ringing? ==> NumberOf(part[j]).None?
    ensures GroupOf(part).Some?
    ensures var c := GroupOf(part).value; Address(c.named.GetOr(c.first)) == NumberOf(part[k]).value
  {
    GroupIs(part, i);
    CallerIs(part[i]);
    CallerIs(part[k]);
    if k > i {
      FirstNameAt(part, i, k);
    }
  }

  lemma GroupIs(part: seq<Broadcast>, i: nat)
    requires i < |part| && part[i].Ringing? && forall j :: 0 <= j < i ==> !part[j].Ringing?
    ensures GroupOf(part).Some? && GroupOf(part).value.first == CallerOf(part[i])
    ensures CallerOf(part[i]) == UNKNOWN_CALLER ==> GroupOf(part).value.named == FirstName(part, i)
    ensures CallerOf(part[i]) != UNKNOWN_CALLER ==> GroupOf(part).value.named == None
  {
    FirstRingIsRing(part);
    assert FirstRing(part) == Some(i);
  }

  /**
   * What a call's records say of its broadcasts: there is a call exactly if the
   * phone rang, it ends "in" exactly if the phone went off-hook after its first
   * ring, and it is named late exactly if the first ring was anonymous and a later
   * one was not.
   */
  lemma GroupSaysWhatHappened(part: seq<Broadcast>, i: nat)
    requires i < |part| && part[i].Ringing? && forall k :: 0 <= k < i ==> !part[k].Ringing?
    ensures GroupOf(part).Some?
    ensures var c := GroupOf(part).value;
            && (c.answeredAt.Some? <==> exists k :: i < k < |part| && part[k].OffHook?)
            && (c.named.Some? <==>
                (CallerOf(part[i]) == UNKNOWN_CALLER
                 && exists k :: i < k < |part| && part[k].Ringing? && CallerOf(part[k]) != UNKNOWN_CALLER))
            && c.since == part[i].now && c.callId == part[i].newId
            && c.sub == (if part[i].intentSub >= 0 then part[i].intentSub else part[i].activeSub)
  {
    FirstRingIsRing(part);
    assert FirstRing(part) == Some(i);
    FirstOffHookIff(part, i);
  }
}

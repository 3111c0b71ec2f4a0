/**
 * Multipart sends (Sender.kt): one pending record per send, folded part result by
 * part result, and resolved when every part has reported.
 */
module Sender {
  import opened Prelude
  import Codecs

  const MAX_PARTS := 10
  const RESULT_OK := -1

  /** What the unit can say of a request before the radio sees it. */
  datatype Request = Request(
    id: string,
    destinationValid: bool,
    bodyEmpty: bool,
    permitted: bool,
    simReady: bool,
    simKnown: bool,
    subId: int,
    managerPresent: bool,
    parts: nat,
    radioTakesIt: bool)

  datatype Pending = Pending(subId: int, total: nat, ok: nat, failed: nat, errors: seq<string>)

  /** One line of the outbox. */
  datatype Outcome =
    | Queued(id: string)
    | Rejected(id: string, reason: string)
    | Resolved(id: string, status: string, ok: nat, failed: nat, errors: seq<string>)

  datatype State = State(
    pending: map<string, Pending>,
    sentOk: nat,
    sentFailed: nat,
    rejected: nat,
    outbox: seq<Outcome>)

  const START := State(map[], 0, 0, 0, [])

  function ErrorName(code: int): string {
    if code == RESULT_OK then "ok"
    else if code == 1 then "generic_failure"
    else if code == 2 then "radio_off"
    else if code == 3 then "null_pdu"
    else if code == 4 then "no_service"
    else if code == 5 then "limit_exceeded"
    else if code == 6 then "fdn_check_failure"
    else if code == 7 then "short_code_not_allowed"
    else if code == 8 then "short_code_never_allowed"
    else "error_" + Codecs.Decimal(code)
  }

  function RejectReason(r: Request): Option<string> {
    if !r.destinationValid then Some("invalid_destination")
    else if r.bodyEmpty then Some("empty_body")
    else if !r.permitted then Some("permission_denied")
    else if !r.simReady then Some("no_sim")
    else if !r.simKnown then Some("unknown_sim")
    else if !r.managerPresent then Some("no_sms_manager")
    else if r.parts == 0 then Some("empty_body")
    else if r.parts > MAX_PARTS then Some("too_long")
    else None
  }

  function Folded(p: Pending, code: int): Pending {
    if code == RESULT_OK then p.(ok := p.ok + 1)
    else
      var name := ErrorName(code);
      p.(failed := p.failed + 1, errors := if name in p.errors then p.errors else p.errors + [name])
  }

  function AfterSend(s: State, r: Request): State {
    match RejectReason(r)
    case Some(reason) => s.(rejected := s.rejected + 1, outbox := s.outbox + [Rejected(r.id, reason)])
    case None =>
      if !r.radioTakesIt then
        s.(pending := s.pending - {r.id}, rejected := s.rejected + 1,
           outbox := s.outbox + [Rejected(r.id, "send_failed")])
      else
        s.(pending := s.pending[r.id := Pending(r.subId, r.parts, 0, 0, [])],
           outbox := s.outbox + [Queued(r.id)])
  }

  function Resolution(id: string, p: Pending): Outcome {
    Resolved(id, if p.failed > 0 then "failed" else "ok", p.ok, p.failed, p.errors)
  }

  function AfterPart(s: State, id: string, code: int): State {
    if id !in s.pending then s
    else
      var p := Folded(s.pending[id], code);
      if p.ok + p.failed < p.total then s.(pending := s.pending[id := p])
      else
        s.(pending := s.pending - {id},
           sentOk := s.sentOk + (if p.failed > 0 then 0 else 1),
           sentFailed := s.sentFailed + (if p.failed > 0 then 1 else 0),
           outbox := s.outbox + [Resolution(id, p)])
  }

  class Outbox {
    var pending: map<string, Pending>
    var sentOk: nat
    var sentFailed: nat
    var rejected: nat
    var outbox: seq<Outcome>

    function Now(): State
      reads this
    {
      State(pending, sentOk, sentFailed, rejected, outbox)
    }

    constructor ()
      ensures Now() == START
    {
      pending, sentOk, sentFailed, rejected, outbox := map[], 0, 0, 0, [];
    }

    method Reject(id: string, reason: string)
      modifies this`rejected, this`outbox
      ensures rejected == old(rejected) + 1 && outbox == old(outbox) + [Rejected(id, reason)]
    {
      rejected := rejected + 1;
      outbox := outbox + [Rejected(id, reason)];
    }

    /** The pending record is stored before the radio is asked, and taken back if it refuses. */
    method Send(r: Request) returns (accepted: bool)
      modifies this
      ensures Now() == AfterSend(old(Now()), r)
      ensures accepted <==>
              && r.destinationValid && !r.bodyEmpty && r.permitted && r.simReady && r.simKnown && r.managerPresent
              && 1 <= r.parts <= 10 && r.radioTakesIt
      ensures accepted ==> r.id in pending && pending[r.id] == Pending(r.subId, r.parts, 0, 0, [])
      ensures !accepted ==> r.id !in pending || pending == old(pending)
    {
      if !r.destinationValid {
        Reject(r.id, "invalid_destination");
        return false;
      }
      if r.bodyEmpty {
        Reject(r.id, "empty_body");
        return false;
      }
      if !r.permitted {
        Reject(r.id, "permission_denied");
        return false;
      }
      if !r.simReady {
        Reject(r.id, "no_sim");
        return false;
      }
      if !r.simKnown {
        Reject(r.id, "unknown_sim");
        return false;
      }
      if !r.managerPresent {
        Reject(r.id, "no_sms_manager");
        return false;
      }
      if r.parts == 0 {
        Reject(r.id, "empty_body");
        return false;
      }
      if r.parts > MAX_PARTS {
        Reject(r.id, "too_long");
        return false;
      }
      pending := pending[r.id := Pending(r.subId, r.parts, 0, 0, [])];
      if !r.radioTakesIt {
        pending := pending - {r.id};
        assert pending == old(pending) - {r.id};
        Reject(r.id, "send_failed");
        return false;
      }
      outbox := outbox + [Queued(r.id)];
      accepted := true;
    }

    method OnPartResult(id: string, code: int)
      modifies this
      ensures Now() == AfterPart(old(Now()), id, code)
    {
      if id !in pending {
        return;
      }
      var p := pending[id];
      if code == RESULT_OK {
        p := p.(ok := p.ok + 1);
      } else {
        p := p.(failed := p.failed + 1);
        var name := ErrorName(code);
        if name !in p.errors {
          p := p.(errors := p.errors + [name]);
        }
      }
      if p.ok + p.failed < p.total {
        pending := pending[id := p];
        return;
      }
      pending := pending - {id};
      if p.failed > 0 {
        sentFailed := sentFailed + 1;
      } else {
        sentOk := sentOk + 1;
      }
      outbox := outbox + [Resolution(id, p)];
    }
  }

  // --------------------------------------------------------------- whole runs

  datatype Step = Sent(request: Request) | Part(id: string, code: int)

  function Next(s: State, step: Step): State {
    match step
    case Sent(r) => AfterSend(s, r)
    case Part(id, code) => AfterPart(s, id, code)
  }

  function Run(steps: seq<Step>): State {
    if steps == [] then START else Next(Run(steps[..|steps| - 1]), steps[|steps| - 1])
  }

  predicate Accepted(step: Step, id: string) {
    step.Sent? && step.request.id == id && RejectReason(step.request).None? && step.request.radioTakesIt
  }

  predicate ReachesTheRadio(step: Step) {
    step.Sent? && RejectReason(step.request).None?
  }

  /** Every request that gets as far as the radio has an id of its own. */
  ghost predicate DistinctIds(steps: seq<Step>) {
    forall i, j :: 0 <= i < j < |steps| && ReachesTheRadio(steps[i]) && ReachesTheRadio(steps[j]) ==>
      steps[i].request.id != steps[j].request.id
  }

  function AcceptedCount(steps: seq<Step>): nat {
    if steps == [] then 0
    else
      var last := steps[|steps| - 1];
      AcceptedCount(steps[..|steps| - 1]) + (if ReachesTheRadio(last) && last.request.radioTakesIt then 1 else 0)
  }

  /** The result codes a send got after it was accepted, in the order they came. */
  function CodesFor(steps: seq<Step>, id: string): seq<int> {
    if steps == [] then []
    else
      var last := steps[|steps| - 1];
      if Accepted(last, id) then []
      else CodesFor(steps[..|steps| - 1], id) + (if last.Part? && last.id == id then [last.code] else [])
  }

  /** The request that was accepted under an id. */
  function RequestFor(steps: seq<Step>, id: string): Option<Request> {
    if steps == [] then None
    else
      var last := steps[|steps| - 1];
      if Accepted(last, id) then Some(last.request) else RequestFor(steps[..|steps| - 1], id)
  }

  function Failures(codes: seq<int>): nat {
    if codes == [] then 0
    else Failures(codes[..|codes| - 1]) + (if codes[|codes| - 1] == RESULT_OK then 0 else 1)
  }

  function FoldAll(p: Pending, codes: seq<int>): Pending {
    if codes == [] then p else Folded(FoldAll(p, codes[..|codes| - 1]), codes[|codes| - 1])
  }

  function Opened(r: Request): Pending {
    Pending(r.subId, r.parts, 0, 0, [])
  }

  /** Some result is a failure of this name. */
  ghost predicate FailsAs(codes: seq<int>, name: string) {
    exists i :: 0 <= i < |codes| && codes[i] != RESULT_OK && ErrorName(codes[i]) == name
  }

  lemma FailsAsAppend(codes: seq<int>, code: int, name: string)
    ensures FailsAs(codes + [code], name) <==> FailsAs(codes, name) || (code != RESULT_OK && ErrorName(code) == name)
  {
    var more := codes + [code];
    if i :| 0 <= i < |codes| && codes[i] != RESULT_OK && ErrorName(codes[i]) == name {
      assert more[i] == codes[i];
    }
    assert more[|codes|] == code;
  }

  lemma FoldedErrors(p: Pending, code: int, name: string)
    ensures name in Folded(p, code).errors <==> name in p.errors || (code != RESULT_OK && ErrorName(code) == name)
  {}

  lemma {:induction false} ErrorsAreTheFailures(p: Pending, codes: seq<int>, name: string)
    ensures name in FoldAll(p, codes).errors <==> name in p.errors || FailsAs(codes, name)
  {
    if codes != [] {
      var init, last := codes[..|codes| - 1], codes[|codes| - 1];
      ErrorsAreTheFailures(p, init, name);
      FailsAsAppend(init, last, name);
      FoldedErrors(FoldAll(p, init), last, name);
      assert codes == init + [last];
    }
  }

  ghost predicate Distinct(names: seq<string>) {
    forall i, j :: 0 <= i < j < |names| ==> names[i] != names[j]
  }

  lemma {:induction false} NoNameTwice(p: Pending, codes: seq<int>)
    requires Distinct(p.errors)
    ensures Distinct(FoldAll(p, codes).errors)
  {
    if codes != [] {
      NoNameTwice(p, codes[..|codes| - 1]);
    }
  }

  /** The codes of the radio that have a name, and that no two codes share one. */
  lemma ErrorNamesAre(a: int, b: int)
    ensures [ErrorName(-1)] + [ErrorName(1)] + [ErrorName(2)] + [ErrorName(3)] + [ErrorName(4)]
            == ["ok"] + ["generic_failure"] + ["radio_off"] + ["null_pdu"] + ["no_service"]
    ensures [ErrorName(5)] + [ErrorName(6)] + [ErrorName(7)] + [ErrorName(8)]
            == ["limit_exceeded"] + ["fdn_check_failure"] + ["short_code_not_allowed"] + ["short_code_never_allowed"]
    ensures a != b ==> ErrorName(a) != ErrorName(b)
  {
    Codecs.DecimalRoundTrip(a);
    Codecs.DecimalRoundTrip(b);
    NumberedNamesDiffer(Codecs.Decimal(a), Codecs.Decimal(b));
    NamedFirst(a);
    NamedFirst(b);
    NamesDiffer();
  }

  lemma NumberedNamesDiffer(x: string, y: string)
    ensures x != y ==> "error_" + x != "error_" + y
  {
    assert ("error_" + x)[6..] == x && ("error_" + y)[6..] == y;
  }

  lemma NamedFirst(code: int)
    ensures ErrorName(code) != ""
    ensures ErrorName(code)[0] == 'e' <==> !(code == -1 || 1 <= code <= 8)
  {}

  lemma NamesDiffer()
    ensures forall a, b :: 1 <= a < b <= 8 ==> ErrorName(a) != ErrorName(b)
    ensures forall a :: 1 <= a <= 8 ==> ErrorName(a) != "ok"
  {
    assert |"ok"| == 2 && |"generic_failure"| == 15 && |"radio_off"| == 9 && |"null_pdu"| == 8;
    assert |"no_service"| == 10 && |"limit_exceeded"| == 14 && |"fdn_check_failure"| == 17;
    assert |"short_code_not_allowed"| == 22 && |"short_code_never_allowed"| == 24;
  }

  lemma {:induction false} CountsAddUp(p: Pending, codes: seq<int>)
    ensures var q := FoldAll(p, codes);
            && q.total == p.total && q.subId == p.subId
            && q.failed == p.failed + Failures(codes)
            && q.ok + q.failed == p.ok + p.failed + |codes|
  {
    if codes != [] {
      CountsAddUp(p, codes[..|codes| - 1]);
    }
  }

  /** The codes as a fold sees them: counts add up, and the errors are the names of the failures. */
  lemma FoldCounts(p: Pending, codes: seq<int>)
    ensures var q := FoldAll(p, codes);
            && q.total == p.total && q.subId == p.subId
            && q.failed == p.failed + Failures(codes)
            && q.ok + q.failed == p.ok + p.failed + |codes|
            && (forall e :: e in q.errors <==> e in p.errors || FailsAs(codes, e))
            && (Distinct(p.errors) ==> Distinct(q.errors))
  {
    CountsAddUp(p, codes);
    if Distinct(p.errors) {
      NoNameTwice(p, codes);
    }
    forall e
      ensures e in FoldAll(p, codes).errors <==> e in p.errors || FailsAs(codes, e)
    {
      ErrorsAreTheFailures(p, codes, e);
    }
  }

  lemma {:induction false} FailuresFromMultiset(codes: seq<int>)
    ensures Failures(codes) + multiset(codes)[RESULT_OK] == |codes|
  {
    if codes != [] {
      FailuresFromMultiset(codes[..|codes| - 1]);
      assert codes == codes[..|codes| - 1] + [codes[|codes| - 1]];
    }
  }

  /**
   * A send's verdict does not depend on the order of its part results: permuted
   * results give the same status, the same counts and the same set of errors.
   */
  lemma VerdictIgnoresOrder(p: Pending, codes: seq<int>, permuted: seq<int>, id: string)
    requires multiset(codes) == multiset(permuted)
    ensures var a, b := FoldAll(p, codes), FoldAll(p, permuted);
            && a.ok == b.ok && a.failed == b.failed
            && Resolution(id, a).status == Resolution(id, b).status
            && (forall e :: e in a.errors <==> e in b.errors)
  {
    FoldCounts(p, codes);
    FoldCounts(p, permuted);
    FailuresFromMultiset(codes);
    FailuresFromMultiset(permuted);
    assert |codes| == |multiset(codes)| && |permuted| == |multiset(permuted)|;
    var a, b := FoldAll(p, codes), FoldAll(p, permuted);
    forall e
      ensures e in a.errors <==> e in b.errors
    {
      PermutedFailsAs(codes, permuted, e);
      PermutedFailsAs(permuted, codes, e);
    }
  }

  lemma PermutedFailsAs(codes: seq<int>, permuted: seq<int>, name: string)
    requires multiset(codes) == multiset(permuted)
    ensures FailsAs(codes, name) ==> FailsAs(permuted, name)
  {
    if i :| 0 <= i < |codes| && codes[i] != RESULT_OK && ErrorName(codes[i]) == name {
      assert codes[i] in multiset(permuted);
      var j :| 0 <= j < |permuted| && permuted[j] == codes[i];
    }
  }

  function ResolvedFor(outbox: seq<Outcome>, id: string): seq<Outcome> {
    if outbox == [] then []
    else
      var last := outbox[|outbox| - 1];
      ResolvedFor(outbox[..|outbox| - 1], id) + (if last.Resolved? && last.id == id then [last] else [])
  }

  /** Where a send stands: its first results are folded, and at its last part it is resolved, once. */
  ghost predicate Stands(s: State, steps: seq<Step>, id: string) {
    match RequestFor(steps, id)
    case None => id !in s.pending && ResolvedFor(s.outbox, id) == []
    case Some(r) =>
      var codes := CodesFor(steps, id);
      && 1 <= r.parts <= MAX_PARTS
      && if |codes| < r.parts
         then id in s.pending && s.pending[id] == FoldAll(Opened(r), codes) && ResolvedFor(s.outbox, id) == []
         else id !in s.pending
              && ResolvedFor(s.outbox, id) == [Resolution(id, FoldAll(Opened(r), codes[..r.parts]))]
  }

  lemma ResolvedForAppend(outbox: seq<Outcome>, o: Outcome, id: string)
    ensures ResolvedFor(outbox + [o], id) == ResolvedFor(outbox, id) + (if o.Resolved? && o.id == id then [o] else [])
  {
    assert (outbox + [o])[..|outbox|] == outbox;
  }

  lemma {:induction false} NoRequestYet(steps: seq<Step>, id: string)
    requires forall i :: 0 <= i < |steps| && ReachesTheRadio(steps[i]) ==> steps[i].request.id != id
    ensures RequestFor(steps, id).None?
  {
    if steps != [] {
      NoRequestYet(steps[..|steps| - 1], id);
    }
  }

  /** A request that is not accepted under this id leaves what is known of the id alone. */
  lemma OtherRequestsKeepCodes(steps: seq<Step>, r: Request, id: string)
    requires !Accepted(Sent(r), id)
    ensures RequestFor(steps + [Sent(r)], id) == RequestFor(steps, id)
    ensures CodesFor(steps + [Sent(r)], id) == CodesFor(steps, id)
  {
    assert (steps + [Sent(r)])[..|steps|] == steps;
  }

  lemma SendStands(s: State, steps: seq<Step>, r: Request, id: string)
    requires Stands(s, steps, id)
    requires RejectReason(r).None? && r.id == id ==> RequestFor(steps, id).None?
    ensures Stands(AfterSend(s, r), steps + [Sent(r)], id)
  {
    var s' := AfterSend(s, r);
    assert ResolvedFor(s'.outbox, id) == ResolvedFor(s.outbox, id) by {
      ResolvedForAppend(s.outbox, s'.outbox[|s.outbox|], id);
    }
    if Accepted(Sent(r), id) {
      assert CodesFor(steps + [Sent(r)], id) == [];
      assert s'.pending[id] == FoldAll(Opened(r), []);
    } else {
      OtherRequestsKeepCodes(steps, r, id);
      assert id in s'.pending <==> id in s.pending;
    }
  }

  lemma PartCodes(steps: seq<Step>, of: string, code: int, id: string)
    ensures RequestFor(steps + [Part(of, code)], id) == RequestFor(steps, id)
    ensures CodesFor(steps + [Part(of, code)], id) == CodesFor(steps, id) + (if of == id then [code] else [])
  {
    assert (steps + [Part(of, code)])[..|steps|] == steps;
  }

  /** A result of a send that still waits for parts. */
  lemma AwaitedPart(s: State, id: string, code: int, r: Request, codes: seq<int>)
    requires id in s.pending && s.pending[id] == FoldAll(Opened(r), codes)
    requires |codes| < r.parts && ResolvedFor(s.outbox, id) == []
    ensures var s', all := AfterPart(s, id, code), codes + [code];
            if |all| < r.parts
            then id in s'.pending && s'.pending[id] == FoldAll(Opened(r), all) && ResolvedFor(s'.outbox, id) == []
            else id !in s'.pending && ResolvedFor(s'.outbox, id) == [Resolution(id, FoldAll(Opened(r), all))]
  {
    var all := codes + [code];
    assert all[..|codes|] == codes;
    FoldCounts(Opened(r), all);
    ResolvedForAppend(s.outbox, Resolution(id, FoldAll(Opened(r), all)), id);
  }

  lemma OthersPartLeavesTheSend(s: State, of: string, code: int, id: string)
    requires of != id
    ensures var s' := AfterPart(s, of, code);
            && ResolvedFor(s'.outbox, id) == ResolvedFor(s.outbox, id)
            && (id in s'.pending <==> id in s.pending)
            && (id in s.pending ==> s'.pending[id] == s.pending[id])
  {
    var s' := AfterPart(s, of, code);
    if s'.outbox != s.outbox {
      ResolvedForAppend(s.outbox, s'.outbox[|s.outbox|], id);
    }
  }

  lemma PartStands(s: State, steps: seq<Step>, of: string, code: int, id: string)
    requires Stands(s, steps, id)
    ensures Stands(AfterPart(s, of, code), steps + [Part(of, code)], id)
  {
    PartCodes(steps, of, code, id);
    if of != id {
      OthersPartLeavesTheSend(s, of, code, id);
      assert CodesFor(steps + [Part(of, code)], id) == CodesFor(steps, id);
    } else if RequestFor(steps, id).Some? {
      var codes, r := CodesFor(steps, id), RequestFor(steps, id).value;
      if |codes| < r.parts {
        AwaitedPart(s, id, code, r, codes);
        assert |codes| + 1 == r.parts ==> (codes + [code])[..r.parts] == codes + [code];
      } else {
        assert (codes + [code])[..r.parts] == codes[..r.parts];
      }
    }
  }

  /**
   * With distinct ids, in every run each accepted send is pending with the fold of
   * its results until its last part reports, is then resolved with the verdict of
   * its first `parts` results, and stays resolved exactly once, later results
   * being ignored; an id never accepted is neither.
   */
  lemma {:induction false} EverySendResolvesOnce(steps: seq<Step>, id: string)
    requires DistinctIds(steps)
    ensures Stands(Run(steps), steps, id)
  {
    if steps != [] {
      var init, last := steps[..|steps| - 1], steps[|steps| - 1];
      assert steps == init + [last];
      EverySendResolvesOnce(init, id);
      match last
      case Sent(r) =>
        if RejectReason(r).None? && r.id == id {
          forall i | 0 <= i < |init| && ReachesTheRadio(init[i])
            ensures init[i].request.id != id
          {
            assert ReachesTheRadio(steps[i]) && ReachesTheRadio(steps[|init|]);
          }
          NoRequestYet(init, id);
        }
        SendStands(Run(init), init, r, id);
      case Part(of, code) => PartStands(Run(init), init, of, code, id);
    }
  }

  /** A request reaches the radio under an id whose earlier send is still pending. */
  predicate Overwrites(s: State, step: Step) {
    ReachesTheRadio(step) && step.request.id in s.pending
  }

  function Overwritten(steps: seq<Step>): nat {
    if steps == [] then 0
    else
      var init := steps[..|steps| - 1];
      Overwritten(init) + (if Overwrites(Run(init), steps[|steps| - 1]) then 1 else 0)
  }

  lemma PendingAfter(s: State, step: Step)
    ensures var s' := Next(s, step);
            |s'.pending| == |s.pending|
                            + (if ReachesTheRadio(step) && step.request.radioTakesIt then 1 else 0)
                            - (if Overwrites(s, step) then 1 else 0)
                            - (s'.sentOk - s.sentOk) - (s'.sentFailed - s.sentFailed)
  {
    var s' := Next(s, step);
    var id := if step.Sent? then step.request.id else step.id;
    assert |s'.pending| == |s'.pending.Keys| && |s.pending| == |s.pending.Keys|;
    if id in s.pending {
      assert s'.pending.Keys == if id in s'.pending then s.pending.Keys else s.pending.Keys - {id};
    } else {
      assert s'.pending.Keys == if id in s'.pending then s.pending.Keys + {id} else s.pending.Keys;
    }
  }

  /**
   * Every accepted send is counted once, as sent, failed, pending, or taken over
   * by a later request under its id.
   */
  lemma {:induction false} AcceptedSendsAreAccounted(steps: seq<Step>)
    ensures var s := Run(steps);
            s.sentOk + s.sentFailed + |s.pending| + Overwritten(steps) == AcceptedCount(steps)
  {
    if steps != [] {
      AcceptedSendsAreAccounted(steps[..|steps| - 1]);
      PendingAfter(Run(steps[..|steps| - 1]), steps[|steps| - 1]);
    }
  }

  predicate OverwritesAt(steps: seq<Step>, k: nat)
    requires k < |steps|
  {
    Overwrites(Run(steps[..k]), steps[k])
  }

  lemma {:induction false} OverwrittenIff(steps: seq<Step>)
    ensures Overwritten(steps) == 0 <==> forall k: nat :: k < |steps| ==> !OverwritesAt(steps, k)
  {
    if steps != [] {
      var n := |steps| - 1;
      OverwrittenIff(steps[..n]);
      forall k: nat | k < n
        ensures OverwritesAt(steps[..n], k) == OverwritesAt(steps, k)
      {
        assert steps[..n][..k] == steps[..k];
      }
      assert OverwritesAt(steps, n) == Overwrites(Run(steps[..n]), steps[n]);
    }
  }

  /**
   * The counters and what is pending add up to the accepted sends exactly if no
   * request ever reached the radio under the id of a send still pending.
   */
  lemma CountersBalanceIff(steps: seq<Step>)
    ensures var s := Run(steps);
            s.sentOk + s.sentFailed + |s.pending| == AcceptedCount(steps)
            <==> forall k: nat :: k < |steps| ==> !OverwritesAt(steps, k)
  {
    AcceptedSendsAreAccounted(steps);
    OverwrittenIff(steps);
  }

  /** How many sends the outbox says resolved with a status. */
  function Tally(outbox: seq<Outcome>, status: string): nat {
    if outbox == [] then 0
    else
      var last := outbox[|outbox| - 1];
      Tally(outbox[..|outbox| - 1], status) + (if last.Resolved? && last.status == status then 1 else 0)
  }

  function RejectedIn(outbox: seq<Outcome>): nat {
    if outbox == [] then 0
    else RejectedIn(outbox[..|outbox| - 1]) + (if outbox[|outbox| - 1].Rejected? then 1 else 0)
  }

  lemma TallyAppend(outbox: seq<Outcome>, o: Outcome, status: string)
    ensures Tally(outbox + [o], status) == Tally(outbox, status) + (if o.Resolved? && o.status == status then 1 else 0)
    ensures RejectedIn(outbox + [o]) == RejectedIn(outbox) + (if o.Rejected? then 1 else 0)
  {
    assert (outbox + [o])[..|outbox|] == outbox;
  }

  lemma SendTallies(s: State, r: Request)
    ensures var s' := AfterSend(s, r);
            && s'.sentOk == s.sentOk && s'.sentFailed == s.sentFailed
            && Tally(s'.outbox, "ok") == Tally(s.outbox, "ok")
            && Tally(s'.outbox, "failed") == Tally(s.outbox, "failed")
            && s'.rejected - s.rejected == RejectedIn(s'.outbox) - RejectedIn(s.outbox)
  {
    var o :=
      match RejectReason(r)
      case Some(reason) => Rejected(r.id, reason)
      case None => if r.radioTakesIt then Queued(r.id) else Rejected(r.id, "send_failed");
    assert AfterSend(s, r).outbox == s.outbox + [o];
    TallyAppend(s.outbox, o, "ok");
    TallyAppend(s.outbox, o, "failed");
  }

  lemma StatusIs(id: string, p: Pending)
    ensures Resolution(id, p).status == "ok" <==> p.failed == 0
    ensures Resolution(id, p).status == "failed" <==> p.failed > 0
  {
    assert |"ok"| != |"failed"|;
  }

  lemma PartTallies(s: State, id: string, code: int)
    ensures var s' := AfterPart(s, id, code);
            && s'.sentOk - s.sentOk == Tally(s'.outbox, "ok") - Tally(s.outbox, "ok")
            && s'.sentFailed - s.sentFailed == Tally(s'.outbox, "failed") - Tally(s.outbox, "failed")
            && s'.rejected == s.rejected && RejectedIn(s'.outbox) == RejectedIn(s.outbox)
  {
    if id in s.pending {
      var p := Folded(s.pending[id], code);
      StatusIs(id, p);
      TallyAppend(s.outbox, Resolution(id, p), "ok");
      TallyAppend(s.outbox, Resolution(id, p), "failed");
    }
  }

  /** Each counter is the number of outbox entries it stands for, in every run. */
  lemma {:induction false} CountersAreTallies(steps: seq<Step>)
    ensures var s := Run(steps);
            && s.sentOk == Tally(s.outbox, "ok")
            && s.sentFailed == Tally(s.outbox, "failed")
            && s.rejected == RejectedIn(s.outbox)
  {
    if steps != [] {
      CountersAreTallies(steps[..|steps| - 1]);
      match steps[|steps| - 1]
      case Sent(r) => SendTallies(Run(steps[..|steps| - 1]), r);
      case Part(id, code) => PartTallies(Run(steps[..|steps| - 1]), id, code);
    }
  }

  lemma {:induction false} NoFailuresIff(codes: seq<int>)
    ensures Failures(codes) == 0 <==> forall i :: 0 <= i < |codes| ==> codes[i] == -1
  {
    if codes != [] {
      NoFailuresIff(codes[..|codes| - 1]);
      assert codes == codes[..|codes| - 1] + [codes[|codes| - 1]];
    }
  }

  /**
   * The verdict of an accepted send, once all its parts have reported: "ok" if and
   * only if every one of its first results is -1, and "failed" otherwise; with as
   * many failed parts as results that are not, and the names of those as errors.
   */
  lemma VerdictIff(steps: seq<Step>, id: string)
    requires DistinctIds(steps) && RequestFor(steps, id).Some?
    requires |CodesFor(steps, id)| >= RequestFor(steps, id).value.parts
    ensures var parts := RequestFor(steps, id).value.parts;
            var codes := CodesFor(steps, id)[..parts];
            var resolved := ResolvedFor(Run(steps).outbox, id);
            && |resolved| == 1 && resolved[0].Resolved? && resolved[0].id == id
            && (resolved[0].status == "ok" <==> forall i :: 0 <= i < parts ==> codes[i] == -1)
            && (resolved[0].status == "failed" <==> exists i :: 0 <= i < parts && codes[i] != -1)
            && resolved[0].ok + resolved[0].failed == parts
            && resolved[0].failed == Failures(codes)
            && (forall e :: e in resolved[0].errors <==> FailsAs(codes, e))
            && Distinct(resolved[0].errors)
  {
    var r := RequestFor(steps, id).value;
    var codes := CodesFor(steps, id)[..r.parts];
    EverySendResolvesOnce(steps, id);
    FoldCounts(Opened(r), codes);
    NoFailuresIff(codes);
    StatusIs(id, FoldAll(Opened(r), codes));
  }

  /** Why ids must be distinct: a second send under a pending id takes the first one's record. */
  lemma ReusedIdLosesASend(r: Request)
    requires RejectReason(r).None? && r.radioTakesIt
    ensures var s := Run([Sent(r)] + [Sent(r)]);
            s.sentOk + s.sentFailed + |s.pending| == 1 && AcceptedCount([Sent(r)] + [Sent(r)]) == 2
  {
    var one := [Sent(r)];
    assert one[..0] == [] && (one + one)[..1] == one;
    assert Run([]) == START;
    assert Run(one).pending == map[r.id := Opened(r)];
    assert Run(one + one).pending == map[r.id := Opened(r)];
    assert map[r.id := Opened(r)].Keys == {r.id};
    assert |map[r.id := Opened(r)]| == |map[r.id := Opened(r)].Keys|;
    assert AcceptedCount(one) == 1;
  }
}

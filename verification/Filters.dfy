/** Notification filters (filters.py): which events a client should announce. */
module Filters {
  import opened Prelude
  import opened EventStore

  datatype Mode = Allow | Deny

  datatype Rule = Rule(
    name: string,
    mode: Mode,
    enabled: bool,
    unit: seq<string>,
    kind: seq<string>,
    sender: seq<string>,
    contains: seq<string>,
    matches: seq<string>)

  /** Lower-casing, globbing, substring and regular-expression search, as given. */
  datatype Text = Text(
    lower: string -> string,
    glob: (string, string) -> bool,
    within: (string, string) -> bool,
    search: (string, string) -> bool)

  predicate ListsLowered(t: Text, values: seq<string>, value: string) {
    exists v :: v in values && t.lower(v) == t.lower(value)
  }

  predicate MatchesSender(t: Text, address: Option<string>, patterns: seq<string>) {
    address.Some? && exists p :: p in patterns && t.glob(t.lower(address.value), t.lower(p))
  }

  predicate MatchesBody(t: Text, r: Rule, body: Option<string>) {
    if r.contains == [] && r.matches == [] then true
    else
      && body.Some?
      && (r.contains == [] || exists n :: n in r.contains && t.within(t.lower(n), t.lower(body.value)))
      && (r.matches == [] || exists p :: p in r.matches && t.search(p, body.value))
  }

  predicate MatchesEvent(t: Text, r: Rule, e: Event) {
    && r.enabled
    && (r.unit == [] || ListsLowered(t, r.unit, e.unit))
    && (r.kind == [] || ListsLowered(t, r.kind, e.kind))
    && (r.sender == [] || MatchesSender(t, e.address, r.sender))
    && MatchesBody(t, r, e.body)
  }

  predicate Applicable(t: Text, r: Rule, e: Event) {
    r.enabled && r.mode == Allow && (r.kind == [] || ListsLowered(t, r.kind, e.kind))
  }

  predicate Denies(t: Text, r: Rule, e: Event) {
    r.enabled && r.mode == Deny && MatchesEvent(t, r, e)
  }

  predicate Allows(t: Text, r: Rule, e: Event) {
    Applicable(t, r, e) && MatchesEvent(t, r, e)
  }

  function First(rules: seq<Rule>, p: Rule -> bool): (found: Option<Rule>)
    ensures found.Some? ==> found.value in rules && p(found.value)
    ensures found.None? ==> forall r :: r in rules ==> !p(r)
  {
    if rules == [] then None else if p(rules[0]) then Some(rules[0]) else First(rules[1..], p)
  }

  function ShouldPush(t: Text, e: Event, rules: seq<Rule>): (bool, Option<Rule>) {
    var deny := First(rules, r => Denies(t, r, e));
    if deny.Some? then (false, deny)
    else
      var allow := First(rules, r => Allows(t, r, e));
      if allow.Some? then (true, allow)
      else
        var applicable := First(rules, r => Applicable(t, r, e));
        if applicable.Some? then (false, applicable) else (true, None)
  }

  /** The verdict, stated without any order: nothing denies, and if anything could allow, something does. */
  lemma VerdictIff(t: Text, e: Event, rules: seq<Rule>)
    ensures ShouldPush(t, e, rules).0 <==>
            && (forall r :: r in rules ==> !Denies(t, r, e))
            && ((exists r :: r in rules && Allows(t, r, e)) || forall r :: r in rules ==> !Applicable(t, r, e))
  {
    var deny := First(rules, r => Denies(t, r, e));
    var allow := First(rules, r => Allows(t, r, e));
    var applicable := First(rules, r => Applicable(t, r, e));
  }

  /**
   * When a rule matches, exactly: it is enabled, and each of its conditions that is
   * not empty is met, names and senders whatever their case; a condition on the
   * body is never met by an event that has none.
   */
  lemma MatchesIff(t: Text, r: Rule, e: Event)
    ensures MatchesEvent(t, r, e) <==>
            && r.enabled
            && (r.unit == [] || exists v :: v in r.unit && t.lower(v) == t.lower(e.unit))
            && (r.kind == [] || exists v :: v in r.kind && t.lower(v) == t.lower(e.kind))
            && (r.sender == [] || (e.address.Some? && exists p :: p in r.sender && t.glob(t.lower(e.address.value), t.lower(p))))
            && (r.contains == [] || (e.body.Some? && exists n :: n in r.contains && t.within(t.lower(n), t.lower(e.body.value))))
            && (r.matches == [] || (e.body.Some? && exists p :: p in r.matches && t.search(p, e.body.value)))
  {}

  /**
   * The rule that decides: a silenced event names a deny rule that matches it or,
   * where none does, an allow rule for its kind while no allow rule matches; an
   * announced one names an allow rule that matches it, or none where none is for
   * its kind.
   */
  lemma DecidingRule(t: Text, e: Event, rules: seq<Rule>)
    ensures var (push, rule) := ShouldPush(t, e, rules);
            && (rule.Some? ==> rule.value in rules && rule.value.enabled)
            && (push && rule.Some? ==> rule.value.mode == Allow && MatchesEvent(t, rule.value, e))
            && (push && rule.None? ==>
                  forall r :: r in rules && r.enabled && r.mode == Allow ==>
                    r.kind != [] && forall v :: v in r.kind ==> t.lower(v) != t.lower(e.kind))
            && (!push ==>
                  && rule.Some?
                  && (rule.value.mode == Deny ==> MatchesEvent(t, rule.value, e))
                  && (rule.value.mode == Allow ==>
                        forall r :: r in rules ==> !MatchesEvent(t, r, e)))
  {
    var deny := First(rules, r => Denies(t, r, e));
    var allow := First(rules, r => Allows(t, r, e));
    var applicable := First(rules, r => Applicable(t, r, e));
    forall r | r in rules && deny.None? && allow.None?
      ensures !MatchesEvent(t, r, e)
    {
      assert !Denies(t, r, e) && !Allows(t, r, e);
    }
  }

  /** The verdict does not depend on the order the rules are written in. */
  lemma VerdictIgnoresOrder(t: Text, e: Event, rules: seq<Rule>, permuted: seq<Rule>)
    requires multiset(rules) == multiset(permuted)
    ensures ShouldPush(t, e, rules).0 == ShouldPush(t, e, permuted).0
  {
    SameMembers(rules, permuted);
    VerdictIff(t, e, rules);
    VerdictIff(t, e, permuted);
  }

  lemma SameMembers(rules: seq<Rule>, permuted: seq<Rule>)
    requires multiset(rules) == multiset(permuted)
    ensures forall r :: r in rules <==> r in permuted
  {
    forall r
      ensures r in rules <==> r in permuted
    {
      assert r in multiset(rules) <==> r in multiset(permuted);
    }
  }

  /** Adding a deny rule, anywhere, never makes a silenced event announced; a disabled rule changes nothing. */
  lemma AddedRuleEffects(t: Text, e: Event, before: seq<Rule>, added: Rule, after: seq<Rule>)
    ensures added.mode == Deny && ShouldPush(t, e, before + [added] + after).0 ==> ShouldPush(t, e, before + after).0
    ensures !added.enabled ==> ShouldPush(t, e, before + [added] + after).0 == ShouldPush(t, e, before + after).0
  {
    VerdictIff(t, e, before + [added] + after);
    VerdictIff(t, e, before + after);
    forall r
      ensures r in before + [added] + after <==> r == added || r in before + after
    {}
    if !added.enabled {
      assert !Denies(t, added, e) && !Allows(t, added, e) && !Applicable(t, added, e);
    }
  }
}

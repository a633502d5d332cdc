/**
The stateful permission evaluator: approval rules, some good for one decision only, and pending requests.

The text of the arguments (stable JSON) is a function parameter, and so are the patterns that a new request gets. The
id of a request is a digest of all that is in it but its time of creation, so a request stands for its own id.
*/
module PermissionBroker {
  import opened PermissionConfig
  import opened Options

  type Args = map<string, string>

  datatype Context = Context(session: Option<string>, resource: string, risk: string, metadata: map<string, string>)

  datatype Scope = Once | Always

  /** An empty tool id or category is an absent one. */
  datatype BrokerRule = BrokerRule(action: Action, toolId: string, category: string, patterns: seq<string>,
                                   scope: Scope, reason: string)

  /** `context` is all else that goes into a request: session, resource, risk and further metadata. */
  datatype Request = Request(toolId: string, category: string, args: Args, patterns: seq<string>, reason: string,
                             context: Context)

  datatype Decision = Allowed(reason: string) | Refused(reason: string) | Asked(request: Request)

  /** A tool call with the permission metadata of its tool, patterns included if it has any. */
  datatype ToolCall = ToolCall(toolId: string, category: string, args: Args, action: Action, reason: string,
                               patterns: seq<string>, context: Context)

  /** The environment: how arguments read as text; the patterns of a request for a call whose metadata has none; the
      subject of a call; and how a value that is not text prints. */
  datatype Reading = Reading(text: Args -> string, patterns: ToolCall -> seq<string>,
                             subject: ToolCall -> Option<string>, show: Raw -> string)

  function RequestPatterns(call: ToolCall, reading: Reading): seq<string> {
    if call.patterns != [] then call.patterns else reading.patterns(call)
  }

  datatype Broker = Broker(rules: seq<BrokerRule>, pending: seq<Request>)

  const UNKNOWN_ACTION := "Unknown permission action"

  function Or(a: string, b: string): string {
    if a == "" then b else a
  }

  // Matching

  predicate OccursAt(pattern: string, text: string, i: nat) {
    i + |pattern| <= |text| && text[i..i + |pattern|] == pattern
  }

  predicate Occurs(pattern: string, text: string) {
    exists i :: 0 <= i <= |text| && OccursAt(pattern, text, i)
  }

  /** No pattern at all fits everything. */
  predicate Fits(patterns: seq<string>, text: string) {
    patterns == [] || exists p <- patterns :: p == "*" || Occurs(p, text)
  }

  predicate RuleMatches(rule: BrokerRule, call: ToolCall, text: string) {
    && (rule.toolId == "" || rule.toolId == call.toolId)
    && (rule.category == "" || rule.category == call.category)
    && Fits(rule.patterns, text)
  }

  /** How many rules come before the last that matches, plus one; 0 if none does. */
  function LastMatch(rules: seq<BrokerRule>, call: ToolCall, text: string): (n: nat)
    ensures n <= |rules|
    ensures n > 0 ==> RuleMatches(rules[n - 1], call, text)
    ensures forall i :: n <= i < |rules| ==> !RuleMatches(rules[i], call, text)
  {
    if rules == [] then 0
    else if RuleMatches(rules[|rules| - 1], call, text) then |rules|
    else LastMatch(rules[..|rules| - 1], call, text)
  }

  predicate SameCall(request: Request, call: ToolCall) {
    request.toolId == call.toolId && request.category == call.category && request.args == call.args
  }

  function PendingFor(pending: seq<Request>, call: ToolCall): Option<Request> {
    if pending == [] then None
    else if SameCall(pending[0], call) then Some(pending[0])
    else PendingFor(pending[1..], call)
  }

  // Operations

  function Requested(b: Broker, call: ToolCall, reason: string, patterns: seq<string>): (Broker, Decision) {
    var request := Request(call.toolId, call.category, call.args, patterns, Or(reason, call.reason), call.context);
    (if request in b.pending then b else b.(pending := b.pending + [request]), Asked(request))
  }

  function ByRule(rule: BrokerRule): Decision {
    if rule.action == Allow then Allowed(rule.reason)
    else if rule.action == Deny then Refused(Or(rule.reason, "Tool execution denied."))
    else Refused(UNKNOWN_ACTION)
  }

  function WithoutRule(rules: seq<BrokerRule>, n: nat): seq<BrokerRule>
    requires 0 < n <= |rules|
  {
    if rules[n - 1].scope == Once then rules[..n - 1] + rules[n..] else rules
  }

  function Evaluated(b: Broker, call: ToolCall, reading: Reading): (Broker, Decision) {
    var n := LastMatch(b.rules, call, reading.text(call.args));
    if n > 0 then
      var rule := b.rules[n - 1];
      var left := b.(rules := WithoutRule(b.rules, n));
      if rule.action == Action.Ask then Requested(left, call, Or(rule.reason, call.reason), rule.patterns)
      else (left, ByRule(rule))
    else if PendingFor(b.pending, call).Some? then (b, Asked(PendingFor(b.pending, call).value))
    else match call.action
      case Allow => (b, Allowed(call.reason))
      case Deny => (b, Refused(Or(call.reason, "Tool execution denied.")))
      case Ask =>
        Requested(b, call, Or(call.reason, "Tool execution requires permission."), RequestPatterns(call, reading))
      case Unknown => (b, Refused(UNKNOWN_ACTION))
  }

  function RuleFrom(request: Request, action: Action, always: bool, reason: string, reading: Reading): BrokerRule {
    BrokerRule(action, request.toolId, request.category,
               if always || request.patterns != [] then request.patterns else [reading.text(request.args)],
               if always then Always else Once, Or(reason, request.reason))
  }

  function Without(pending: seq<Request>, request: Request): seq<Request> {
    if pending == [] then []
    else if pending[0] == request then pending[1..]
    else [pending[0]] + Without(pending[1..], request)
  }

  /** A pending request is answered: it goes, and leaves a rule. */
  function Answered(b: Broker, request: Request, rule: BrokerRule): Broker {
    Broker(b.rules + [rule], Without(b.pending, request))
  }

  // Conservation

  function OnceRules(rules: seq<BrokerRule>): nat {
    if rules == [] then 0
    else OnceRules(rules[..|rules| - 1]) + if rules[|rules| - 1].scope == Once then 1 else 0
  }

  lemma {:induction false} OnceRulesAppend(a: seq<BrokerRule>, b: seq<BrokerRule>)
    ensures OnceRules(a + b) == OnceRules(a) + OnceRules(b)
  {
    if b == [] {
      assert a + b == a;
    } else {
      assert (a + b)[..|a + b| - 1] == a + b[..|b| - 1];
      OnceRulesAppend(a, b[..|b| - 1]);
    }
  }

  lemma OnceRulesOfOneMore(rules: seq<BrokerRule>, rule: BrokerRule)
    ensures OnceRules(rules + [rule]) == OnceRules(rules) + if rule.scope == Once then 1 else 0
  {
    assert (rules + [rule])[..|rules|] == rules;
  }

  lemma RemoveOnceRule(rules: seq<BrokerRule>, n: nat)
    requires 0 < n <= |rules| && rules[n - 1].scope == Once
    ensures OnceRules(rules[..n - 1] + rules[n..]) + 1 == OnceRules(rules)
  {
    assert rules[..n - 1] + [rules[n - 1]] + rules[n..] == rules;
    OnceRulesAround(rules[..n - 1], rules[n - 1], rules[n..]);
  }

  lemma OnceRulesAround(a: seq<BrokerRule>, rule: BrokerRule, b: seq<BrokerRule>)
    requires rule.scope == Once
    ensures OnceRules(a + [rule] + b) == OnceRules(a + b) + 1
  {
    OnceRulesAppend(a, b);
    OnceRulesOfOneMore(a, rule);
    OnceRulesAppend(a + [rule], b);
  }

  /** A rule good for one decision goes with the decision that it makes, and no other rule changes. */
  lemma EvaluateUsesUpOnce(b: Broker, call: ToolCall, reading: Reading)
    ensures var n := LastMatch(b.rules, call, reading.text(call.args));
      var rules := Evaluated(b, call, reading).0.rules;
      && (n > 0 && b.rules[n - 1].scope == Once ==>
            rules == b.rules[..n - 1] + b.rules[n..] && OnceRules(rules) + 1 == OnceRules(b.rules))
      && (n == 0 || b.rules[n - 1].scope == Always ==> rules == b.rules)
  {
    var n := LastMatch(b.rules, call, reading.text(call.args));
    if n > 0 && b.rules[n - 1].scope == Once {
      RemoveOnceRule(b.rules, n);
    }
  }

  predicate DistinctPending(pending: seq<Request>) {
    forall i, j :: 0 <= i < j < |pending| ==> pending[i] != pending[j]
  }

  lemma {:induction false} PendingForIsPending(pending: seq<Request>, call: ToolCall)
    ensures var found := PendingFor(pending, call);
      found.Some? ==> found.value in pending && SameCall(found.value, call)
    ensures PendingFor(pending, call).None? ==> forall r <- pending :: !SameCall(r, call)
  {
    if pending != [] {
      PendingForIsPending(pending[1..], call);
    }
  }

  /** Whoever is asked is asked about a request that is pending, and that is for this call. */
  lemma AskedIsPending(b: Broker, call: ToolCall, reading: Reading)
    ensures var (after, decision) := Evaluated(b, call, reading);
      && (decision.Asked? ==> decision.request in after.pending && SameCall(decision.request, call))
      && (after.pending == b.pending || (decision.Asked? && after.pending == b.pending + [decision.request]))
      && (DistinctPending(b.pending) ==> DistinctPending(after.pending))
  {
    PendingForIsPending(b.pending, call);
  }

  lemma DistinctTail(pending: seq<Request>)
    requires DistinctPending(pending) && pending != []
    ensures DistinctPending(pending[1..]) && pending[0] !in pending[1..]
  {
    assert forall i :: 0 <= i < |pending| - 1 ==> pending[1..][i] == pending[i + 1];
  }

  lemma {:induction false} WithoutOne(pending: seq<Request>, request: Request)
    requires request in pending && DistinctPending(pending)
    ensures var left := Without(pending, request);
      |left| == |pending| - 1 && DistinctPending(left) && forall r :: r in left <==> r in pending && r != request
  {
    DistinctTail(pending);
    if pending[0] != request {
      WithoutOne(pending[1..], request);
    }
  }

  // Which decision it is

  /** A pattern fits a text if it is a star, or stands somewhere in it. */
  ghost predicate PatternFits(p: string, text: string) {
    p == "*" || exists a, b :: text == a + p + b
  }

  /** The rule is for the tool and the category of the call, or for any, and one of its patterns fits, if it has
      some. */
  ghost predicate IsFor(rule: BrokerRule, call: ToolCall, text: string) {
    && (rule.toolId == "" || rule.toolId == call.toolId)
    && (rule.category == "" || rule.category == call.category)
    && (rule.patterns == [] || exists j :: 0 <= j < |rule.patterns| && PatternFits(rule.patterns[j], text))
  }

  /** The rule at `n` applies, and none behind it does. */
  ghost predicate AppliesLast(rules: seq<BrokerRule>, n: nat, call: ToolCall, text: string) {
    n < |rules| && IsFor(rules[n], call, text) && forall i :: n < i < |rules| ==> !IsFor(rules[i], call, text)
  }

  ghost predicate NoneApplies(rules: seq<BrokerRule>, call: ToolCall, text: string) {
    forall i :: 0 <= i < |rules| ==> !IsFor(rules[i], call, text)
  }

  /** A request is pending for this tool, this category and these arguments. */
  predicate IsPending(pending: seq<Request>, call: ToolCall) {
    exists i :: 0 <= i < |pending| &&
      pending[i].toolId == call.toolId && pending[i].category == call.category && pending[i].args == call.args
  }

  /** A call may run if the last rule that applies allows it; or if none applies, no such call is pending, and the
      call's own action allows it. */
  ghost predicate MayRun(rules: seq<BrokerRule>, pending: seq<Request>, call: ToolCall, text: string) {
    || (exists n :: 0 <= n < |rules| && AppliesLast(rules, n, call, text) && rules[n].action == Allow)
    || (NoneApplies(rules, call, text) && !IsPending(pending, call) && call.action == Allow)
  }

  lemma PatternFitsIff(p: string, text: string)
    ensures PatternFits(p, text) <==> p == "*" || Occurs(p, text)
  {
    if a, b :| text == a + p + b {
      assert OccursAt(p, text, |a|);
    }
    if i :| 0 <= i <= |text| && OccursAt(p, text, i) {
      assert text == text[..i] + p + text[i + |p|..];
    }
  }

  lemma IsForIff(rule: BrokerRule, call: ToolCall, text: string)
    ensures RuleMatches(rule, call, text) <==> IsFor(rule, call, text)
  {
    forall p: string ensures PatternFits(p, text) <==> p == "*" || Occurs(p, text) {
      PatternFitsIff(p, text);
    }
    forall j | 0 <= j < |rule.patterns| && PatternFits(rule.patterns[j], text) ensures Fits(rule.patterns, text) {
      assert rule.patterns[j] in rule.patterns;
    }
  }

  lemma AppliesLastIff(rules: seq<BrokerRule>, call: ToolCall, text: string)
    ensures var n := LastMatch(rules, call, text);
      if n == 0 then NoneApplies(rules, call, text) else AppliesLast(rules, n - 1, call, text)
    ensures forall n: nat :: AppliesLast(rules, n, call, text) ==> LastMatch(rules, call, text) == n + 1
  {
    forall rule ensures RuleMatches(rule, call, text) <==> IsFor(rule, call, text) {
      IsForIff(rule, call, text);
    }
  }

  /** The last rule that applies decides: it allows, refuses or asks, each with its reason or else the one there is for
      want of it. */
  lemma LastRuleDecides(b: Broker, call: ToolCall, reading: Reading, n: nat)
    requires AppliesLast(b.rules, n, call, reading.text(call.args))
    ensures var rule := b.rules[n];
      var (after, decision) := Evaluated(b, call, reading);
      && after.rules == (if rule.scope == Once then b.rules[..n] + b.rules[n + 1..] else b.rules)
      && match rule.action
         case Allow => decision == Allowed(rule.reason) && after.pending == b.pending
         case Deny =>
           && decision == Refused(if rule.reason != "" then rule.reason else "Tool execution denied.")
           && after.pending == b.pending
         case Unknown => decision == Refused("Unknown permission action") && after.pending == b.pending
         case Ask => && decision.Asked? && decision.request in after.pending
                     && decision.request.patterns == rule.patterns && decision.request.args == call.args
                     && decision.request.toolId == call.toolId && decision.request.category == call.category
                     && decision.request.context == call.context
                     && decision.request.reason == if rule.reason != "" then rule.reason else call.reason
  {
    AppliesLastIff(b.rules, call, reading.text(call.args));
  }

  lemma IsPendingIff(pending: seq<Request>, call: ToolCall)
    ensures IsPending(pending, call) <==> PendingFor(pending, call).Some?
  {
    PendingForIsPending(pending, call);
    forall i | 0 <= i < |pending| ensures SameCall(pending[i], call) ==> PendingFor(pending, call).Some? {
      assert pending[i] in pending;
    }
  }

  /** Without a rule that applies, a pending request for the call is asked about again, and otherwise the call's own
      action decides. */
  lemma CallDecides(b: Broker, call: ToolCall, reading: Reading)
    requires NoneApplies(b.rules, call, reading.text(call.args))
    ensures var (after, decision) := Evaluated(b, call, reading);
      && after.rules == b.rules
      && if IsPending(b.pending, call) then
           && after == b && decision.Asked? && decision.request in b.pending
           && decision.request.toolId == call.toolId && decision.request.category == call.category
           && decision.request.args == call.args
         else
           match call.action
           case Allow => decision == Allowed(call.reason) && after == b
           case Deny =>
             decision == Refused(if call.reason != "" then call.reason else "Tool execution denied.") && after == b
           case Unknown => decision == Refused("Unknown permission action") && after == b
           case Ask =>
             && decision.Asked? && after.pending == b.pending + [decision.request]
             && decision.request.toolId == call.toolId && decision.request.category == call.category
             && decision.request.args == call.args && decision.request.context == call.context
             && decision.request.patterns == (if call.patterns != [] then call.patterns else reading.patterns(call))
             && decision.request.reason ==
                  if call.reason != "" then call.reason else "Tool execution requires permission."
  {
    AppliesLastIff(b.rules, call, reading.text(call.args));
    IsPendingIff(b.pending, call);
    PendingForIsPending(b.pending, call);
  }

  /** So a call runs only if it may. */
  lemma AllowedIffMayRun(b: Broker, call: ToolCall, reading: Reading)
    ensures Evaluated(b, call, reading).1.Allowed? <==> MayRun(b.rules, b.pending, call, reading.text(call.args))
  {
    var text := reading.text(call.args);
    AppliesLastIff(b.rules, call, text);
    var n := LastMatch(b.rules, call, text);
    if n > 0 {
      LastRuleDecides(b, call, reading, n - 1);
    } else {
      CallDecides(b, call, reading);
    }
  }

  // Rejection

  /** Right after a rejection for once, the same call is refused, with its reason, if the request's patterns fit the
      call's arguments, and then the rules are what they were before it; otherwise the rejection does not apply. */
  lemma RejectedOnceIsRefusedOnce(b: Broker, request: Request, call: ToolCall, reading: Reading, reason: string)
    requires request in b.pending && SameCall(request, call) && reason != ""
    ensures var rule := RuleFrom(request, Deny, false, reason, reading);
      var text := reading.text(call.args);
      var (after, decision) := Evaluated(Answered(b, request, rule), call, reading);
      if request.patterns == [] || exists j :: 0 <= j < |request.patterns| && PatternFits(request.patterns[j], text)
      then decision == Refused(reason) && after == Broker(b.rules, Without(b.pending, request))
      else !IsFor(rule, call, text)
  {
    var rule := RuleFrom(request, Deny, false, reason, reading);
    var text := reading.text(call.args);
    assert request.patterns == [] ==> rule.patterns == [text];
    assert text == [] + text + [];
    assert request.patterns == [] ==> PatternFits(rule.patterns[0], text);
    if IsFor(rule, call, text) {
      RuleBehindDecides(b, request, call, reading, rule);
    }
  }

  lemma RuleBehindDecides(b: Broker, request: Request, call: ToolCall, reading: Reading, rule: BrokerRule)
    requires IsFor(rule, call, reading.text(call.args)) && rule.scope == Once && rule.action == Deny
    requires rule.reason != ""
    ensures Evaluated(Answered(b, request, rule), call, reading) ==
            (Broker(b.rules, Without(b.pending, request)), Refused(rule.reason))
  {
    var rejected := Answered(b, request, rule);
    assert AppliesLast(rejected.rules, |b.rules|, call, reading.text(call.args));
    LastRuleDecides(rejected, call, reading, |b.rules|);
    assert rejected.rules[..|b.rules|] + rejected.rules[|b.rules| + 1..] == b.rules;
  }

  /** After a rejection for always, a call that fits is refused, again and again, whatever is asked and answered later,
      until a rule applies that was added behind it. */
  lemma RejectedAlwaysStays(b: Broker, request: Request, call: ToolCall, reading: Reading, reason: string,
                            later: seq<BrokerRule>, pending: seq<Request>)
    requires SameCall(request, call) && reason != ""
    requires var text := reading.text(call.args);
      request.patterns == [] || exists j :: 0 <= j < |request.patterns| && PatternFits(request.patterns[j], text)
    requires NoneApplies(later, call, reading.text(call.args))
    ensures var rejected := Answered(b, request, RuleFrom(request, Deny, true, reason, reading));
      var now := Broker(rejected.rules + later, pending);
      Evaluated(now, call, reading) == (now, Refused(reason))
  {
    var rule := RuleFrom(request, Deny, true, reason, reading);
    var rules := b.rules + [rule] + later;
    var text := reading.text(call.args);
    assert rules[|b.rules|] == rule && IsFor(rule, call, text);
    forall i | |b.rules| < i < |rules| ensures !IsFor(rules[i], call, text) {
      assert rules[i] == later[i - |b.rules| - 1];
    }
    LastRuleDecides(Broker(rules, pending), call, reading, |b.rules|);
  }

  // Approval

  lemma OccursInItself(text: string)
    ensures Occurs(text, text)
  {
    assert OccursAt(text, text, 0);
  }

  /** Right after an approval for once, the same call is allowed by it exactly if the request's patterns fit the call's
      arguments; and then the approval is used up: the rules are what they were before it. */
  lemma ApprovedOnceIsAllowedOnce(b: Broker, request: Request, call: ToolCall, reading: Reading)
    requires request in b.pending && SameCall(request, call)
    ensures var approved := Answered(b, request, RuleFrom(request, Allow, false, "", reading));
      var (after, decision) := Evaluated(approved, call, reading);
      && (Fits(request.patterns, reading.text(call.args)) <==>
            LastMatch(approved.rules, call, reading.text(call.args)) == |approved.rules|)
      && (Fits(request.patterns, reading.text(call.args)) ==>
            decision == Allowed(request.reason) && after == Broker(b.rules, Without(b.pending, request)))
  {
    var rule := RuleFrom(request, Allow, false, "", reading);
    var approved := Answered(b, request, rule);
    OccursInItself(reading.text(call.args));
    assert request.patterns == [] ==> reading.text(call.args) in rule.patterns;
    assert RuleMatches(rule, call, reading.text(call.args)) <==> Fits(request.patterns, reading.text(call.args));
    assert approved.rules[|approved.rules| - 1] == rule;
    assert approved.rules[..|b.rules|] + [] == b.rules;
  }

  /** After an approval for always, a call that fits is allowed, again and again. */
  lemma ApprovedAlwaysStays(b: Broker, request: Request, call: ToolCall, reading: Reading)
    requires SameCall(request, call) && Fits(request.patterns, reading.text(call.args))
    ensures var approved := Answered(b, request, RuleFrom(request, Allow, true, "", reading));
      Evaluated(approved, call, reading) == (approved, Allowed(request.reason))
  {
    var rule := RuleFrom(request, Allow, true, "", reading);
    var approved := Answered(b, request, rule);
    assert approved.rules[|approved.rules| - 1] == rule;
  }

  class PermissionBroker {
    var rules: seq<BrokerRule>
    var pending: seq<Request>
    const reading: Reading

    /** What has happened: rules added that are good for one decision, and decisions such rules made; requests created,
        approved and denied. */
    ghost var onceAdded: nat
    ghost var onceDecided: nat
    ghost var created: nat
    ghost var approved: nat
    ghost var denied: nat

    ghost function Contents(): Broker
      reads this
    {
      Broker(rules, pending)
    }

    ghost predicate Valid()
      reads this
    {
      && onceAdded == OnceRules(rules) + onceDecided
      && created == |pending| + approved + denied
      && DistinctPending(pending)
    }

    constructor (rules: seq<BrokerRule>, reading: Reading)
      ensures Valid() && Contents() == Broker(rules, []) && this.reading == reading
    {
      this.rules, pending, this.reading := rules, [], reading;
      onceAdded, onceDecided, created, approved, denied := OnceRules(rules), 0, 0, 0, 0;
    }

    method AddRule(rule: BrokerRule)
      requires Valid()
      modifies this`rules, this`onceAdded
      ensures Valid() && rules == old(rules) + [rule]
    {
      OnceRulesOfOneMore(rules, rule);
      onceAdded := onceAdded + if rule.scope == Once then 1 else 0;
      rules := rules + [rule];
    }

    /** The last rule that matches; it goes if it was good for one decision. */
    method MatchingRule(call: ToolCall) returns (rule: Option<BrokerRule>)
      requires Valid()
      modifies this
      ensures Valid() && pending == old(pending) && created == old(created)
      ensures approved == old(approved) && denied == old(denied)
      ensures var n := LastMatch(old(rules), call, reading.text(call.args));
        if n == 0 then rule == None && rules == old(rules)
        else rule == Some(old(rules)[n - 1]) && rules == WithoutRule(old(rules), n)
      ensures onceDecided == old(onceDecided) + if rule.Some? && rule.value.scope == Once then 1 else 0
      ensures onceAdded == old(onceAdded)
    {
      var text := reading.text(call.args);
      var n := |rules|;
      assert rules[..n] == rules;
      while n > 0 && !RuleMatches(rules[n - 1], call, text)
        invariant 0 <= n <= |rules|
        invariant LastMatch(rules[..n], call, text) == LastMatch(rules, call, text)
      {
        assert rules[..n][..n - 1] == rules[..n - 1];
        n := n - 1;
      }
      if n == 0 {
        return None;
      }
      rule := Some(rules[n - 1]);
      if rule.value.scope == Once {
        RemoveOnceRule(rules, n);
        rules := rules[..n - 1] + rules[n..];
        onceDecided := onceDecided + 1;
      }
    }

    method MatchingPending(call: ToolCall) returns (request: Option<Request>)
      ensures request == PendingFor(pending, call)
    {
      var i := 0;
      assert pending[0..] == pending;
      while i < |pending|
        invariant 0 <= i <= |pending| && PendingFor(pending[i..], call) == PendingFor(pending, call)
      {
        assert pending[i..][1..] == pending[i + 1..];
        if SameCall(pending[i], call) {
          return Some(pending[i]);
        }
        i := i + 1;
      }
      request := None;
    }

    method NewRequest(call: ToolCall, reason: string, patterns: seq<string>) returns (decision: Decision)
      requires Valid()
      modifies this
      ensures Valid() && (Contents(), decision) == Requested(old(Contents()), call, reason, patterns)
      ensures onceAdded == old(onceAdded) && onceDecided == old(onceDecided)
      ensures approved == old(approved) && denied == old(denied)
    {
      var request := Request(call.toolId, call.category, call.args, patterns, Or(reason, call.reason), call.context);
      if request !in pending {
        pending := pending + [request];
        created := created + 1;
      }
      decision := Asked(request);
    }

    method Evaluate(call: ToolCall) returns (decision: Decision)
      requires Valid()
      modifies this
      ensures Valid() && (Contents(), decision) == Evaluated(old(Contents()), call, reading)
      ensures decision.Asked? ==> decision.request in pending
      ensures decision.Allowed? <==> MayRun(old(rules), old(pending), call, reading.text(call.args))
      ensures onceAdded == old(onceAdded) && approved == old(approved) && denied == old(denied)
    {
      AskedIsPending(Contents(), call, reading);
      AllowedIffMayRun(Contents(), call, reading);
      var rule := MatchingRule(call);
      if rule.Some? {
        if rule.value.action == Action.Ask {
          decision := NewRequest(call, Or(rule.value.reason, call.reason), rule.value.patterns);
        } else {
          decision := ByRule(rule.value);
        }
        return;
      }
      var request := MatchingPending(call);
      if request.Some? {
        return Asked(request.value);
      }
      match call.action
      case Allow => decision := Allowed(call.reason);
      case Deny => decision := Refused(Or(call.reason, "Tool execution denied."));
      case Ask =>
        decision := NewRequest(call, Or(call.reason, "Tool execution requires permission."),
                               RequestPatterns(call, reading));
      case Unknown => decision := Refused(UNKNOWN_ACTION);
    }

    method TakePending(request: Request) returns (found: bool)
      modifies this`pending
      ensures found <==> request in old(pending)
      ensures pending == if found then Without(old(pending), request) else old(pending)
    {
      found := request in pending;
      if found {
        pending := Without(pending, request);
      }
    }

    /** Approving an unknown request is an error. */
    method Approve(request: Request, always: bool) returns (decision: Option<Decision>)
      requires Valid()
      modifies this
      ensures Valid()
      ensures request !in old(pending) ==> decision == None && Contents() == old(Contents())
      ensures request in old(pending) ==>
        && decision == Some(Allowed("Permission approved.")) && approved == old(approved) + 1
        && Contents() == Answered(old(Contents()), request, RuleFrom(request, Allow, always, "", reading))
    {
      var found := TakePending(request);
      if !found {
        return None;
      }
      WithoutOne(old(pending), request);
      approved := approved + 1;
      AddRule(RuleFrom(request, Allow, always, "", reading));
      decision := Some(Allowed("Permission approved."));
    }

    method Reject(request: Request, always: bool, reason: string) returns (decision: Option<Decision>)
      requires Valid()
      modifies this
      ensures Valid()
      ensures request !in old(pending) ==> decision == None && Contents() == old(Contents())
      ensures request in old(pending) ==>
        && decision == Some(Refused(Or(reason, "Permission denied."))) && denied == old(denied) + 1
        && Contents() == Answered(old(Contents()), request,
                                  RuleFrom(request, Deny, always, Or(reason, "Permission denied."), reading))
    {
      var found := TakePending(request);
      if !found {
        return None;
      }
      WithoutOne(old(pending), request);
      denied := denied + 1;
      AddRule(RuleFrom(request, Deny, always, Or(reason, "Permission denied."), reading));
      decision := Some(Refused(Or(reason, "Permission denied.")));
    }
  }
}

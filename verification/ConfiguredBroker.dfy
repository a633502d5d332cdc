/**
The broker with a configuration: the rule that the configuration or the agent's overlay selects decides how the broker
is asked, and its reason, risk and patterns reach the decision.
*/
module ConfiguredBroker {
  import opened Dictionaries
  import opened Options
  import opened PermissionConfig
  import opened PermissionMerge
  import opened PermissionBroker
  import PermissionNormalize

  // What a rule says beside its action

  function Shown(raw: Raw, reading: Reading): string {
    if raw.Text? then raw.text else reading.show(raw)
  }

  /** The text under a key; "" if there is none, or null. */
  function TextOf(rule: Rule, key: string, reading: Reading): string {
    var raw := Field(rule.details, key);
    if raw.None? || raw.value.Null? then "" else Shown(raw.value, reading)
  }

  function ShownItems(items: seq<Raw>, reading: Reading): seq<string> {
    if items == [] then []
    else (if items[0].Null? then [] else [Shown(items[0], reading)]) + ShownItems(items[1..], reading)
  }

  function TextKeys(entries: Fields): seq<string> {
    if entries == [] then []
    else (if entries[0].0.Some? then [entries[0].0.value] else []) + TextKeys(entries[1..])
  }

  function Listed(raw: Raw, reading: Reading): seq<string> {
    match raw
    case Null => []
    case Sequence(items) => ShownItems(items, reading)
    case Mapping(entries) => TextKeys(entries)
    case _ => [Shown(raw, reading)]
  }

  /** A rule by subject has no patterns. */
  function PatternsOf(rule: Rule, reading: Reading): seq<string> {
    if rule.pattern.Some? then []
    else if Field(rule.details, "patterns").Some? then Listed(Field(rule.details, "patterns").value, reading)
    else if Field(rule.details, "pattern").Some? then Listed(Field(rule.details, "pattern").value, reading)
    else []
  }

  // The call that the broker is asked about

  datatype Source = RuntimeConfig | AgentOverlay

  function Label(source: Source): string {
    if source == RuntimeConfig then "runtime config" else "agent permission overlay"
  }

  function MatchName(t: MatchType): string {
    match t
    case Exact => "exact"
    case ExactSubject => "exact_subject"
    case Wildcard => "wildcard"
    case WildcardSubject => "wildcard_subject"
    case Category => "category"
    case CategorySubject => "category_subject"
    case Fallback => "fallback"
    case FallbackSubject => "fallback_subject"
  }

  type Metadata = map<string, string>

  function WithEntry(data: Metadata, key: string, value: Option<string>): Metadata {
    if value.Some? then data[key := value.value] else data
  }

  function MatchData(data: Metadata, m: Match, subject: Option<string>, source: Source): Metadata {
    var named := data["permission_config_key" := m.rule.key]["permission_config_match" := MatchName(m.matchType)];
    var sourced := WithEntry(named, "permission_config_source",
                             if source == AgentOverlay then Some("agent_permission_overlay") else None);
    if m.rule.pattern.None? then sourced
    else
      WithEntry(sourced["permission_config_subject_pattern" := m.rule.pattern.value], "permission_subject", subject)
  }

  function ReasonOf(call: ToolCall, rule: Rule, source: Source, reading: Reading): string {
    Or(TextOf(rule, "reason", reading),
       if rule.action == Deny then "Permission denied by " + Label(source) + ": " + rule.key else call.reason)
  }

  /** The call with the metadata that a selected rule gives it. */
  function WithMatch(call: ToolCall, m: Match, source: Source, reading: Reading): ToolCall {
    var patterns := PatternsOf(m.rule, reading);
    call.(action := m.rule.action,
          reason := ReasonOf(call, m.rule, source, reading),
          patterns := if patterns != [] then patterns else call.patterns,
          context := call.context.(
            risk := Or(TextOf(m.rule, "risk", reading), call.context.risk),
            metadata := MatchData(call.context.metadata, m, reading.subject(call), source)))
  }

  function AsCall(call: ToolCall, reading: Reading): Call {
    Call(call.toolId, call.category, reading.subject(call))
  }

  /** A denial by the configuration comes first, then what the overlay says, then what the configuration says. */
  function Configured(glob: Glob, rules: seq<Rule>, overlay: Option<seq<Rule>>, call: ToolCall, reading: Reading)
    : ToolCall
  {
    var chosen := Select(glob, rules, AsCall(call, reading));
    var over := if overlay.Some? then Select(glob, overlay.value, AsCall(call, reading)) else None;
    if chosen.Some? && chosen.value.rule.action == Deny then WithMatch(call, chosen.value, RuntimeConfig, reading)
    else if over.Some? then WithMatch(call, over.value, AgentOverlay, reading)
    else if chosen.Some? then WithMatch(call, chosen.value, RuntimeConfig, reading)
    else call
  }

  /** Nothing, an empty text and an empty sequence are taken for an empty configuration. */
  function OrEmpty(raw: Raw): Raw {
    if raw in [Null, Text(""), Sequence([]), Other(false)] then Mapping([]) else raw
  }

  function OverlayRules(overlay: Option<Raw>): PermissionNormalize.Result<Option<seq<Rule>>> {
    if overlay.None? || overlay.value.Null? then PermissionNormalize.Ok(None)
    else match PermissionNormalize.Normal(OrEmpty(overlay.value))
      case Ok(dict) => PermissionNormalize.Ok(Some(RulesOf(PermissionNormalize.Read(dict))))
      case Err(error) => PermissionNormalize.Err(error)
  }

  class ConfiguredPermissionBroker {
    const broker: PermissionBroker
    const rules: seq<Rule>
    const glob: Glob

    constructor (broker: PermissionBroker, rules: seq<Rule>, glob: Glob)
      ensures this.broker == broker && this.rules == rules && this.glob == glob
    {
      this.broker, this.rules, this.glob := broker, rules, glob;
    }

    /** An overlay that is not valid is an error, whatever the configuration says. */
    method Evaluate(call: ToolCall, overlay: Option<Raw>) returns (result: PermissionNormalize.Result<Decision>)
      requires broker.Valid()
      modifies broker
      ensures broker.Valid()
      ensures match OverlayRules(overlay)
        case Err(error) => result == PermissionNormalize.Err(error) && broker.Contents() == old(broker.Contents())
        case Ok(over) =>
          && result.Ok?
          && (broker.Contents(), result.value) ==
             Evaluated(old(broker.Contents()), Configured(glob, rules, over, call, broker.reading), broker.reading)
    {
      var over: Option<seq<Rule>> := None;
      if overlay.Some? && !overlay.value.Null? {
        var read := PermissionNormalize.ConfigRules(OrEmpty(overlay.value));
        if read.Err? {
          return PermissionNormalize.Err(read.error);
        }
        over := Some(read.value);
      }
      var reading := broker.reading;
      var chosen := Select(glob, rules, AsCall(call, reading));
      var agents := if over.Some? then Select(glob, over.value, AsCall(call, reading)) else None;
      var asked := call;
      if chosen.Some? && chosen.value.rule.action == Deny {
        asked := WithMatch(call, chosen.value, RuntimeConfig, reading);
      } else if agents.Some? {
        asked := WithMatch(call, agents.value, AgentOverlay, reading);
      } else if chosen.Some? {
        asked := WithMatch(call, chosen.value, RuntimeConfig, reading);
      }
      var decision := broker.Evaluate(asked);
      result := PermissionNormalize.Ok(decision);
    }
  }

  // What comes of it

  predicate NoRuleMatches(b: Broker, call: ToolCall, reading: Reading) {
    forall i :: 0 <= i < |b.rules| ==> !RuleMatches(b.rules[i], call, reading.text(call.args))
  }

  /** The configuration does not change which call it is. */
  lemma ConfiguredIsSameCall(glob: Glob, rules: seq<Rule>, overlay: Option<seq<Rule>>, call: ToolCall, b: Broker,
                             reading: Reading)
    ensures var asked := Configured(glob, rules, overlay, call, reading);
      && asked.toolId == call.toolId && asked.category == call.category && asked.args == call.args
      && (NoRuleMatches(b, call, reading) ==> LastMatch(b.rules, asked, reading.text(call.args)) == 0)
      && (forall r <- b.pending :: SameCall(r, asked) == SameCall(r, call))
  {
    var asked := Configured(glob, rules, overlay, call, reading);
    assert forall rule :: RuleMatches(rule, asked, reading.text(call.args)) ==
                          RuleMatches(rule, call, reading.text(call.args));
  }

  /** What the broker says to a call whose metadata denies it. */
  lemma DeniedCallIsRefused(b: Broker, call: ToolCall, reading: Reading)
    requires LastMatch(b.rules, call, reading.text(call.args)) == 0 && call.action == Deny && call.reason != ""
    ensures var (after, decision) := Evaluated(b, call, reading);
      && after == b
      && if exists r <- b.pending :: SameCall(r, call) then
           decision.Asked? && decision.request in b.pending && SameCall(decision.request, call)
         else decision == Refused(call.reason)
  {
    PendingForIsPending(b.pending, call);
  }

  function DenialReason(rule: Rule, reading: Reading): (reason: string)
    ensures reason != ""
  {
    Or(TextOf(rule, "reason", reading), "Permission denied by runtime config: " + rule.key)
  }

  lemma DenialIsConfigured(glob: Glob, config: Config, overlay: Option<seq<Rule>>, call: ToolCall, reading: Reading)
    requires Denies(glob, config, AsCall(call, reading))
    ensures var rule := Select(glob, RulesOf(config), AsCall(call, reading)).value.rule;
      var asked := Configured(glob, RulesOf(config), overlay, call, reading);
      asked.action == Deny && asked.reason == DenialReason(rule, reading)
  {
    assert "Permission denied by " + Label(RuntimeConfig) + ": " == "Permission denied by runtime config: ";
  }

  /** A call that the configuration denies is refused, with the reason of the rule that decides or else the name of its
      key, whatever the overlay; except that rules of the broker come first, and a pending request for the same call. */
  lemma ConfiguredDenyIsRefused(glob: Glob, config: Config, overlay: Option<seq<Rule>>, call: ToolCall, b: Broker,
                                reading: Reading)
    requires NoRuleMatches(b, call, reading) && Denies(glob, config, AsCall(call, reading))
    ensures var rule := Select(glob, RulesOf(config), AsCall(call, reading)).value.rule;
      var (after, decision) := Evaluated(b, Configured(glob, RulesOf(config), overlay, call, reading), reading);
      && after == b
      && if exists r <- b.pending :: SameCall(r, call) then
           decision.Asked? && decision.request in b.pending && SameCall(decision.request, call)
         else decision == Refused(DenialReason(rule, reading))
  {
    var asked := Configured(glob, RulesOf(config), overlay, call, reading);
    ConfiguredIsSameCall(glob, RulesOf(config), overlay, call, b, reading);
    DenialIsConfigured(glob, config, overlay, call, reading);
    DeniedCallIsRefused(b, asked, reading);
  }

  /** So a direct denial of the base configuration refuses the tools it names, for all arguments, after every merge and
      under every overlay of an agent. */
  lemma MergedDenialIsRefused(glob: Glob, arrange: Arrange, base: Config, merged: Config, key: string,
                              overlay: Option<seq<Rule>>, call: ToolCall, b: Broker, reading: Reading)
    requires Arranges(arrange) && DistinctKeys(base) && DistinctKeys(merged)
    requires Denied(base, key) && Names(key, call.toolId)
    requires NoRuleMatches(b, call, reading) && forall r <- b.pending :: !SameCall(r, call)
    ensures var rules := RulesOf(Merged(glob, arrange, base, merged));
      Evaluated(b, Configured(glob, rules, overlay, call, reading), reading).1.Refused?
  {
    BaseDenySurvives(glob, arrange, base, merged, key, AsCall(call, reading));
    ConfiguredDenyIsRefused(glob, Merged(glob, arrange, base, merged), overlay, call, b, reading);
  }

  /** A call about which the configuration asks, and the overlay says nothing, gives a request with what the rule says:
      its patterns, its risk and its reason, each if it has one, else with what the tool says. */
  lemma ConfiguredAskCarriesRule(glob: Glob, rules: seq<Rule>, call: ToolCall, b: Broker, reading: Reading)
    requires NoRuleMatches(b, call, reading) && forall r <- b.pending :: !SameCall(r, call)
    requires var chosen := Select(glob, rules, AsCall(call, reading));
      chosen.Some? && chosen.value.rule.action == Action.Ask
    ensures var rule := Select(glob, rules, AsCall(call, reading)).value.rule;
      var (after, decision) := Evaluated(b, Configured(glob, rules, None, call, reading), reading);
      && decision.Asked? && after == b.(pending := b.pending + [decision.request])
      && SameCall(decision.request, call)
      && (PatternsOf(rule, reading) != [] ==> decision.request.patterns == PatternsOf(rule, reading))
      && decision.request.context.risk == Or(TextOf(rule, "risk", reading), call.context.risk)
      && decision.request.reason ==
           Or(Or(TextOf(rule, "reason", reading), call.reason), "Tool execution requires permission.")
  {
    var asked := Configured(glob, rules, None, call, reading);
    ConfiguredIsSameCall(glob, rules, None, call, b, reading);
    PendingForIsPending(b.pending, asked);
    assert Evaluated(b, asked, reading).1.Asked?;
    assert SameCall(Evaluated(b, asked, reading).1.request, asked);
    assert Evaluated(b, asked, reading).1.request !in b.pending;
  }

  /** Whose action counts: that of the configuration if it denies, else that of the overlay, else that of the
      configuration, else that of the tool. */
  function ActionThatCounts(chosen: Option<Match>, over: Option<Match>, own: Action): Action {
    match (chosen, over)
    case (Some(m), Some(n)) => if m.rule.action == Deny then Deny else n.rule.action
    case (Some(m), None) => m.rule.action
    case (None, Some(n)) => n.rule.action
    case (None, None) => own
  }

  /** Unless a rule of the broker or a pending request comes first, that action decides: allowing lets the call run,
      asking makes a request, and all else refuses. */
  lemma ActionThatCountsDecides(glob: Glob, rules: seq<Rule>, overlay: Option<seq<Rule>>, call: ToolCall, b: Broker,
                                reading: Reading)
    requires NoneApplies(b.rules, call, reading.text(call.args)) && !IsPending(b.pending, call)
    ensures var chosen := Select(glob, rules, AsCall(call, reading));
      var over := match overlay case Some(more) => Select(glob, more, AsCall(call, reading)) case None => None;
      var decision := Evaluated(b, Configured(glob, rules, overlay, call, reading), reading).1;
      match ActionThatCounts(chosen, over, call.action)
      case Allow => decision.Allowed?
      case Ask => decision.Asked?
      case _ => decision.Refused?
  {
    var asked := Configured(glob, rules, overlay, call, reading);
    assert asked.toolId == call.toolId && asked.category == call.category && asked.args == call.args;
    assert forall rule, text :: IsFor(rule, asked, text) == IsFor(rule, call, text);
    CallDecides(b, asked, reading);
  }

  // What a rule says

  lemma {:induction false} ShownItemsOfTexts(items: seq<Raw>, reading: Reading)
    requires forall i :: 0 <= i < |items| ==> items[i].Text?
    ensures |ShownItems(items, reading)| == |items|
    ensures forall i :: 0 <= i < |items| ==> ShownItems(items, reading)[i] == items[i].text
  {
    if items != [] {
      ShownItemsOfTexts(items[1..], reading);
    }
  }

  /** The patterns of a rule for all subjects are the texts listed under `patterns`, or else the one under `pattern`. */
  lemma PatternsAreListed(rule: Rule, reading: Reading, texts: seq<string>)
    requires rule.pattern.None?
    requires match Field(rule.details, "patterns")
      case Some(Sequence(items)) =>
        |items| == |texts| && forall i :: 0 <= i < |items| ==> items[i] == Text(texts[i])
      case Some(Text(text)) => texts == [text]
      case None =>
        (match Field(rule.details, "pattern")
         case Some(Text(text)) => texts == [text]
         case None => texts == []
         case _ => false)
      case _ => false
    ensures PatternsOf(rule, reading) == texts
  {
    match Field(rule.details, "patterns")
    case Some(Sequence(items)) => ShownItemsOfTexts(items, reading);
    case _ =>
  }
}

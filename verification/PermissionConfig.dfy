/**
The permission configuration: which rule is selected for a tool call, and how a base configuration and an overlay
are merged.

A configuration is an ordered dictionary, normalised and read. Shell-style matching of names is a function parameter.
*/
module PermissionConfig {
  import opened Dictionaries
  import opened Options

  /** A value of a configuration as it was written: text, null, a mapping (with keys that should be text), a sequence,
      or another value, which Python takes for true or not. */
  datatype Raw =
    | Text(text: string) | Null | Mapping(entries: Fields) | Sequence(items: seq<Raw>) | Other(truthy: bool)

  type Fields = seq<(Option<string>, Raw)>

  /** What a mapping has under a key. */
  function Field(entries: Fields, key: string): Option<Raw> {
    if entries == [] then None
    else if entries[0].0 == Some(key) then Some(entries[0].1)
    else Field(entries[1..], key)
  }

  datatype Action = Allow | Deny | Ask | Unknown

  /** `details` is the mapping that a rule was written in, if it was. */
  datatype SubjectRule = SubjectRule(pattern: string, action: Action, details: Fields)

  /** The value of a key: one action, or actions by subject pattern. */
  datatype Value = Direct(action: Action, details: Fields) | Subjects(rules: seq<SubjectRule>)

  type Config = seq<(string, Value)>

  datatype Rule = Rule(key: string, action: Action, pattern: Option<string>, order: nat, details: Fields)

  datatype Call = Call(toolId: string, category: string, subject: Option<string>)

  type Glob = (string, string) -> bool

  // Rules

  function RuleFor(key: string, rule: SubjectRule, order: nat): Rule {
    Rule(key, rule.action, Some(rule.pattern), order, rule.details)
  }

  /** The rules of one entry, numbered from `order`. */
  function EntryRules(key: string, value: Value, order: nat): seq<Rule> {
    match value
    case Direct(action, details) => [Rule(key, action, None, order, details)]
    case Subjects(rules) =>
      seq(|rules|, i requires 0 <= i < |rules| => RuleFor(key, rules[i], order + i))
  }

  function RulesOf(config: Config): seq<Rule> {
    if config == [] then []
    else
      var n := |config| - 1;
      var before := RulesOf(config[..n]);
      before + EntryRules(config[n].0, config[n].1, |before|)
  }

  method NumberedRules(config: Config) returns (rules: seq<Rule>)
    ensures rules == RulesOf(config)
  {
    rules := [];
    var order := 0;
    var i := 0;
    while i < |config|
      invariant 0 <= i <= |config| && order == |rules| && rules == RulesOf(config[..i])
    {
      var (key, value) := config[i];
      assert config[..i + 1][..i] == config[..i];
      match value {
        case Direct(action, details) =>
          rules := rules + [Rule(key, action, None, order, details)];
          order := order + 1;
        case Subjects(bySubject) =>
          var more := SubjectRules(key, bySubject, order);
          rules := rules + more;
          order := order + |bySubject|;
      }
      i := i + 1;
    }
    assert config[..|config|] == config;
  }

  method SubjectRules(key: string, bySubject: seq<SubjectRule>, order: nat) returns (rules: seq<Rule>)
    ensures rules == EntryRules(key, Subjects(bySubject), order)
  {
    rules := [];
    var i := 0;
    while i < |bySubject|
      invariant 0 <= i <= |bySubject| && |rules| == i
      invariant forall j :: 0 <= j < i ==> rules[j] == RuleFor(key, bySubject[j], order + j)
    {
      rules := rules + [RuleFor(key, bySubject[i], order + i)];
      i := i + 1;
    }
  }

  ghost predicate Ordered(rules: seq<Rule>) {
    forall i, j :: 0 <= i < j < |rules| ==> rules[i].order < rules[j].order
  }

  lemma {:induction false} RulesAreNumbered(config: Config)
    ensures forall i :: 0 <= i < |RulesOf(config)| ==> RulesOf(config)[i].order == i
  {
    if config != [] {
      RulesAreNumbered(config[..|config| - 1]);
    }
  }

  /** `rule` is one that `value`, the value of its key, gives rise to. */
  predicate Comes(rule: Rule, value: Value) {
    match value
    case Direct(action, details) => rule.pattern == None && rule.action == action && rule.details == details
    case Subjects(rules) => rule.pattern.Some? && SubjectRule(rule.pattern.value, rule.action, rule.details) in rules
  }

  lemma {:induction false} RuleComesFromEntry(config: Config, rule: Rule) returns (i: nat)
    requires rule in RulesOf(config)
    ensures i < |config| && config[i].0 == rule.key && Comes(rule, config[i].1)
  {
    var n := |config| - 1;
    var before := RulesOf(config[..n]);
    if rule in before {
      i := RuleComesFromEntry(config[..n], rule);
    } else {
      i := n;
      var j :| 0 <= j < |EntryRules(config[n].0, config[n].1, |before|)|
        && EntryRules(config[n].0, config[n].1, |before|)[j] == rule;
      if config[n].1.Subjects? {
        assert config[n].1.rules[j] == SubjectRule(rule.pattern.value, rule.action, rule.details);
      }
    }
  }

  lemma RuleComesFromValue(config: Config, rule: Rule)
    requires DistinctKeys(config) && rule in RulesOf(config)
    ensures Get(config, rule.key).Some? && Comes(rule, Get(config, rule.key).value)
  {
    var i := RuleComesFromEntry(config, rule);
    GetFindsEntry(config, i);
  }

  lemma {:induction false} EntryGivesRule(config: Config, i: nat, pattern: Option<string>, action: Action,
                                          details: Fields)
      returns (rule: Rule)
    requires i < |config| && Comes(Rule(config[i].0, action, pattern, 0, details), config[i].1)
    ensures rule in RulesOf(config) && rule.key == config[i].0 && rule.action == action && rule.pattern == pattern
    ensures rule.details == details
  {
    var n := |config| - 1;
    var before := RulesOf(config[..n]);
    if i < n {
      rule := EntryGivesRule(config[..n], i, pattern, action, details);
    } else {
      var rules := EntryRules(config[n].0, config[n].1, |before|);
      match config[n].1
      case Direct(_, _) => rule := rules[0];
      case Subjects(bySubject) =>
        var j :| 0 <= j < |bySubject| && bySubject[j] == SubjectRule(pattern.value, action, details);
        rule := rules[j];
    }
  }

  // Selection

  datatype MatchType =
    | Exact | ExactSubject | Wildcard | WildcardSubject | Category | CategorySubject | Fallback | FallbackSubject

  datatype Match = Match(rule: Rule, matchType: MatchType)

  function Rank(t: MatchType): nat {
    match t
    case Exact => 1
    case ExactSubject => 2
    case Wildcard => 3
    case WildcardSubject => 4
    case Category => 5
    case CategorySubject => 6
    case Fallback => 7
    case FallbackSubject => 8
  }

  const CATEGORY_ALIASES: map<string, set<string>> := map[
    "read" := {"read"},
    "edit" := {"write", "edit", "apply_patch"},
    "glob" := {"glob"},
    "grep" := {"grep"},
    "bash" := {"bash"},
    "task" := {"task"},
    "todowrite" := {"todowrite"},
    "webfetch" := {"webfetch"},
    "websearch" := {"websearch", "web_search"},
    "lsp" := {"lsp"},
    "skill" := {"skill"},
    "question" := {"question"},
    "doom_loop" := {}]

  const METADATA_CATEGORIES: map<string, set<string>> := map[
    "bash" := {"shell"},
    "task" := {"task"},
    "lsp" := {"lsp"},
    "skill" := {"skill"},
    "question" := {"question"},
    "doom_loop" := {"doom_loop"}]

  predicate IsWildcard(key: string) {
    '*' in key || '?' in key || '[' in key
  }

  predicate NamedCategory(key: string, call: Call) {
    || (call.category != "" && key == call.category)
    || (key in CATEGORY_ALIASES && call.toolId in CATEGORY_ALIASES[key])
    || (key in METADATA_CATEGORIES && call.category in METADATA_CATEGORIES[key])
  }

  predicate KeyApplies(glob: Glob, key: string, t: MatchType, call: Call) {
    match t
    case Exact | ExactSubject => key == call.toolId
    case Wildcard | WildcardSubject => IsWildcard(key) && key != "*" && glob(call.toolId, key)
    case Category | CategorySubject => !IsWildcard(key) && NamedCategory(key, call)
    case Fallback | FallbackSubject => key == "*"
  }

  predicate BySubject(t: MatchType) {
    t.ExactSubject? || t.WildcardSubject? || t.CategorySubject? || t.FallbackSubject?
  }

  predicate SubjectApplies(glob: Glob, pattern: Option<string>, t: MatchType, call: Call) {
    if BySubject(t) then pattern.Some? && call.subject.Some? && glob(call.subject.value, pattern.value)
    else pattern == None
  }

  /** `rule` is a candidate for the step `t` of the cascade. */
  predicate Applies(glob: Glob, rule: Rule, t: MatchType, call: Call) {
    KeyApplies(glob, rule.key, t, call) && SubjectApplies(glob, rule.pattern, t, call)
  }

  /** What counts as more specific in step `t`. */
  function Specificity(rule: Rule, t: MatchType): nat {
    if t.Wildcard? then |rule.key|
    else if BySubject(t) && rule.pattern.Some? then |rule.pattern.value|
    else 0
  }

  /** The first of the most specific candidates. */
  function Best(glob: Glob, rules: seq<Rule>, t: MatchType, call: Call): Option<Rule> {
    if rules == [] then None
    else
      var rest := Best(glob, rules[1..], t, call);
      if !Applies(glob, rules[0], t, call) then rest
      else if rest.None? || Specificity(rules[0], t) >= Specificity(rest.value, t) then Some(rules[0])
      else rest
  }

  function Chosen(glob: Glob, rules: seq<Rule>, call: Call, steps: seq<MatchType>): Option<Match> {
    if steps == [] then None
    else
      var best := Best(glob, rules, steps[0], call);
      if best.Some? then Some(Match(best.value, steps[0])) else Chosen(glob, rules, call, steps[1..])
  }

  const CASCADE: seq<MatchType> :=
    [Exact, ExactSubject, Wildcard, WildcardSubject, Category, CategorySubject, Fallback, FallbackSubject]

  function Select(glob: Glob, rules: seq<Rule>, call: Call): Option<Match> {
    Chosen(glob, rules, call, CASCADE)
  }

  /** The one order of all candidates: step, then specificity, then order of declaration. */
  predicate Before(a: Match, b: Match) {
    || Rank(a.matchType) < Rank(b.matchType)
    || (a.matchType == b.matchType
        && (|| Specificity(a.rule, a.matchType) > Specificity(b.rule, b.matchType)
            || (Specificity(a.rule, a.matchType) == Specificity(b.rule, b.matchType) && a.rule.order < b.rule.order)))
  }

  lemma {:induction false} BestIsFirst(glob: Glob, rules: seq<Rule>, t: MatchType, call: Call)
    requires Ordered(rules)
    ensures var best := Best(glob, rules, t, call);
      && (best.None? ==> forall r <- rules :: !Applies(glob, r, t, call))
      && (best.Some? ==>
            && best.value in rules && Applies(glob, best.value, t, call)
            && forall r <- rules :: Applies(glob, r, t, call) && r != best.value ==>
                 Before(Match(best.value, t), Match(r, t)))
  {
    if rules != [] {
      BestIsFirst(glob, rules[1..], t, call);
      forall r <- rules[1..] ensures rules[0].order < r.order {
        var i :| 0 <= i < |rules[1..]| && rules[1..][i] == r;
        assert rules[i + 1] == r;
      }
    }
  }

  lemma {:induction false} ChosenIsFirst(glob: Glob, rules: seq<Rule>, call: Call, steps: seq<MatchType>)
    requires Ordered(rules)
    requires forall i, j :: 0 <= i < j < |steps| ==> Rank(steps[i]) < Rank(steps[j])
    ensures var chosen := Chosen(glob, rules, call, steps);
      && (chosen.None? ==> forall r <- rules, t <- steps :: !Applies(glob, r, t, call))
      && (chosen.Some? ==>
            && chosen.value.rule in rules && chosen.value.matchType in steps
            && Applies(glob, chosen.value.rule, chosen.value.matchType, call)
            && forall r <- rules, t <- steps :: Applies(glob, r, t, call) && Match(r, t) != chosen.value ==>
                 Before(chosen.value, Match(r, t)))
  {
    if steps != [] {
      BestIsFirst(glob, rules, steps[0], call);
      ChosenIsFirst(glob, rules, call, steps[1..]);
      forall t <- steps | t != steps[0] ensures t in steps[1..] && Rank(steps[0]) < Rank(t) {
        var i :| 0 <= i < |steps| && steps[i] == t;
        assert steps[1..][i - 1] == t;
      }
    }
  }

  /** The cascade selects the least of all candidates under the one order, and nothing only if there are none. */
  lemma SelectIsLeast(glob: Glob, config: Config, call: Call)
    ensures var rules := RulesOf(config); var selected := Select(glob, rules, call);
      && (selected.None? <==> forall r <- rules, t: MatchType :: !Applies(glob, r, t, call))
      && (selected.Some? ==>
            && selected.value.rule in rules && Applies(glob, selected.value.rule, selected.value.matchType, call)
            && forall r <- rules, t: MatchType :: Applies(glob, r, t, call) && Match(r, t) != selected.value ==>
                 Before(selected.value, Match(r, t)))
  {
    var rules := RulesOf(config);
    RulesAreNumbered(config);
    forall t: MatchType ensures t in CASCADE {
      assert CASCADE[Rank(t) - 1] == t;
    }
    ChosenIsFirst(glob, rules, call, CASCADE);
  }
}

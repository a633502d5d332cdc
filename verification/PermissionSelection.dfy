/**
Which rule of a configuration decides about a tool call, told without the cascade: eight tiers, and in
each tier the longest pattern or the earliest declaration.
*/
module PermissionSelection {
  import opened Options
  import opened PermissionConfig

  predicate HasWildcard(key: string) {
    exists i :: 0 <= i < |key| && (key[i] == '*' || key[i] == '?' || key[i] == '[')
  }

  predicate GlobsTool(glob: Glob, key: string, call: Call) {
    key != "*" && HasWildcard(key) && glob(call.toolId, key)
  }

  predicate NamesCategory(key: string, call: Call) {
    && !HasWildcard(key)
    && (|| (call.category != "" && key == call.category)
        || (key in CATEGORY_ALIASES && call.toolId in CATEGORY_ALIASES[key])
        || (key in METADATA_CATEGORIES && call.category in METADATA_CATEGORIES[key]))
  }

  predicate FitsSubject(glob: Glob, rule: Rule, call: Call) {
    rule.pattern.Some? && call.subject.Some? && glob(call.subject.value, rule.pattern.value)
  }

  /** The tiers: by the name of the tool, by a wildcard, by category, and for everything; in each, the rules for all
      subjects come before those for the subject of the call. */
  predicate InTier(glob: Glob, rule: Rule, tier: nat, call: Call) {
    || (tier == 1 && rule.key == call.toolId && rule.pattern.None?)
    || (tier == 2 && rule.key == call.toolId && FitsSubject(glob, rule, call))
    || (tier == 3 && GlobsTool(glob, rule.key, call) && rule.pattern.None?)
    || (tier == 4 && GlobsTool(glob, rule.key, call) && FitsSubject(glob, rule, call))
    || (tier == 5 && NamesCategory(rule.key, call) && rule.pattern.None?)
    || (tier == 6 && NamesCategory(rule.key, call) && FitsSubject(glob, rule, call))
    || (tier == 7 && rule.key == "*" && rule.pattern.None?)
    || (tier == 8 && rule.key == "*" && FitsSubject(glob, rule, call))
  }

  /** Among wildcards for all subjects, the longer key comes first; among rules by subject, the longer pattern; and else
      the earlier declaration. */
  predicate ComesFirst(a: Rule, b: Rule, tier: nat) {
    if tier == 3 && |a.key| != |b.key| then |a.key| > |b.key|
    else if tier in {2, 4, 6, 8} && a.pattern.Some? && b.pattern.Some? && |a.pattern.value| != |b.pattern.value| then
      |a.pattern.value| > |b.pattern.value|
    else a.order < b.order
  }

  lemma InTierIff(glob: Glob, rule: Rule, t: MatchType, call: Call)
    ensures Applies(glob, rule, t, call) <==> InTier(glob, rule, Rank(t), call)
  {
    assert IsWildcard(rule.key) <==> HasWildcard(rule.key) by {
      if IsWildcard(rule.key) {
        var i :| 0 <= i < |rule.key| && (rule.key[i] == '*' || rule.key[i] == '?' || rule.key[i] == '[');
      }
    }
  }

  function TypeOf(tier: nat): MatchType
    requires 1 <= tier <= 8
  {
    [Exact, ExactSubject, Wildcard, WildcardSubject, Category, CategorySubject, Fallback, FallbackSubject][tier - 1]
  }

  lemma TierOfType(tier: nat)
    requires 1 <= tier <= 8
    ensures Rank(TypeOf(tier)) == tier
  {
  }

  /** `rule` decides, in `tier`: no rule is in an earlier tier, and it comes first in its own. */
  predicate Decides(glob: Glob, rules: seq<Rule>, rule: Rule, tier: nat, call: Call) {
    && InTier(glob, rule, tier, call)
    && forall r <- rules ::
         && (forall earlier: nat :: earlier < tier ==> !InTier(glob, r, earlier, call))
         && (InTier(glob, r, tier, call) && r != rule ==> ComesFirst(rule, r, tier))
  }

  /** The least candidate of the cascade, or none if there is none. */
  ghost predicate IsLeast(glob: Glob, rules: seq<Rule>, selected: Option<Match>, call: Call) {
    && (selected.None? <==> forall r <- rules, t: MatchType :: !Applies(glob, r, t, call))
    && (selected.Some? ==>
          && selected.value.rule in rules && Applies(glob, selected.value.rule, selected.value.matchType, call)
          && forall r <- rules, t: MatchType :: Applies(glob, r, t, call) && Match(r, t) != selected.value ==>
               Before(selected.value, Match(r, t)))
  }

  lemma TierOfCandidate(glob: Glob, rule: Rule, tier: nat, call: Call)
    requires InTier(glob, rule, tier, call)
    ensures 1 <= tier <= 8 && Applies(glob, rule, TypeOf(tier), call)
  {
    TierOfType(tier);
    InTierIff(glob, rule, TypeOf(tier), call);
  }

  lemma LeastComesFirst(glob: Glob, rules: seq<Rule>, m: Match, call: Call, rule: Rule, tier: nat)
    requires IsLeast(glob, rules, Some(m), call) && rule in rules && InTier(glob, rule, tier, call)
    ensures tier >= Rank(m.matchType)
    ensures tier == Rank(m.matchType) && rule != m.rule ==> ComesFirst(m.rule, rule, tier)
  {
    TierOfCandidate(glob, rule, tier, call);
    TierOfType(tier);
    if tier == Rank(m.matchType) {
      RankIsInjective(TypeOf(tier), m.matchType);
    }
    if Match(rule, TypeOf(tier)) != m {
      assert Before(m, Match(rule, TypeOf(tier)));
    }
  }

  lemma LeastDecides(glob: Glob, rules: seq<Rule>, selected: Option<Match>, call: Call)
    requires IsLeast(glob, rules, selected, call)
    ensures if selected.None? then forall r <- rules, tier: nat :: !InTier(glob, r, tier, call)
            else selected.value.rule in rules
                 && Decides(glob, rules, selected.value.rule, Rank(selected.value.matchType), call)
  {
    if selected.None? {
      forall r <- rules, tier: nat ensures !InTier(glob, r, tier, call) {
        if InTier(glob, r, tier, call) {
          TierOfCandidate(glob, r, tier, call);
        }
      }
    } else {
      var m := selected.value;
      InTierIff(glob, m.rule, m.matchType, call);
      forall r <- rules, tier: nat | InTier(glob, r, tier, call)
        ensures tier >= Rank(m.matchType)
        ensures tier == Rank(m.matchType) && r != m.rule ==> ComesFirst(m.rule, r, tier)
      {
        LeastComesFirst(glob, rules, m, call, r, tier);
      }
    }
  }

  /** The selected rule decides, and no rule is selected only if none is in any tier. */
  lemma SelectedDecides(glob: Glob, config: Config, call: Call)
    ensures var rules := RulesOf(config); var selected := Select(glob, rules, call);
      if selected.None? then forall r <- rules, tier: nat :: !InTier(glob, r, tier, call)
      else
        && selected.value.rule in rules
        && Decides(glob, rules, selected.value.rule, Rank(selected.value.matchType), call)
  {
    SelectIsLeast(glob, config, call);
    LeastDecides(glob, RulesOf(config), Select(glob, RulesOf(config), call), call);
  }

  lemma RankIsInjective(a: MatchType, b: MatchType)
    requires Rank(a) == Rank(b)
    ensures a == b
  {
  }

  // The rules of a configuration

  lemma {:induction false} RulesOfPrefix(config: Config, k: nat)
    requires k <= |config|
    ensures RulesOf(config[..k]) <= RulesOf(config)
  {
    var n := |config| - 1;
    if k == |config| {
      assert config[..k] == config;
    } else {
      assert config[..n][..k] == config[..k];
      RulesOfPrefix(config[..n], k);
    }
  }

  lemma RulesOfNext(config: Config, k: nat)
    requires k < |config|
    ensures var before := RulesOf(config[..k]);
      RulesOf(config[..k + 1]) == before + EntryRules(config[k].0, config[k].1, |before|)
  {
    assert config[..k + 1][..k] == config[..k] && config[..k + 1][k] == config[k];
  }

  /** The rules stand in the order of their declaration: those of an entry behind those of the entries before it, and
      by subject in the order of its patterns; each is numbered by its place. */
  lemma RulesFollowDeclarations(config: Config, k: nat, j: nat)
    requires k < |config| && match config[k].1 case Direct(_, _) => j == 0 case Subjects(bySubject) => j < |bySubject|
    ensures var at := |RulesOf(config[..k])| + j; var (key, value) := config[k];
      && at < |RulesOf(config)|
      && RulesOf(config)[at] ==
           match value
           case Direct(action, details) => Rule(key, action, None, at, details)
           case Subjects(bySubject) =>
             Rule(key, bySubject[j].action, Some(bySubject[j].pattern), at, bySubject[j].details)
    ensures |RulesOf(config[..k + 1])| ==
            |RulesOf(config[..k])| + match config[k].1 case Direct(_, _) => 1 case Subjects(bySubject) => |bySubject|
  {
    RulesOfNext(config, k);
    RulesOfPrefix(config, k + 1);
  }
}

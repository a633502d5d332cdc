/**
Merging a base permission configuration with an overlay: the overlay replaces keys, except that direct denials of the
base are put back, under their own keys and under those that could get round them.
*/
module PermissionMerge {
  import opened Dictionaries
  import opened PermissionConfig
  import opened Options

  /** Some order of the keys of a set; the program sorts them. */
  type Arrange = set<string> -> seq<string>

  ghost predicate Arranges(arrange: Arrange) {
    forall s, k :: k in arrange(s) <==> k in s
  }

  function Keys(config: Config): set<string> {
    if config == [] then {} else {config[0].0} + Keys(config[1..])
  }

  predicate IsDeny(value: Value) {
    value.Direct? && value.action == Deny
  }

  function Update(config: Config, more: Config): Config
    decreases |more|
  {
    if more == [] then config else Update(Put(config, more[0].0, more[0].1), more[1..])
  }

  /** The keys under which a base denial of `key` is put back. */
  function EnforcedKeys(glob: Glob, key: string, overlay: Config): set<string> {
    if key == "*" then {"*"} + Keys(overlay)
    else if key in CATEGORY_ALIASES then {key} + CATEGORY_ALIASES[key]
    else if IsWildcard(key) then {key} + set k | k in Keys(overlay) && glob(k, key)
    else {key}
  }

  function PutAll(config: Config, keys: seq<string>, value: Value): Config
    decreases |keys|
  {
    if keys == [] then config else PutAll(Put(config, keys[0], value), keys[1..], value)
  }

  function Enforced(glob: Glob, arrange: Arrange, merged: Config, base: Config, overlay: Config): Config
    decreases |base|
  {
    if base == [] then merged
    else
      var (key, value) := base[0];
      Enforced(glob, arrange,
               if IsDeny(value) then PutAll(merged, arrange(EnforcedKeys(glob, key, overlay)), value) else merged,
               base[1..], overlay)
  }

  function Merged(glob: Glob, arrange: Arrange, base: Config, overlay: Config): Config {
    Enforced(glob, arrange, Update(base, overlay), base, overlay)
  }

  method MergeToolPermissionConfigs(glob: Glob, arrange: Arrange, base: Config, overlay: Config)
    returns (merged: Config)
    ensures merged == Merged(glob, arrange, base, overlay)
  {
    merged := Update(base, overlay);
    var i := 0;
    assert base[0..] == base;
    while i < |base|
      invariant 0 <= i <= |base|
      invariant Enforced(glob, arrange, merged, base[i..], overlay) == Merged(glob, arrange, base, overlay)
    {
      assert base[i..][1..] == base[i + 1..];
      var (key, value) := base[i];
      if IsDeny(value) {
        var keys := arrange(EnforcedKeys(glob, key, overlay));
        merged := Overwrite(merged, keys, value);
      }
      i := i + 1;
    }
  }

  method Overwrite(config: Config, keys: seq<string>, value: Value) returns (merged: Config)
    ensures merged == PutAll(config, keys, value)
  {
    merged := config;
    var i := 0;
    assert keys[0..] == keys;
    while i < |keys|
      invariant 0 <= i <= |keys| && PutAll(merged, keys[i..], value) == PutAll(config, keys, value)
    {
      assert keys[i..][1..] == keys[i + 1..];
      merged := Put(merged, keys[i], value);
      i := i + 1;
    }
  }

  // What the merge holds under a key

  lemma {:induction false} KeysAreGot(config: Config, key: string)
    ensures key in Keys(config) <==> Get(config, key).Some?
  {
    if config != [] {
      KeysAreGot(config[1..], key);
    }
  }

  lemma {:induction false} GetOfUpdate(config: Config, more: Config, key: string)
    requires DistinctKeys(more)
    ensures Get(Update(config, more), key) == if Get(more, key).Some? then Get(more, key) else Get(config, key)
    ensures DistinctKeys(config) ==> DistinctKeys(Update(config, more))
    decreases |more|
  {
    if more != [] {
      GetOfPut(config, more[0].0, more[0].1, key);
      GetOfUpdate(Put(config, more[0].0, more[0].1), more[1..], key);
    }
  }

  lemma {:induction false} GetOfPutAll(config: Config, keys: seq<string>, value: Value, key: string)
    ensures Get(PutAll(config, keys, value), key) == if key in keys then Some(value) else Get(config, key)
    ensures DistinctKeys(config) ==> DistinctKeys(PutAll(config, keys, value))
    decreases |keys|
  {
    if keys != [] {
      GetOfPut(config, keys[0], value, key);
      GetOfPutAll(Put(config, keys[0], value), keys[1..], value, key);
    }
  }

  predicate Denied(config: Config, key: string) {
    Get(config, key).Some? && IsDeny(Get(config, key).value)
  }

  /** Enforcement changes a key only to a denial of the base, and does change all it has to. */
  lemma {:induction false} GetOfEnforced(glob: Glob, arrange: Arrange, merged: Config, base: Config, overlay: Config,
                                         key: string)
    requires Arranges(arrange) && DistinctKeys(merged)
    ensures var result := Enforced(glob, arrange, merged, base, overlay);
      && DistinctKeys(result)
      && (Get(result, key) == Get(merged, key) || Denied(result, key))
      && (Denied(merged, key) ==> Denied(result, key))
      && (forall i :: 0 <= i < |base| && IsDeny(base[i].1) && key in EnforcedKeys(glob, base[i].0, overlay) ==>
            Denied(result, key))
    decreases |base|
  {
    if base != [] {
      var (k, value) := base[0];
      var keys := arrange(EnforcedKeys(glob, k, overlay));
      var next := if IsDeny(value) then PutAll(merged, keys, value) else merged;
      GetOfPutAll(merged, keys, value, key);
      GetOfEnforced(glob, arrange, next, base[1..], overlay, key);
      var result := Enforced(glob, arrange, merged, base, overlay);
      forall i | 0 <= i < |base| && IsDeny(base[i].1) && key in EnforcedKeys(glob, base[i].0, overlay)
        ensures Denied(result, key)
      {
        if i > 0 {
          assert base[1..][i - 1] == base[i];
        }
      }
    }
  }

  /** Under a key, the merge holds what the overlay says, or else what the base says, or a denial. */
  lemma GetOfMerged(glob: Glob, arrange: Arrange, base: Config, overlay: Config, key: string)
    requires Arranges(arrange) && DistinctKeys(base) && DistinctKeys(overlay)
    ensures var merged := Merged(glob, arrange, base, overlay);
      && DistinctKeys(merged)
      && (|| Get(merged, key) == (if Get(overlay, key).Some? then Get(overlay, key) else Get(base, key))
          || Denied(merged, key))
  {
    GetOfUpdate(base, overlay, key);
    GetOfEnforced(glob, arrange, Update(base, overlay), base, overlay, key);
  }

  lemma DenialIsEnforced(glob: Glob, arrange: Arrange, base: Config, overlay: Config, from: string, key: string)
    requires Arranges(arrange) && DistinctKeys(base) && DistinctKeys(overlay)
    requires Denied(base, from) && key in EnforcedKeys(glob, from, overlay)
    ensures Denied(Merged(glob, arrange, base, overlay), key)
  {
    var i := EntryOf(base, from);
    GetOfUpdate(base, overlay, key);
    GetOfEnforced(glob, arrange, Update(base, overlay), base, overlay, key);
  }

  /** The configuration denies the call. */
  predicate Denies(glob: Glob, config: Config, call: Call) {
    var selected := Select(glob, RulesOf(config), call);
    selected.Some? && selected.value.rule.action == Deny
  }

  /** The selection is at least as good as any candidate. */
  lemma SelectedIsNoWorse(glob: Glob, config: Config, call: Call, rule: Rule, t: MatchType)
    requires rule in RulesOf(config) && Applies(glob, rule, t, call)
    ensures var selected := Select(glob, RulesOf(config), call);
      && selected.Some? && selected.value.rule in RulesOf(config)
      && Applies(glob, selected.value.rule, selected.value.matchType, call)
      && (selected.value == Match(rule, t) || Before(selected.value, Match(rule, t)))
  {
    SelectIsLeast(glob, config, call);
  }

  lemma ExactCandidateWins(glob: Glob, config: Config, call: Call, rule: Rule)
    requires rule in RulesOf(config) && Applies(glob, rule, Exact, call)
    ensures var selected := Select(glob, RulesOf(config), call);
      selected.Some? && selected.value.rule in RulesOf(config) && selected.value.rule.key == call.toolId
  {
    SelectedIsNoWorse(glob, config, call, rule, Exact);
  }

  /** Under a key that has a direct denial, every call of the tool of that name is denied. */
  lemma DirectDenyDenies(glob: Glob, config: Config, call: Call)
    requires DistinctKeys(config) && Denied(config, call.toolId)
    ensures Denies(glob, config, call)
  {
    var i := EntryOf(config, call.toolId);
    var rule := EntryGivesRule(config, i, None, Deny, config[i].1.details);
    ExactCandidateWins(glob, config, call, rule);
    RuleComesFromValue(config, Select(glob, RulesOf(config), call).value.rule);
  }

  /** A tool is named by `key`: by itself, or as one of the tools that the key is an alias for. */
  predicate Names(key: string, toolId: string) {
    key == toolId || (key in CATEGORY_ALIASES && toolId in CATEGORY_ALIASES[key])
  }

  lemma NamedIsEnforced(glob: Glob, key: string, toolId: string, overlay: Config)
    requires Names(key, toolId)
    ensures toolId in EnforcedKeys(glob, key, overlay)
  {
    assert "*" !in CATEGORY_ALIASES;
  }

  lemma WildcardIsNoAlias(key: string)
    requires IsWildcard(key)
    ensures key !in CATEGORY_ALIASES
  {
  }

  /** A direct denial of the base denies the tools it names for all arguments, whatever the overlay says. */
  lemma BaseDenySurvives(glob: Glob, arrange: Arrange, base: Config, overlay: Config, key: string, call: Call)
    requires Arranges(arrange) && DistinctKeys(base) && DistinctKeys(overlay)
    requires Denied(base, key) && Names(key, call.toolId)
    ensures Denies(glob, Merged(glob, arrange, base, overlay), call)
  {
    NamedIsEnforced(glob, key, call.toolId, overlay);
    DenialIsEnforced(glob, arrange, base, overlay, key, call.toolId);
    GetOfMerged(glob, arrange, base, overlay, call.toolId);
    DirectDenyDenies(glob, Merged(glob, arrange, base, overlay), call);
  }

  lemma StarIsEnforced(glob: Glob, arrange: Arrange, base: Config, overlay: Config, key: string)
    requires Arranges(arrange) && DistinctKeys(base) && DistinctKeys(overlay)
    requires Denied(base, "*") && (key == "*" || Get(overlay, key).Some?)
    ensures Denied(Merged(glob, arrange, base, overlay), key)
  {
    KeysAreGot(overlay, key);
    DenialIsEnforced(glob, arrange, base, overlay, "*", key);
  }

  /** A direct denial of everything by the base: what a key of the overlay decides is denied, and so is every call that
      the base alone leaves to that denial. */
  lemma StarDenySurvives(glob: Glob, arrange: Arrange, base: Config, overlay: Config, call: Call)
    requires Arranges(arrange) && DistinctKeys(base) && DistinctKeys(overlay) && Denied(base, "*")
    ensures var merged := Merged(glob, arrange, base, overlay);
      var selected := Select(glob, RulesOf(merged), call);
      && selected.Some?
      && (Get(overlay, selected.value.rule.key).Some? ==> Denies(glob, merged, call))
      && (FallsBack(glob, base, call) ==> Denies(glob, merged, call))
  {
    var merged := Merged(glob, arrange, base, overlay);
    StarIsEnforced(glob, arrange, base, overlay, "*");
    GetOfMerged(glob, arrange, base, overlay, "*");
    DeniedStarSelects(glob, merged, call);
    var selected := Select(glob, RulesOf(merged), call).value;
    RuleComesFromValue(merged, selected.rule);
    GetOfMerged(glob, arrange, base, overlay, selected.rule.key);
    if Get(overlay, selected.rule.key).Some? || selected.rule.key == "*" {
      StarIsEnforced(glob, arrange, base, overlay, selected.rule.key);
    } else {
      UnchangedKeyWasInBase(glob, merged, base, call, selected);
    }
  }

  lemma DeniedStarSelects(glob: Glob, config: Config, call: Call)
    requires DistinctKeys(config) && Denied(config, "*")
    ensures var selected := Select(glob, RulesOf(config), call);
      && selected.Some? && selected.value.rule in RulesOf(config)
      && Applies(glob, selected.value.rule, selected.value.matchType, call)
  {
    var i := EntryOf(config, "*");
    var star := EntryGivesRule(config, i, None, Deny, config[i].1.details);
    SelectedIsNoWorse(glob, config, call, star, Fallback);
  }

  /** The configuration leaves the call to its direct fallback. */
  predicate FallsBack(glob: Glob, config: Config, call: Call) {
    var selected := Select(glob, RulesOf(config), call);
    selected.Some? && selected.value.matchType == Fallback
  }

  /** A rule under a key that the merge took over from the base is a candidate in the base too. */
  lemma UnchangedKeyWasInBase(glob: Glob, merged: Config, base: Config, call: Call, selected: Match)
    requires DistinctKeys(merged) && DistinctKeys(base)
    requires selected.rule in RulesOf(merged) && Applies(glob, selected.rule, selected.matchType, call)
    requires selected.rule.key != "*"
    requires Get(merged, selected.rule.key) == Get(base, selected.rule.key) || Denied(merged, selected.rule.key)
    ensures selected.rule.action == Deny || !FallsBack(glob, base, call)
  {
    var rule := selected.rule;
    RuleComesFromValue(merged, rule);
    if rule.action != Deny {
      var i := EntryOf(base, rule.key);
      var same := EntryGivesRule(base, i, rule.pattern, rule.action, rule.details);
      SelectedIsNoWorse(glob, base, call, same, selected.matchType);
    }
  }
}

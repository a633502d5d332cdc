/**
When a wildcard denial of the base still decides after a merge: exactly unless the overlay has a wildcard of its own
that comes first and that no base denial is put back under.
*/
module WildcardDenials {
  import opened Dictionaries
  import opened PermissionConfig
  import opened PermissionMerge
  import opened Options

  // Positions

  /** The place of a key. */
  function Position(config: Config, key: string): (i: nat)
    requires Get(config, key).Some?
    ensures i < |config| && config[i].0 == key
  {
    if config[0].0 == key then 0 else 1 + Position(config[1..], key)
  }

  lemma {:induction false} PositionOfEntry(config: Config, i: nat)
    requires DistinctKeys(config) && i < |config|
    ensures Get(config, config[i].0).Some? && Position(config, config[i].0) == i
  {
    GetFindsEntry(config, i);
    if i > 0 {
      PositionOfEntry(config[1..], i - 1);
    }
  }

  lemma {:induction false} PutKeepsPosition(config: Config, key: string, value: Value, k: string)
    requires Get(config, k).Some?
    ensures Get(Put(config, key, value), k).Some? && Position(Put(config, key, value), k) == Position(config, k)
  {
    GetOfPut(config, key, value, k);
    if config[0].0 != key && config[0].0 != k {
      PutKeepsPosition(config[1..], key, value, k);
    }
  }

  lemma {:induction false} UpdateKeepsPosition(config: Config, more: Config, k: string)
    requires Get(config, k).Some?
    ensures Get(Update(config, more), k).Some? && Position(Update(config, more), k) == Position(config, k)
    decreases |more|
  {
    if more != [] {
      PutKeepsPosition(config, more[0].0, more[0].1, k);
      UpdateKeepsPosition(Put(config, more[0].0, more[0].1), more[1..], k);
    }
  }

  lemma {:induction false} PutAllKeepsPosition(config: Config, keys: seq<string>, value: Value, k: string)
    requires Get(config, k).Some?
    ensures Get(PutAll(config, keys, value), k).Some? && Position(PutAll(config, keys, value), k) == Position(config, k)
    decreases |keys|
  {
    if keys != [] {
      PutKeepsPosition(config, keys[0], value, k);
      PutAllKeepsPosition(Put(config, keys[0], value), keys[1..], value, k);
    }
  }

  lemma {:induction false} EnforcedKeepsPosition(glob: Glob, arrange: Arrange, merged: Config, base: Config,
                                                 overlay: Config, k: string)
    requires Get(merged, k).Some?
    ensures var result := Enforced(glob, arrange, merged, base, overlay);
      Get(result, k).Some? && Position(result, k) == Position(merged, k)
    decreases |base|
  {
    if base != [] {
      var (key, value) := base[0];
      var keys := arrange(EnforcedKeys(glob, key, overlay));
      PutAllKeepsPosition(merged, keys, value, k);
      var next := if IsDeny(value) then PutAll(merged, keys, value) else merged;
      EnforcedKeepsPosition(glob, arrange, next, base[1..], overlay, k);
    }
  }

  /** Keys that only the overlay has go behind all keys of the base ... */
  lemma {:induction false} NewKeysGoBehind(config: Config, more: Config, k: string)
    requires DistinctKeys(more) && Get(config, k).None? && Get(more, k).Some?
    ensures Get(Update(config, more), k).Some? && Position(Update(config, more), k) >= |config|
    decreases |more|
  {
    var (key, value) := more[0];
    PutAppendsNew(config, key, value);
    GetOfPut(config, key, value, k);
    if key == k {
      UpdateKeepsPosition(Put(config, key, value), more[1..], k);
    } else {
      NewKeysGoBehind(Put(config, key, value), more[1..], k);
    }
  }

  lemma {:induction false} PutAppendsNew(config: Config, key: string, value: Value)
    ensures |Put(config, key, value)| == |config| + if Get(config, key).Some? then 0 else 1
    ensures Get(config, key).None? ==>
      Get(Put(config, key, value), key).Some? && Position(Put(config, key, value), key) == |config|
  {
    GetOfPut(config, key, value, key);
    if config != [] && config[0].0 != key {
      PutAppendsNew(config[1..], key, value);
    }
  }

  /** ... and in the order in which the overlay has them. */
  lemma {:induction false} NewKeysKeepTheirOrder(config: Config, more: Config, a: string, b: string)
    requires DistinctKeys(more) && Get(more, a).Some? && Get(more, b).Some?
    requires Get(config, a).None? && Get(config, b).None? && Position(more, a) < Position(more, b)
    ensures var all := Update(config, more);
      Get(all, a).Some? && Get(all, b).Some? && Position(all, a) < Position(all, b)
    decreases |more|
  {
    var (key, value) := more[0];
    var next := Put(config, key, value);
    PutAppendsNew(config, key, value);
    GetOfPut(config, key, value, a);
    GetOfPut(config, key, value, b);
    if key == a {
      UpdateKeepsPosition(next, more[1..], a);
      NewKeysGoBehind(next, more[1..], b);
    } else {
      NewKeysKeepTheirOrder(next, more[1..], a, b);
    }
  }

  /** The keys of the base keep their places in the merge. */
  lemma MergeKeepsPosition(glob: Glob, arrange: Arrange, base: Config, overlay: Config, k: string)
    requires Get(base, k).Some?
    ensures var merged := Merged(glob, arrange, base, overlay);
      Get(merged, k).Some? && Position(merged, k) == Position(base, k)
  {
    UpdateKeepsPosition(base, overlay, k);
    EnforcedKeepsPosition(glob, arrange, Update(base, overlay), base, overlay, k);
  }

  // Places and numbers of rules

  lemma {:induction false} MoreEntriesMoreRules(config: Config, i: nat, j: nat)
    requires i <= j <= |config|
    ensures |RulesOf(config[..i])| <= |RulesOf(config[..j])|
    decreases j - i
  {
    if i < j {
      assert config[..j][..j - 1] == config[..j - 1];
      MoreEntriesMoreRules(config, i, j - 1);
    }
  }

  lemma EntryRulesAreNumbered(key: string, value: Value, order: nat, rule: Rule)
    requires rule in EntryRules(key, value, order)
    ensures rule.key == key && order <= rule.order < order + |EntryRules(key, value, order)|
  {
    var j :| 0 <= j < |EntryRules(key, value, order)| && EntryRules(key, value, order)[j] == rule;
  }

  /** The rule belongs to entry `i`. */
  predicate LiesIn(config: Config, rule: Rule, i: nat) {
    && i < |config| && config[i].0 == rule.key
    && |RulesOf(config[..i])| <= rule.order < |RulesOf(config[..i + 1])|
  }

  lemma {:induction false} RuleLiesIn(config: Config, rule: Rule) returns (i: nat)
    requires rule in RulesOf(config)
    ensures LiesIn(config, rule, i)
  {
    var n := |config| - 1;
    var before := RulesOf(config[..n]);
    if rule in before {
      i := RuleLiesIn(config[..n], rule);
      assert config[..n][..i] == config[..i] && config[..n][..i + 1] == config[..i + 1];
    } else {
      i := n;
      assert config[..n + 1] == config;
      EntryRulesAreNumbered(config[n].0, config[n].1, |before|, rule);
    }
  }

  lemma EarlierEntryEarlierRule(config: Config, a: Rule, i: nat, b: Rule, j: nat)
    requires LiesIn(config, a, i) && LiesIn(config, b, j) && i < j
    ensures a.order < b.order
  {
    MoreEntriesMoreRules(config, i + 1, j);
  }

  lemma KeyIsAt(config: Config, rule: Rule, i: nat)
    requires DistinctKeys(config) && LiesIn(config, rule, i)
    ensures Get(config, rule.key).Some? && Position(config, rule.key) == i
  {
    PositionOfEntry(config, i);
  }

  /** Rules are numbered in the order of their keys. */
  lemma OrderFollowsPosition(config: Config, a: Rule, b: Rule)
    requires DistinctKeys(config) && a in RulesOf(config) && b in RulesOf(config) && a.key != b.key
    ensures Get(config, a.key).Some? && Get(config, b.key).Some?
    ensures a.order < b.order <==> Position(config, a.key) < Position(config, b.key)
  {
    var i := RuleLiesIn(config, a);
    var j := RuleLiesIn(config, b);
    KeyIsAt(config, a, i);
    KeyIsAt(config, b, j);
    if i < j {
      EarlierEntryEarlierRule(config, a, i, b, j);
    } else if j < i {
      EarlierEntryEarlierRule(config, b, j, a, i);
    }
  }

  /** `a` is declared before `b`: the base comes first, then what only the overlay has. */
  predicate DeclaredBefore(base: Config, overlay: Config, a: string, b: string) {
    if Get(base, a).Some? then Get(base, b).Some? ==> Position(base, a) < Position(base, b)
    else
      && Get(base, b).None? && Get(overlay, a).Some? && Get(overlay, b).Some?
      && Position(overlay, a) < Position(overlay, b)
  }

  /** The configurations name the key. */
  predicate Named(base: Config, overlay: Config, key: string) {
    Get(base, key).Some? || Get(overlay, key).Some?
  }

  lemma DeclaredBeforeIsPosition(base: Config, overlay: Config, a: string, b: string)
    requires DistinctKeys(base) && DistinctKeys(overlay) && a != b
    requires Named(base, overlay, a) && Named(base, overlay, b) && DeclaredBefore(base, overlay, a, b)
    ensures var all := Update(base, overlay);
      Get(all, a).Some? && Get(all, b).Some? && Position(all, a) < Position(all, b)
  {
    if Get(base, a).Some? {
      UpdateKeepsPosition(base, overlay, a);
      if Get(base, b).Some? {
        UpdateKeepsPosition(base, overlay, b);
      } else {
        NewKeysGoBehind(base, overlay, b);
      }
    } else {
      NewKeysKeepTheirOrder(base, overlay, a, b);
    }
  }

  lemma OneIsDeclaredFirst(base: Config, overlay: Config, a: string, b: string)
    requires a != b && Named(base, overlay, a) && Named(base, overlay, b)
    ensures DeclaredBefore(base, overlay, a, b) || DeclaredBefore(base, overlay, b, a)
  {
  }

  /** Places in the merge follow the declarations. */
  lemma MergeFollowsDeclarations(glob: Glob, arrange: Arrange, base: Config, overlay: Config, a: string, b: string)
    requires DistinctKeys(base) && DistinctKeys(overlay) && a != b
    requires Named(base, overlay, a) && Named(base, overlay, b)
    ensures var merged := Merged(glob, arrange, base, overlay);
      && Get(merged, a).Some? && Get(merged, b).Some?
      && (Position(merged, a) < Position(merged, b) <==> DeclaredBefore(base, overlay, a, b))
  {
    OneIsDeclaredFirst(base, overlay, a, b);
    var first, second := if DeclaredBefore(base, overlay, a, b) then a else b,
                         if DeclaredBefore(base, overlay, a, b) then b else a;
    DeclaredBeforeIsPosition(base, overlay, first, second);
    EnforcedKeepsPosition(glob, arrange, Update(base, overlay), base, overlay, first);
    EnforcedKeepsPosition(glob, arrange, Update(base, overlay), base, overlay, second);
  }

  /** Of two wildcards that match, `a` comes first: it is longer, or as long and declared earlier. */
  predicate ComesFirst(base: Config, overlay: Config, a: string, b: string) {
    |a| > |b| || (|a| == |b| && DeclaredBefore(base, overlay, a, b))
  }

  /** The same, in one configuration. */
  predicate Precedes(config: Config, a: string, b: string) {
    || |a| > |b|
    || (|a| == |b| && Get(config, a).Some? && Get(config, b).Some? && Position(config, a) < Position(config, b))
  }

  lemma PrecedesIsBefore(config: Config, a: Rule, b: Rule)
    requires DistinctKeys(config) && a in RulesOf(config) && b in RulesOf(config) && a.key != b.key
    ensures Before(Match(a, Wildcard), Match(b, Wildcard)) <==> Precedes(config, a.key, b.key)
  {
    OrderFollowsPosition(config, a, b);
  }

  lemma DirectRule(config: Config, key: string) returns (rule: Rule)
    requires Get(config, key).Some? && Get(config, key).value.Direct?
    ensures rule in RulesOf(config) && rule.key == key && rule.pattern == None
    ensures rule.action == Get(config, key).value.action
  {
    var i := EntryOf(config, key);
    rule := EntryGivesRule(config, i, None, config[i].1.action, config[i].1.details);
  }

  // What is put back

  /** A denial of the base is put back under `key`. */
  predicate PutBack(glob: Glob, base: Config, overlay: Config, key: string) {
    exists i :: 0 <= i < |base| && PutBackBy(glob, base[i], overlay, key)
  }

  predicate PutBackBy(glob: Glob, entry: (string, Value), overlay: Config, key: string) {
    IsDeny(entry.1) && key in EnforcedKeys(glob, entry.0, overlay)
  }

  lemma {:induction false} EnforcedKeepsOthers(glob: Glob, arrange: Arrange, merged: Config, base: Config,
                                               overlay: Config, key: string)
    requires Arranges(arrange) && !PutBack(glob, base, overlay, key)
    ensures Get(Enforced(glob, arrange, merged, base, overlay), key) == Get(merged, key)
    decreases |base|
  {
    if base != [] {
      var (k, value) := base[0];
      var keys := arrange(EnforcedKeys(glob, k, overlay));
      assert !PutBackBy(glob, base[0], overlay, key);
      GetOfPutAll(merged, keys, value, key);
      forall i | 0 <= i < |base[1..]| ensures !PutBackBy(glob, base[1..][i], overlay, key) {
        assert !PutBackBy(glob, base[i + 1], overlay, key);
      }
      var next := if IsDeny(value) then PutAll(merged, keys, value) else merged;
      EnforcedKeepsOthers(glob, arrange, next, base[1..], overlay, key);
    }
  }

  /** Under a key, the merge holds a denial if one is put back, else what the overlay says, else what the base says. */
  lemma MergeHolds(glob: Glob, arrange: Arrange, base: Config, overlay: Config, key: string)
    requires Arranges(arrange) && DistinctKeys(base) && DistinctKeys(overlay)
    ensures var merged := Merged(glob, arrange, base, overlay);
      && DistinctKeys(merged)
      && (PutBack(glob, base, overlay, key) ==> Denied(merged, key))
      && (!PutBack(glob, base, overlay, key) ==>
            Get(merged, key) == if Get(overlay, key).Some? then Get(overlay, key) else Get(base, key))
  {
    GetOfUpdate(base, overlay, key);
    GetOfEnforced(glob, arrange, Update(base, overlay), base, overlay, key);
    if PutBack(glob, base, overlay, key) {
      var i :| 0 <= i < |base| && PutBackBy(glob, base[i], overlay, key);
    } else {
      EnforcedKeepsOthers(glob, arrange, Update(base, overlay), base, overlay, key);
    }
  }

  // Whether the denial decides

  predicate MatchesTool(glob: Glob, key: string, toolId: string) {
    IsWildcard(key) && key != "*" && glob(toolId, key)
  }

  /** The configuration decides the call by the direct denial of the wildcard `key`. */
  predicate DeniedBy(glob: Glob, config: Config, call: Call, key: string) {
    var selected := Select(glob, RulesOf(config), call);
    && selected.Some? && selected.value.matchType == Wildcard
    && selected.value.rule.key == key && selected.value.rule.action == Deny
  }

  /** The overlay allows or asks under the wildcard `key`, under which no denial is put back, and which comes before
      every wildcard that matches the tool and is denied by the overlay, or under which a denial is put back. */
  ghost predicate Overrules(glob: Glob, base: Config, overlay: Config, toolId: string, key: string) {
    && Get(overlay, key).Some? && Get(overlay, key).value.Direct? && Get(overlay, key).value.action != Deny
    && MatchesTool(glob, key, toolId) && !PutBack(glob, base, overlay, key)
    && forall d :: (PutBack(glob, base, overlay, d) || Denied(overlay, d)) && MatchesTool(glob, d, toolId) ==>
         ComesFirst(base, overlay, key, d)
  }

  /** The same, as the merge shows it. */
  ghost predicate OverrulesInMerge(glob: Glob, arrange: Arrange, base: Config, overlay: Config, toolId: string,
                                   key: string)
  {
    && Get(overlay, key).Some? && Get(overlay, key).value.Direct? && Get(overlay, key).value.action != Deny
    && MatchesTool(glob, key, toolId) && !PutBack(glob, base, overlay, key)
    && var merged := Merged(glob, arrange, base, overlay);
       forall d :: Denied(merged, d) && MatchesTool(glob, d, toolId) ==> Precedes(merged, key, d)
  }

  lemma {:induction false} DeniedIsPutBack(glob: Glob, base: Config, overlay: Config, key: string)
    requires Denied(base, key)
    ensures PutBack(glob, base, overlay, key)
  {
    var i := EntryOf(base, key);
    assert PutBackBy(glob, base[i], overlay, key);
  }

  lemma DeniedInMergeIff(glob: Glob, arrange: Arrange, base: Config, overlay: Config, key: string)
    requires Arranges(arrange) && DistinctKeys(base) && DistinctKeys(overlay)
    ensures Denied(Merged(glob, arrange, base, overlay), key) <==>
            PutBack(glob, base, overlay, key) || Denied(overlay, key)
  {
    MergeHolds(glob, arrange, base, overlay, key);
    if Denied(base, key) {
      DeniedIsPutBack(glob, base, overlay, key);
    }
  }

  /** A wildcard under which a denial is put back is a key of the base or of the overlay. */
  lemma PutBackIsNamed(glob: Glob, base: Config, overlay: Config, key: string)
    requires PutBack(glob, base, overlay, key) && IsWildcard(key) && key != "*"
    ensures Named(base, overlay, key)
  {
    var i :| 0 <= i < |base| && PutBackBy(glob, base[i], overlay, key);
    HasItsKeys(base, i);
    KeysAreGot(overlay, key);
    AliasesAreNoWildcards(base[i].0, key);
  }

  predicate IsPlainName(key: string) {
    !IsWildcard(key)
  }

  lemma AliasesArePlain()
    ensures forall tool <- {"read", "write", "edit", "apply_patch", "glob", "grep", "bash", "task"} :: IsPlainName(tool)
    ensures forall tool <- {"todowrite", "webfetch", "websearch", "web_search", "lsp", "skill", "question"} ::
              IsPlainName(tool)
  {
  }

  lemma AliasesAreNoWildcards(category: string, key: string)
    requires IsWildcard(key)
    ensures category in CATEGORY_ALIASES ==> key !in CATEGORY_ALIASES[category]
  {
    AliasesArePlain();
    assert !IsPlainName(key);
  }

  lemma OverrulesIsShownByMerge(glob: Glob, arrange: Arrange, base: Config, overlay: Config, toolId: string,
                                key: string)
    requires Arranges(arrange) && DistinctKeys(base) && DistinctKeys(overlay)
    ensures Overrules(glob, base, overlay, toolId, key) <==>
            OverrulesInMerge(glob, arrange, base, overlay, toolId, key)
  {
    if Get(overlay, key).Some? && !PutBack(glob, base, overlay, key) && !Denied(overlay, key) {
      forall d | MatchesTool(glob, d, toolId)
        ensures Denied(Merged(glob, arrange, base, overlay), d) <==>
                PutBack(glob, base, overlay, d) || Denied(overlay, d)
        ensures PutBack(glob, base, overlay, d) || Denied(overlay, d) ==>
                (ComesFirst(base, overlay, key, d) <==> Precedes(Merged(glob, arrange, base, overlay), key, d))
      {
        DeniedInMergeIff(glob, arrange, base, overlay, d);
        if PutBack(glob, base, overlay, d) || Denied(overlay, d) {
          if PutBack(glob, base, overlay, d) {
            PutBackIsNamed(glob, base, overlay, d);
          }
          MergeFollowsDeclarations(glob, arrange, base, overlay, key, d);
        }
      }
    }
  }

  lemma DenialOfBase(glob: Glob, base: Config, overlay: Config, call: Call, key: string)
    requires DistinctKeys(base) && DeniedBy(glob, base, call, key)
    ensures Denied(base, key) && MatchesTool(glob, key, call.toolId)
    ensures PutBack(glob, base, overlay, key)
    ensures Get(overlay, call.toolId).Some? ==> PutBack(glob, base, overlay, call.toolId)
  {
    SelectIsLeast(glob, base, call);
    RuleComesFromValue(base, Select(glob, RulesOf(base), call).value.rule);
    var i := EntryOf(base, key);
    WildcardIsNoAlias(key);
    assert PutBackBy(glob, base[i], overlay, key);
    KeysAreGot(overlay, call.toolId);
    if Get(overlay, call.toolId).Some? {
      assert PutBackBy(glob, base[i], overlay, call.toolId);
    }
  }

  /** Unless a denial is put back under its name, no rule under its name applies to the call. */
  lemma NoExactRule(glob: Glob, arrange: Arrange, base: Config, overlay: Config, call: Call, key: string, rule: Rule,
                    t: MatchType)
    requires Arranges(arrange) && DistinctKeys(base) && DistinctKeys(overlay)
    requires DeniedBy(glob, base, call, key) && !PutBack(glob, base, overlay, call.toolId)
    requires t == Exact || t == ExactSubject
    ensures !(rule in RulesOf(Merged(glob, arrange, base, overlay)) && Applies(glob, rule, t, call))
  {
    var merged := Merged(glob, arrange, base, overlay);
    if rule in RulesOf(merged) && Applies(glob, rule, t, call) {
      DenialOfBase(glob, base, overlay, call, key);
      MergeHolds(glob, arrange, base, overlay, call.toolId);
      RuleComesFromValue(merged, rule);
      var i := EntryOf(base, rule.key);
      var same := EntryGivesRule(base, i, rule.pattern, rule.action, rule.details);
      SelectedIsNoWorse(glob, base, call, same, t);
    }
  }

  /** A match that is as good as a direct wildcard. */
  lemma AsGoodAsWildcard(m: Match, rule: Rule)
    requires m == Match(rule, Wildcard) || Before(m, Match(rule, Wildcard))
    ensures m.matchType == Exact || m.matchType == ExactSubject || m.matchType == Wildcard
  {
  }

  lemma WildcardIsSelected(glob: Glob, config: Config, call: Call, rule: Rule)
    requires rule in RulesOf(config) && Applies(glob, rule, Wildcard, call)
    requires forall r <- RulesOf(config) :: !Applies(glob, r, Exact, call) && !Applies(glob, r, ExactSubject, call)
    ensures SelectsWildcard(glob, config, call)
  {
    SelectedIsNoWorse(glob, config, call, rule, Wildcard);
    AsGoodAsWildcard(Select(glob, RulesOf(config), call).value, rule);
  }

  /** The configuration decides the call by a direct wildcard. */
  predicate SelectsWildcard(glob: Glob, config: Config, call: Call) {
    var selected := Select(glob, RulesOf(config), call);
    && selected.Some? && selected.value.matchType == Wildcard && selected.value.rule in RulesOf(config)
    && Applies(glob, selected.value.rule, Wildcard, call)
  }

  /** So the merge selects one of the wildcards, the denial of the base being among them. */
  lemma MergeSelectsWildcard(glob: Glob, arrange: Arrange, base: Config, overlay: Config, call: Call, key: string)
    requires Arranges(arrange) && DistinctKeys(base) && DistinctKeys(overlay)
    requires DeniedBy(glob, base, call, key) && !PutBack(glob, base, overlay, call.toolId)
    ensures SelectsWildcard(glob, Merged(glob, arrange, base, overlay), call)
  {
    var merged := Merged(glob, arrange, base, overlay);
    DenialOfBase(glob, base, overlay, call, key);
    MergeHolds(glob, arrange, base, overlay, key);
    var rule := DirectRule(merged, key);
    forall r <- RulesOf(merged) ensures !Applies(glob, r, Exact, call) && !Applies(glob, r, ExactSubject, call) {
      NoExactRule(glob, arrange, base, overlay, call, key, r, Exact);
      NoExactRule(glob, arrange, base, overlay, call, key, r, ExactSubject);
    }
    WildcardIsSelected(glob, merged, call, rule);
  }

  /** A selected wildcard that is no denial comes before all that are. */
  lemma SelectedPrecedesDenial(glob: Glob, config: Config, call: Call, rule: Rule, d: string)
    requires DistinctKeys(config) && Select(glob, RulesOf(config), call) == Some(Match(rule, Wildcard))
    requires rule in RulesOf(config) && rule.action != Deny && rule.pattern == None
    requires Denied(config, d) && MatchesTool(glob, d, call.toolId)
    ensures Precedes(config, rule.key, d)
  {
    var other := DirectRule(config, d);
    RuleComesFromValue(config, rule);
    SelectedIsNoWorse(glob, config, call, other, Wildcard);
    PrecedesIsBefore(config, rule, other);
  }

  /** A wildcard that only the base has does not come before the denial that decides there. */
  lemma BaseKeepsItsOrder(glob: Glob, arrange: Arrange, base: Config, overlay: Config, call: Call, key: string,
                          rule: Rule)
    requires Arranges(arrange) && DistinctKeys(base) && DistinctKeys(overlay)
    requires DeniedBy(glob, base, call, key) && rule.action != Deny
    requires var merged := Merged(glob, arrange, base, overlay);
      rule in RulesOf(merged) && Applies(glob, rule, Wildcard, call) && Get(merged, rule.key) == Get(base, rule.key)
    ensures !Precedes(Merged(glob, arrange, base, overlay), rule.key, key)
  {
    var merged := Merged(glob, arrange, base, overlay);
    MergeHolds(glob, arrange, base, overlay, key);
    RuleComesFromValue(merged, rule);
    DenialOfBase(glob, base, overlay, call, key);
    var same := DirectRule(base, rule.key);
    var denial := Select(glob, RulesOf(base), call).value.rule;
    SelectIsLeast(glob, base, call);
    PrecedesIsBefore(base, denial, same);
    MergeKeepsPosition(glob, arrange, base, overlay, key);
    MergeKeepsPosition(glob, arrange, base, overlay, rule.key);
  }

  /** A direct wildcard that the merge selects and that is no denial is the overlay's. */
  lemma SelectedIsOfOverlay(glob: Glob, arrange: Arrange, base: Config, overlay: Config, call: Call, key: string,
                            rule: Rule)
    requires Arranges(arrange) && DistinctKeys(base) && DistinctKeys(overlay)
    requires DeniedBy(glob, base, call, key)
    requires var merged := Merged(glob, arrange, base, overlay);
      && Select(glob, RulesOf(merged), call) == Some(Match(rule, Wildcard))
      && rule in RulesOf(merged) && Applies(glob, rule, Wildcard, call)
    requires rule.action != Deny
    ensures Get(overlay, rule.key).Some? && Get(overlay, rule.key).value.Direct?
    ensures Get(overlay, rule.key).value.action != Deny && !PutBack(glob, base, overlay, rule.key)
  {
    var merged := Merged(glob, arrange, base, overlay);
    MergeHolds(glob, arrange, base, overlay, rule.key);
    RuleComesFromValue(merged, rule);
    if Get(overlay, rule.key).None? {
      BaseKeepsItsOrder(glob, arrange, base, overlay, call, key, rule);
      DenialOfBase(glob, base, overlay, call, key);
      MergeHolds(glob, arrange, base, overlay, key);
      SelectedPrecedesDenial(glob, merged, call, rule, key);
    }
  }

  /** What the merge selects instead of a denial overrules it. */
  lemma SelectedOverrules(glob: Glob, arrange: Arrange, base: Config, overlay: Config, call: Call, key: string)
    requires Arranges(arrange) && DistinctKeys(base) && DistinctKeys(overlay)
    requires DeniedBy(glob, base, call, key) && !PutBack(glob, base, overlay, call.toolId)
    requires !Denies(glob, Merged(glob, arrange, base, overlay), call)
    ensures exists k :: OverrulesInMerge(glob, arrange, base, overlay, call.toolId, k)
  {
    var merged := Merged(glob, arrange, base, overlay);
    MergeSelectsWildcard(glob, arrange, base, overlay, call, key);
    var rule := Select(glob, RulesOf(merged), call).value.rule;
    SelectedIsOfOverlay(glob, arrange, base, overlay, call, key, rule);
    MergeHolds(glob, arrange, base, overlay, rule.key);
    forall d | Denied(merged, d) && MatchesTool(glob, d, call.toolId) ensures Precedes(merged, rule.key, d) {
      SelectedPrecedesDenial(glob, merged, call, rule, d);
    }
    assert OverrulesInMerge(glob, arrange, base, overlay, call.toolId, rule.key);
  }

  /** A wildcard that comes before the denials keeps them from being selected. */
  lemma PrecedingIsNotDenied(glob: Glob, config: Config, call: Call, k: string)
    requires DistinctKeys(config) && SelectsWildcard(glob, config, call)
    requires Get(config, k).Some? && Get(config, k).value.Direct? && Get(config, k).value.action != Deny
    requires MatchesTool(glob, k, call.toolId)
    requires forall d :: Denied(config, d) && MatchesTool(glob, d, call.toolId) ==> Precedes(config, k, d)
    ensures !Denies(glob, config, call)
  {
    var selected := Select(glob, RulesOf(config), call).value.rule;
    RuleComesFromValue(config, selected);
    if selected.action == Deny {
      var rule := DirectRule(config, k);
      SelectedIsNoWorse(glob, config, call, rule, Wildcard);
      assert Denied(config, selected.key) && Precedes(config, k, selected.key);
      PrecedesIsBefore(config, rule, selected);
    }
  }

  lemma OverruledIsNotDenied(glob: Glob, arrange: Arrange, base: Config, overlay: Config, call: Call, key: string,
                             k: string)
    requires Arranges(arrange) && DistinctKeys(base) && DistinctKeys(overlay)
    requires DeniedBy(glob, base, call, key) && !PutBack(glob, base, overlay, call.toolId)
    requires OverrulesInMerge(glob, arrange, base, overlay, call.toolId, k)
    ensures !Denies(glob, Merged(glob, arrange, base, overlay), call)
  {
    MergeSelectsWildcard(glob, arrange, base, overlay, call, key);
    MergeHolds(glob, arrange, base, overlay, k);
    PrecedingIsNotDenied(glob, Merged(glob, arrange, base, overlay), call, k);
  }

  /**
  A call that the base denies by a wildcard is denied by the merge, too, if and only if a denial is put back under the
  very name of the tool (so it is if the overlay names it), or no wildcard of the overlay overrules the denials.
  */
  lemma WildcardDenySurvivesIff(glob: Glob, arrange: Arrange, base: Config, overlay: Config, call: Call, key: string)
    requires Arranges(arrange) && DistinctKeys(base) && DistinctKeys(overlay)
    requires DeniedBy(glob, base, call, key)
    ensures Denies(glob, Merged(glob, arrange, base, overlay), call) <==>
            PutBack(glob, base, overlay, call.toolId) ||
            !exists k :: Overrules(glob, base, overlay, call.toolId, k)
    ensures Get(overlay, call.toolId).Some? ==> PutBack(glob, base, overlay, call.toolId)
  {
    var merged := Merged(glob, arrange, base, overlay);
    DenialOfBase(glob, base, overlay, call, key);
    if PutBack(glob, base, overlay, call.toolId) {
      MergeHolds(glob, arrange, base, overlay, call.toolId);
      DirectDenyDenies(glob, merged, call);
    } else if k :| Overrules(glob, base, overlay, call.toolId, k) {
      OverrulesIsShownByMerge(glob, arrange, base, overlay, call.toolId, k);
      OverruledIsNotDenied(glob, arrange, base, overlay, call, key, k);
    } else if !Denies(glob, merged, call) {
      SelectedOverrules(glob, arrange, base, overlay, call, key);
      var k :| OverrulesInMerge(glob, arrange, base, overlay, call.toolId, k);
      OverrulesIsShownByMerge(glob, arrange, base, overlay, call.toolId, k);
    }
  }

  const NARROW: Config := [("mcp_*", Direct(Deny, []))]
  const WIDE: Config := [("*_tool", Direct(Allow, []))]

  lemma PutBackUnderNarrow(glob: Glob, key: string)
    requires !glob("*_tool", "mcp_*")
    ensures PutBack(glob, NARROW, WIDE, key) <==> key == "mcp_*"
  {
    assert "mcp_*"[4] == '*';
    WildcardIsNoAlias("mcp_*");
    assert WIDE[1..] == [];
    assert Keys(WIDE) == {"*_tool"};
    assert EnforcedKeys(glob, "mcp_*", WIDE) == {"mcp_*"};
    assert PutBackBy(glob, NARROW[0], WIDE, "mcp_*");
  }

  lemma NarrowDenies(glob: Glob)
    requires glob("mcp_tool", "mcp_*")
    ensures DeniedBy(glob, NARROW, Call("mcp_tool", "", None), "mcp_*")
  {
    var call := Call("mcp_tool", "", None);
    assert "mcp_*"[4] == '*' && NARROW[1..] == [];
    var rule := DirectRule(NARROW, "mcp_*");
    SelectedIsNoWorse(glob, NARROW, call, rule, Wildcard);
    var selected := Select(glob, RulesOf(NARROW), call).value;
    RuleComesFromValue(NARROW, selected.rule);
  }

  lemma WideOverrules(glob: Glob)
    requires glob("mcp_tool", "*_tool") && !glob("*_tool", "mcp_*")
    ensures Overrules(glob, NARROW, WIDE, "mcp_tool", "*_tool")
  {
    PutBackUnderNarrow(glob, "*_tool");
    assert "*_tool"[0] == '*' && WIDE[1..] == [];
    assert |"*_tool"| == 6 && |"mcp_*"| == 5;
    forall d | PutBack(glob, NARROW, WIDE, d) || Denied(WIDE, d) ensures ComesFirst(NARROW, WIDE, "*_tool", d) {
      PutBackUnderNarrow(glob, d);
      assert Get(WIDE[1..], d).None?;
    }
  }

  /** Such an overlay: a longer wildcard, which the wildcard denial of the base does not match. */
  lemma LongerWildcardOverrules(glob: Glob, arrange: Arrange)
    requires Arranges(arrange)
    requires glob("mcp_tool", "mcp_*") && glob("mcp_tool", "*_tool") && !glob("*_tool", "mcp_*")
    ensures DeniedBy(glob, NARROW, Call("mcp_tool", "", None), "mcp_*")
    ensures Overrules(glob, NARROW, WIDE, "mcp_tool", "*_tool")
    ensures !Denies(glob, Merged(glob, arrange, NARROW, WIDE), Call("mcp_tool", "", None))
  {
    NarrowDenies(glob);
    WideOverrules(glob);
    ToolIsNotPutBack(glob);
    NarrowAndWideAreDistinct();
    OverruledCallIsNotDenied(glob, arrange, NARROW, WIDE, Call("mcp_tool", "", None), "mcp_*", "*_tool");
  }

  lemma OverruledCallIsNotDenied(glob: Glob, arrange: Arrange, base: Config, overlay: Config, call: Call, key: string,
                                 k: string)
    requires Arranges(arrange) && DistinctKeys(base) && DistinctKeys(overlay)
    requires DeniedBy(glob, base, call, key) && !PutBack(glob, base, overlay, call.toolId)
    requires Overrules(glob, base, overlay, call.toolId, k)
    ensures !Denies(glob, Merged(glob, arrange, base, overlay), call)
  {
    WildcardDenySurvivesIff(glob, arrange, base, overlay, call, key);
  }

  lemma ToolIsNotPutBack(glob: Glob)
    requires !glob("*_tool", "mcp_*")
    ensures !PutBack(glob, NARROW, WIDE, "mcp_tool")
  {
    PutBackUnderNarrow(glob, "mcp_tool");
    assert |"mcp_tool"| != |"mcp_*"|;
  }

  lemma NarrowAndWideAreDistinct()
    ensures DistinctKeys(NARROW) && DistinctKeys(WIDE)
  {
    DistinctOfOne("mcp_*", Direct(Deny, []));
    DistinctOfOne("*_tool", Direct(Allow, []));
  }

  lemma DistinctOfOne(key: string, value: Value)
    ensures DistinctKeys([(key, value)])
  {
    assert [(key, value)][1..] == [];
  }
}

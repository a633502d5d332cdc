/**
What the rules of an accepted configuration say, by the words it was written with: of several entries whose
keys come to the same when stripped the last counts, for tools as for subjects.
*/
module PermissionWriting {
  import opened Dictionaries
  import opened Options
  import opened PermissionConfig
  import opened PermissionNormalize
  import opened PythonText

  predicate Means(text: string, action: Action) {
    || (text == "allow" && action == Allow)
    || (text == "deny" && action == Deny)
    || (text == "ask" && action == Action.Ask)
  }

  /** The action, as a word or as the `action` of a mapping. */
  predicate Says(raw: Raw, action: Action) {
    || (raw.Text? && Means(raw.text, action))
    || (raw.Mapping? && match Field(raw.entries, "action") case Some(Text(text)) => Means(text, action) case _ => false)
  }

  predicate IsUnder(entry: Entry, key: string) {
    entry.0.Some? && Stripped(entry.0.value) == key
  }

  /** What the last of the entries under a key holds. */
  function Latest(entries: seq<Entry>, key: string): Option<Raw> {
    if entries == [] then None
    else
      var n := |entries| - 1;
      if IsUnder(entries[n], key) then Some(entries[n].1) else Latest(entries[..n], key)
  }

  lemma {:induction false} LatestFromTheFront(entries: seq<Entry>, key: string)
    requires entries != []
    ensures Latest(entries, key) ==
            if Latest(entries[1..], key).Some? then Latest(entries[1..], key)
            else if IsUnder(entries[0], key) then Some(entries[0].1) else None
  {
    var n := |entries| - 1;
    if n > 0 {
      assert entries[1..][..n - 1] == entries[..n][1..] && entries[1..][n - 1] == entries[n];
      LatestFromTheFront(entries[..n], key);
    }
  }

  lemma {:induction false} LatestIsEntry(entries: seq<Entry>, key: string) returns (i: nat)
    requires Latest(entries, key).Some?
    ensures i < |entries| && IsUnder(entries[i], key) && entries[i].1 == Latest(entries, key).value
    ensures forall j :: i < j < |entries| ==> !IsUnder(entries[j], key)
  {
    var n := |entries| - 1;
    if IsUnder(entries[n], key) {
      i := n;
    } else {
      i := LatestIsEntry(entries[..n], key);
    }
  }

  // Tools

  lemma {:induction false} GetOfNormalEntries(entries: seq<Entry>, done: Dict, key: string)
    requires NormalEntries(entries, done).Ok?
    ensures Get(NormalEntries(entries, done).value, key) ==
            match Latest(entries, key)
            case Some(raw) => if NormalValue(raw).Ok? then Some(NormalValue(raw).value) else None
            case None => Get(done, key)
    ensures Latest(entries, key).Some? ==> NormalValue(Latest(entries, key).value).Ok?
    decreases |entries|
  {
    if entries != [] {
      var value := NormalValue(entries[0].1).value;
      LatestFromTheFront(entries, key);
      GetOfPut(done, Stripped(entries[0].0.value), value, key);
      GetOfNormalEntries(entries[1..], Put(done, Stripped(entries[0].0.value), value), key);
    }
  }

  lemma {:induction false} GetOfNormalSubjects(entries: seq<Entry>, done: Dict, key: string)
    requires NormalSubjects(entries, done).Ok?
    ensures Get(NormalSubjects(entries, done).value, key) ==
            if Latest(entries, key).Some? then Latest(entries, key) else Get(done, key)
    ensures Latest(entries, key).Some? ==> RuleError(Latest(entries, key).value).None?
    decreases |entries|
  {
    if entries != [] {
      LatestFromTheFront(entries, key);
      GetOfPut(done, Stripped(entries[0].0.value), entries[0].1, key);
      GetOfNormalSubjects(entries[1..], Put(done, Stripped(entries[0].0.value), entries[0].1), key);
    }
  }

  lemma {:induction false} GetOfRead(dict: Dict, key: string)
    ensures Get(Read(dict), key) == match Get(dict, key) case Some(raw) => Some(ReadValue(raw)) case None => None
    ensures DistinctKeys(dict) ==> DistinctKeys(Read(dict))
  {
    if dict != [] {
      assert Read(dict)[1..] == Read(dict[1..]);
      GetOfRead(dict[1..], key);
      GetOfRead(dict[1..], dict[0].0);
    }
  }

  lemma SaysIff(raw: Raw)
    requires RuleError(raw).None?
    ensures Says(raw, ReadRule(raw)) && ReadRule(raw) != Unknown
    ensures forall action :: Says(raw, action) ==> action == ReadRule(raw)
  {
  }

  lemma SaysDirectly(raw: Raw)
    requires NormalValue(raw).Ok? && (raw.Mapping? ==> Field(raw.entries, "action").Some?)
    ensures NormalValue(raw).value == raw && ReadValue(raw).Direct? && Says(raw, ReadValue(raw).action)
    ensures forall action :: Says(raw, action) ==> action == ReadValue(raw).action
  {
  }

  // Subjects

  lemma {:induction false} ReadSubjectsOf(dict: Dict, rule: SubjectRule)
    requires DistinctKeys(dict)
    ensures rule in ReadSubjects(Entries(dict)) <==>
            Get(dict, rule.pattern).Some? && rule == ReadSubject(rule.pattern, Get(dict, rule.pattern).value)
  {
    if dict != [] {
      assert Entries(dict)[1..] == Entries(dict[1..]);
      ReadSubjectsOf(dict[1..], rule);
      assert rule.pattern == dict[0].0 ==> Get(dict[1..], rule.pattern).None?;
    }
  }

  /** The value under a key, by subject: the rules are the last entry of each pattern. */
  lemma SubjectsAreLatest(entries: seq<Entry>, rule: SubjectRule)
    requires Field(entries, "action").None? && NormalValue(Mapping(entries)).Ok?
    requires ReadValue(NormalValue(Mapping(entries)).value).Subjects?
    ensures rule in ReadValue(NormalValue(Mapping(entries)).value).rules <==>
            && Latest(entries, rule.pattern).Some?
            && rule == ReadSubject(rule.pattern, Latest(entries, rule.pattern).value)
    ensures Latest(entries, rule.pattern).Some? ==> RuleError(Latest(entries, rule.pattern).value).None?
  {
    var dict := NormalSubjects(entries, []).value;
    SubjectsAreNormal(entries, []);
    GetOfNormalSubjects(entries, [], rule.pattern);
    ReadSubjectsOf(dict, rule);
  }

  /** A mapping without a key `action` that is read as one action for all subjects: the pattern that became the key. */
  lemma PatternThatBecameAction(entries: seq<Entry>)
    requires Field(entries, "action").None? && NormalValue(Mapping(entries)).Ok?
    requires ReadValue(NormalValue(Mapping(entries)).value).Direct?
    ensures var latest := Latest(entries, "action");
      && latest.Some?
      && var action := ReadValue(NormalValue(Mapping(entries)).value).action;
      if latest.value.Text? then Says(latest.value, action) else latest.value.Mapping? && action == Unknown
  {
    var dict := NormalSubjects(entries, []).value;
    GetOfNormalSubjects(entries, [], "action");
    FieldOfEntries(dict, "action");
  }

  // Acceptance

  predicate IsActionWord(text: string) {
    text == "allow" || text == "deny" || text == "ask"
  }

  predicate HasActionWord(raw: Raw) {
    raw.Mapping? && match Field(raw.entries, "action") case Some(Text(text)) => IsActionWord(text) case _ => false
  }

  predicate IsNamed(entry: Entry) {
    entry.0.Some? && Stripped(entry.0.value) != ""
  }

  /** A rule for a subject: an action word, or a mapping with one and with no other keys than `reason` and `risk`. */
  predicate IsWellWrittenRule(raw: Raw) {
    || (raw.Text? && IsActionWord(raw.text))
    || (HasActionWord(raw)
        && forall e <- raw.entries :: e.0 == Some("action") || e.0 == Some("reason") || e.0 == Some("risk"))
  }

  /** The value of a key: an action word, a mapping with one, or a mapping from patterns to rules. */
  predicate IsWellWrittenValue(raw: Raw) {
    || (raw.Text? && IsActionWord(raw.text))
    || HasActionWord(raw)
    || (raw.Mapping? && Field(raw.entries, "action").None?
        && forall e <- raw.entries :: IsNamed(e) && IsWellWrittenRule(e.1))
  }

  lemma ValueIsAcceptedIff(raw: Raw)
    ensures NormalValue(raw).Ok? <==> IsWellWrittenValue(raw)
  {
    if raw.Mapping? && Field(raw.entries, "action").None? {
      SubjectsAreNormal(raw.entries, []);
      forall e <- raw.entries ensures SubjectError(e).None? <==> IsNamed(e) && IsWellWrittenRule(e.1) {
      }
    }
  }

  /** A configuration is accepted exactly if it is absent, or a mapping from names to well written values. */
  lemma AcceptedIffWellWritten(raw: Raw)
    ensures Normal(raw).Ok? <==>
            raw.Null? || (raw.Mapping? && forall e <- raw.entries :: IsNamed(e) && IsWellWrittenValue(e.1))
  {
    NormalizingSucceedsIff(raw);
    if raw.Mapping? {
      forall e <- raw.entries ensures EntryError(e).None? <==> IsNamed(e) && IsWellWrittenValue(e.1) {
        ValueIsAcceptedIff(e.1);
      }
    }
  }

  // The rules

  lemma ValueUnder(raw: Raw, key: string)
    requires raw.Mapping? && Normal(raw).Ok?
    ensures var config := Read(Normal(raw).value);
      && DistinctKeys(config)
      && (Get(config, key).Some? <==> Latest(raw.entries, key).Some?)
      && (Get(config, key).Some? ==>
            && NormalValue(Latest(raw.entries, key).value).Ok?
            && Get(config, key).value == ReadValue(NormalValue(Latest(raw.entries, key).value).value))
  {
    NormalizingSucceedsIff(raw);
    GetOfNormalEntries(raw.entries, [], key);
    GetOfRead(Normal(raw).value, key);
  }

  /** Every rule of an accepted configuration says what is written last under its key, and by subject what is written
      there last under its pattern: "allow", "deny" or "ask". The exception is a pattern that turns into the key
      `action` over a mapping: that rule has no known action. */
  lemma RulesSayWhatIsWritten(raw: Raw, rule: Rule)
    requires raw.Mapping? && Normal(raw).Ok? && rule in RulesOf(Read(Normal(raw).value))
    ensures var written := Latest(raw.entries, rule.key);
      && written.Some?
      && if rule.pattern.Some? then
           && written.value.Mapping? && Latest(written.value.entries, rule.pattern.value).Some?
           && Says(Latest(written.value.entries, rule.pattern.value).value, rule.action)
         else
           || Says(written.value, rule.action)
           || (&& written.value.Mapping? && Latest(written.value.entries, "action").Some?
               && var action := Latest(written.value.entries, "action").value;
               if action.Text? then Says(action, rule.action) else action.Mapping? && rule.action == Unknown)
  {
    var config := Read(Normal(raw).value);
    ValueUnder(raw, rule.key);
    RuleComesFromValue(config, rule);
    var written := Latest(raw.entries, rule.key).value;
    if written.Mapping? && Field(written.entries, "action").None? {
      if rule.pattern.Some? {
        var subject := SubjectRule(rule.pattern.value, rule.action, rule.details);
        SubjectsAreLatest(written.entries, subject);
        SaysIff(Latest(written.entries, subject.pattern).value);
      } else {
        PatternThatBecameAction(written.entries);
      }
    } else {
      SaysDirectly(written);
    }
  }

  lemma RuleOfValue(config: Config, key: string, pattern: Option<string>, action: Action, details: Fields)
    requires Get(config, key).Some? && Comes(Rule(key, action, pattern, 0, details), Get(config, key).value)
    ensures exists rule <- RulesOf(config) :: rule.key == key && rule.pattern == pattern && rule.action == action
  {
    var i := EntryOf(config, key);
    var rule := EntryGivesRule(config, i, pattern, action, details);
  }

  /** And what is written counts: the last value of a key that says an action gives a rule with that action for all
      subjects. */
  lemma WrittenForAllGivesRule(raw: Raw, key: string, action: Action)
    requires raw.Mapping? && Normal(raw).Ok?
    requires Latest(raw.entries, key).Some? && Says(Latest(raw.entries, key).value, action)
    ensures exists rule <- RulesOf(Read(Normal(raw).value)) ::
              rule.key == key && rule.pattern == None && rule.action == action
  {
    var config, written := Read(Normal(raw).value), Latest(raw.entries, key).value;
    ValueUnder(raw, key);
    SaysDirectly(written);
    RuleOfValue(config, key, None, action, ReadValue(written).details);
  }

  /** The last entry of a pattern that says an action, in a value without a pattern that strips to `action`, gives a
      rule with that action for its pattern. */
  lemma WrittenForSubjectGivesRule(raw: Raw, key: string, pattern: string, action: Action)
    requires raw.Mapping? && Normal(raw).Ok?
    requires var written := Latest(raw.entries, key);
      && written.Some? && written.value.Mapping? && Field(written.value.entries, "action").None?
      && (forall e <- written.value.entries :: !IsUnder(e, "action"))
      && Latest(written.value.entries, pattern).Some? && Says(Latest(written.value.entries, pattern).value, action)
    ensures exists rule <- RulesOf(Read(Normal(raw).value)) ::
              rule.key == key && rule.pattern == Some(pattern) && rule.action == action
  {
    var config, entries := Read(Normal(raw).value), Latest(raw.entries, key).value.entries;
    var latest := Latest(entries, pattern).value;
    ValueUnder(raw, key);
    ReadBySubjectIff(entries);
    var subject := ReadSubject(pattern, latest);
    SubjectsAreLatest(entries, subject);
    SaysIff(latest);
    RuleOfValue(config, key, Some(pattern), subject.action, subject.details);
  }
}

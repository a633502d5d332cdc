/**
Validating a permission configuration as it was written, and reading it: actions, mappings with an action, and
mappings from subject patterns to rules.
*/
module PermissionNormalize {
  import opened Dictionaries
  import opened Options
  import opened PermissionConfig
  import opened PythonText

  datatype Error =
    | NotAMapping | KeyNotText | EmptyKey | NotAValue | MissingAction | ActionNotText | UnknownAction
    | PatternNotText | EmptyPattern | NotARule | UnsupportedField

  datatype Result<T> = Ok(value: T) | Err(error: Error)

  /** A normalised dictionary: its values are still as written. */
  type Dict = seq<(string, Raw)>

  type Entry = (Option<string>, Raw)

  // Validation

  function ActionOf(text: string): Option<Action> {
    match text
    case "allow" => Some(Allow)
    case "deny" => Some(Deny)
    case "ask" => Some(Ask)
    case _ => None
  }

  function ActionError(raw: Raw): Option<Error> {
    match raw
    case Text(text) => if ActionOf(text).Some? then None else Some(UnknownAction)
    case _ => Some(ActionNotText)
  }

  function MappingError(entries: seq<Entry>): Option<Error> {
    var action := Field(entries, "action");
    if action.None? || action.value.Null? then Some(MissingAction) else ActionError(action.value)
  }

  function RuleError(raw: Raw): Option<Error> {
    match raw
    case Text(_) => ActionError(raw)
    case Mapping(entries) =>
      if exists e <- entries :: e.0 !in [Some("action"), Some("reason"), Some("risk")] then Some(UnsupportedField)
      else MappingError(entries)
    case _ => Some(NotARule)
  }

  /** What is wrong with one subject of a mapping. */
  function SubjectError(entry: Entry): Option<Error> {
    if entry.0.None? then Some(PatternNotText)
    else if Stripped(entry.0.value) == "" then Some(EmptyPattern)
    else RuleError(entry.1)
  }

  function NormalSubjects(entries: seq<Entry>, done: Dict): Result<Dict>
    decreases |entries|
  {
    if entries == [] then Ok(done)
    else if SubjectError(entries[0]).Some? then Err(SubjectError(entries[0]).value)
    else NormalSubjects(entries[1..], Put(done, Stripped(entries[0].0.value), entries[0].1))
  }

  /** A dictionary as a mapping again. */
  function Entries(dict: Dict): seq<Entry> {
    if dict == [] then [] else [(Some(dict[0].0), dict[0].1)] + Entries(dict[1..])
  }

  function NormalValue(raw: Raw): Result<Raw> {
    match raw
    case Text(_) => if ActionError(raw).Some? then Err(ActionError(raw).value) else Ok(raw)
    case Mapping(entries) =>
      if Field(entries, "action").Some? then
        if MappingError(entries).Some? then Err(MappingError(entries).value) else Ok(raw)
      else
        (match NormalSubjects(entries, [])
         case Ok(dict) => Ok(Mapping(Entries(dict)))
         case Err(error) => Err(error))
    case _ => Err(NotAValue)
  }

  /** What is wrong with one key of the configuration and its value. */
  function EntryError(entry: Entry): Option<Error> {
    if entry.0.None? then Some(KeyNotText)
    else if Stripped(entry.0.value) == "" then Some(EmptyKey)
    else if NormalValue(entry.1).Err? then Some(NormalValue(entry.1).error)
    else None
  }

  function NormalEntries(entries: seq<Entry>, done: Dict): Result<Dict>
    decreases |entries|
  {
    if entries == [] then Ok(done)
    else if EntryError(entries[0]).Some? then Err(EntryError(entries[0]).value)
    else NormalEntries(entries[1..], Put(done, Stripped(entries[0].0.value), NormalValue(entries[0].1).value))
  }

  function Normal(raw: Raw): Result<Dict> {
    match raw
    case Null => Ok([])
    case Mapping(entries) => NormalEntries(entries, [])
    case _ => Err(NotAMapping)
  }

  method NormalizeSubjectMapping(entries: seq<Entry>) returns (result: Result<Dict>)
    ensures result == NormalSubjects(entries, [])
  {
    var normalized: Dict := [];
    var i := 0;
    assert entries[0..] == entries;
    while i < |entries|
      invariant 0 <= i <= |entries|
      invariant NormalSubjects(entries[i..], normalized) == NormalSubjects(entries, [])
    {
      assert entries[i..][1..] == entries[i + 1..];
      var (rawPattern, rawRule) := entries[i];
      var error := SubjectError(entries[i]);
      if error.Some? {
        return Err(error.value);
      }
      normalized := Put(normalized, Stripped(rawPattern.value), rawRule);
      i := i + 1;
    }
    result := Ok(normalized);
  }

  method NormalizeValue(raw: Raw) returns (result: Result<Raw>)
    ensures result == NormalValue(raw)
  {
    if raw.Text? {
      var error := ActionError(raw);
      return if error.Some? then Err(error.value) else Ok(raw);
    }
    if !raw.Mapping? {
      return Err(NotAValue);
    }
    if Field(raw.entries, "action").Some? {
      var error := MappingError(raw.entries);
      return if error.Some? then Err(error.value) else Ok(raw);
    }
    var subjects := NormalizeSubjectMapping(raw.entries);
    result := match subjects case Ok(dict) => Ok(Mapping(Entries(dict))) case Err(error) => Err(error);
  }

  method NormalizeToolPermissions(raw: Raw) returns (result: Result<Dict>)
    ensures result == Normal(raw)
  {
    if raw.Null? {
      return Ok([]);
    }
    if !raw.Mapping? {
      return Err(NotAMapping);
    }
    var entries := raw.entries;
    var normalized: Dict := [];
    var i := 0;
    assert entries[0..] == entries;
    while i < |entries|
      invariant 0 <= i <= |entries|
      invariant NormalEntries(entries[i..], normalized) == NormalEntries(entries, [])
    {
      assert entries[i..][1..] == entries[i + 1..];
      var (rawKey, rawValue) := entries[i];
      if rawKey.None? {
        return Err(KeyNotText);
      }
      var key := Stripped(rawKey.value);
      if key == "" {
        return Err(EmptyKey);
      }
      var value := NormalizeValue(rawValue);
      if value.Err? {
        return Err(value.error);
      }
      normalized := Put(normalized, key, value.value);
      i := i + 1;
    }
    result := Ok(normalized);
  }

  // Reading

  function ReadAction(raw: Raw): Action {
    if raw.Text? && ActionOf(raw.text).Some? then ActionOf(raw.text).value else Unknown
  }

  function ReadRule(raw: Raw): Action {
    if raw.Mapping? && Field(raw.entries, "action").Some? then ReadAction(Field(raw.entries, "action").value)
    else ReadAction(raw)
  }

  function ReadSubjects(entries: seq<Entry>): seq<SubjectRule> {
    if entries == [] then []
    else (if entries[0].0.Some? then [ReadSubject(entries[0].0.value, entries[0].1)] else [])
         + ReadSubjects(entries[1..])
  }

  function ReadSubject(pattern: string, raw: Raw): SubjectRule {
    SubjectRule(pattern, ReadRule(raw), if raw.Mapping? then raw.entries else [])
  }

  /** A mapping with a key `action` is read as one action for all subjects. */
  function ReadValue(raw: Raw): Value {
    if !raw.Mapping? then Direct(ReadAction(raw), [])
    else if Field(raw.entries, "action").Some? then
      Direct(ReadAction(Field(raw.entries, "action").value), raw.entries)
    else Subjects(ReadSubjects(raw.entries))
  }

  function Read(dict: Dict): Config {
    if dict == [] then [] else [(dict[0].0, ReadValue(dict[0].1))] + Read(dict[1..])
  }

  /** The rules of a configuration as it was written. */
  method ConfigRules(raw: Raw) returns (result: Result<seq<Rule>>)
    ensures result == match Normal(raw) case Ok(dict) => Ok(RulesOf(Read(dict))) case Err(error) => Err(error)
  {
    var normalized := NormalizeToolPermissions(raw);
    match normalized
    case Err(error) => result := Err(error);
    case Ok(dict) =>
      var rules := NumberedRules(Read(dict));
      result := Ok(rules);
  }

  // What normalising comes to

  lemma {:induction false} StrippedTwice(s: string)
    ensures Stripped(Stripped(s)) == Stripped(s)
    decreases |s|
  {
    if s != [] && IsSpace(s[0]) {
      StrippedTwice(s[1..]);
    } else if s != [] && IsSpace(s[|s| - 1]) {
      StrippedTwice(s[..|s| - 1]);
    }
  }

  predicate IsKey(key: string) {
    key != "" && Stripped(key) == key
  }

  /** A dictionary that normalising can leave: distinct stripped keys with normal values. */
  ghost predicate IsNormal(dict: Dict) {
    DistinctKeys(dict) && forall e <- dict :: IsNormalEntry(e.0, e.1)
  }

  ghost predicate IsNormalEntry(key: string, value: Raw) {
    IsKey(key) && IsNormalValue(value)
  }

  ghost predicate IsNormalValue(raw: Raw) {
    match raw
    case Text(_) => ActionError(raw).None?
    case Mapping(entries) =>
      || (Field(entries, "action").Some? && MappingError(entries).None?)
      || exists dict: Dict :: entries == Entries(dict) && IsNormalMapping(dict)
    case _ => false
  }

  ghost predicate IsNormalMapping(dict: Dict) {
    DistinctKeys(dict) && forall e <- dict :: IsNormalRule(e.0, e.1)
  }

  ghost predicate IsNormalRule(pattern: string, rule: Raw) {
    IsKey(pattern) && RuleError(rule).None?
  }

  lemma {:induction false} SubjectsAreNormal(entries: seq<Entry>, done: Dict)
    requires IsNormalMapping(done)
    ensures NormalSubjects(entries, done).Ok? ==> IsNormalMapping(NormalSubjects(entries, done).value)
    ensures NormalSubjects(entries, done).Ok? <==> forall e <- entries :: SubjectError(e).None?
    decreases |entries|
  {
    if entries != [] && SubjectError(entries[0]).None? {
      var pattern := Stripped(entries[0].0.value);
      StrippedTwice(entries[0].0.value);
      GetOfPut(done, pattern, entries[0].1, pattern);
      PutKeepsEach(done, pattern, entries[0].1, IsNormalRule);
      SubjectsAreNormal(entries[1..], Put(done, pattern, entries[0].1));
    }
  }

  lemma ValueIsNormal(raw: Raw)
    ensures NormalValue(raw).Ok? ==> IsNormalValue(NormalValue(raw).value)
  {
    if raw.Mapping? && Field(raw.entries, "action").None? {
      SubjectsAreNormal(raw.entries, []);
    }
  }

  lemma {:induction false} EntriesAreNormal(entries: seq<Entry>, done: Dict)
    requires IsNormal(done)
    ensures NormalEntries(entries, done).Ok? ==> IsNormal(NormalEntries(entries, done).value)
    ensures NormalEntries(entries, done).Ok? <==> forall e <- entries :: EntryError(e).None?
    decreases |entries|
  {
    if entries != [] && EntryError(entries[0]).None? {
      var key, value := Stripped(entries[0].0.value), NormalValue(entries[0].1).value;
      StrippedTwice(entries[0].0.value);
      ValueIsNormal(entries[0].1);
      GetOfPut(done, key, value, key);
      PutKeepsEach(done, key, value, IsNormalEntry);
      EntriesAreNormal(entries[1..], Put(done, key, value));
    }
  }

  /** A configuration is accepted if and only if it is absent, or a mapping without a faulty entry; and then its keys
      are stripped, distinct and not empty, and its values are normal. */
  lemma NormalizingSucceedsIff(raw: Raw)
    ensures Normal(raw).Ok? <==> raw.Null? || (raw.Mapping? && forall e <- raw.entries :: EntryError(e).None?)
    ensures Normal(raw).Ok? ==> IsNormal(Normal(raw).value)
  {
    if raw.Mapping? {
      EntriesAreNormal(raw.entries, []);
    }
  }

  // Normalising again

  /** A subject pattern of the value has become the key `action`, over a mapping. */
  predicate Clashes(raw: Raw) {
    raw.Mapping? && Field(raw.entries, "action").Some? && !Field(raw.entries, "action").value.Text?
  }

  lemma {:induction false} SubjectsAgain(done: Dict, dict: Dict)
    requires IsNormalMapping(done + dict)
    ensures NormalSubjects(Entries(dict), done) == Ok(done + dict)
    decreases |dict|
  {
    if dict == [] {
      assert done + dict == done;
    } else {
      assert done + dict == done + [dict[0]] + dict[1..];
      assert dict[0] in done + dict && IsNormalRule(dict[0].0, dict[0].1);
      DistinctPrefix(done, dict[0], dict[1..]);
      PutNewGoesLast(done, dict[0].0, dict[0].1);
      assert Entries(dict)[1..] == Entries(dict[1..]);
      SubjectsAgain(done + [dict[0]], dict[1..]);
    }
  }

  lemma ValueAgain(raw: Raw)
    requires IsNormalValue(raw)
    ensures NormalValue(raw) == if Clashes(raw) then Err(ActionNotText) else Ok(raw)
  {
    if raw.Mapping? && !(Field(raw.entries, "action").Some? && MappingError(raw.entries).None?) {
      var dict: Dict :| raw.entries == Entries(dict) && IsNormalMapping(dict);
      if Field(raw.entries, "action").None? {
        assert [] + dict == dict;
        SubjectsAgain([], dict);
      } else {
        FieldIsRule(dict, "action");
      }
    }
  }

  lemma {:induction false} FieldIsRule(dict: Dict, key: string)
    requires IsNormalMapping(dict) && Field(Entries(dict), key).Some?
    ensures RuleError(Field(Entries(dict), key).value).None?
  {
    assert Entries(dict)[1..] == Entries(dict[1..]);
    if dict[0].0 != key {
      FieldIsRule(dict[1..], key);
    } else {
      assert IsNormalRule(dict[0].0, dict[0].1);
    }
  }

  lemma {:induction false} EntriesAgain(done: Dict, dict: Dict)
    requires IsNormal(done + dict)
    ensures NormalEntries(Entries(dict), done) ==
            if exists e <- dict :: Clashes(e.1) then Err(ActionNotText) else Ok(done + dict)
    decreases |dict|
  {
    if dict == [] {
      assert done + dict == done;
    } else {
      assert done + dict == done + [dict[0]] + dict[1..];
      assert dict[0] in done + dict && IsNormalEntry(dict[0].0, dict[0].1);
      ValueAgain(dict[0].1);
      DistinctPrefix(done, dict[0], dict[1..]);
      PutNewGoesLast(done, dict[0].0, dict[0].1);
      assert Entries(dict)[1..] == Entries(dict[1..]);
      EntriesAgain(done + [dict[0]], dict[1..]);
    }
  }

  /** Normalising what has been normalised changes nothing, if and only if no subject pattern over a mapping has become
      the key `action`; otherwise it is an error. */
  lemma NormalizingAgain(raw: Raw)
    requires Normal(raw).Ok?
    ensures var dict := Normal(raw).value;
      Normal(Mapping(Entries(dict))) == if exists e <- dict :: Clashes(e.1) then Err(ActionNotText) else Ok(dict)
  {
    var dict := Normal(raw).value;
    NormalizingSucceedsIff(raw);
    assert [] + dict == dict;
    EntriesAgain([], dict);
  }

  lemma NormalOfOne(key: string, value: Raw)
    requires IsKey(key) && NormalValue(value).Ok?
    ensures Normal(Mapping([(Some(key), value)])) == Ok([(key, NormalValue(value).value)])
  {
    var entries: seq<Entry> := [(Some(key), value)];
    assert entries[1..] == [];
    assert EntryError(entries[0]).None?;
    var done: Dict := Put([], key, NormalValue(value).value);
    assert done == [(key, NormalValue(value).value)];
    assert NormalEntries(entries, []) == NormalEntries(entries[1..], done);
  }

  lemma SpacedActionIsAKey()
    ensures Stripped(" action") == "action" && IsKey("bash")
  {
    assert |"action"| == 6 && |"bash"| == 4;
    assert " action"[1..] == "action";
    assert Stripped("action") == "action" && Stripped("bash") == "bash";
  }

  /** Such a configuration: accepted once, and not again. */
  lemma SpacedActionIsRejectedAgain()
    ensures var rule := Mapping([(Some("action"), Text("allow"))]);
      var raw := Mapping([(Some("bash"), Mapping([(Some(" action"), rule)]))]);
      Normal(raw).Ok? && Normal(Mapping(Entries(Normal(raw).value))) == Err(ActionNotText)
  {
    var rule := Mapping([(Some("action"), Text("allow"))]);
    var inner: seq<Entry> := [(Some(" action"), rule)];
    var dict: Dict := [("action", rule)];
    SpacedActionIsAKey();
    assert |" action"| == 7 && |"action"| == 6;
    assert RuleError(rule).None? && inner[1..] == [] && Field(inner, "action").None?;
    assert NormalSubjects(inner, []) == Ok(dict);
    NormalOfOne("bash", Mapping(inner));
    FieldOfEntries(dict, "action");
    var raw := Mapping([(Some("bash"), Mapping(inner))]);
    NormalizingAgain(raw);
    assert ("bash", Mapping(Entries(dict))) in Normal(raw).value;
  }

  // Patterns that turn into a key

  lemma {:induction false} ActionFieldOfSubjects(entries: seq<Entry>, done: Dict)
    requires NormalSubjects(entries, done).Ok?
    ensures Get(NormalSubjects(entries, done).value, "action").Some? <==>
            Get(done, "action").Some? || exists e <- entries :: e.0.Some? && Stripped(e.0.value) == "action"
    decreases |entries|
  {
    if entries != [] {
      var pattern := Stripped(entries[0].0.value);
      GetOfPut(done, pattern, entries[0].1, "action");
      ActionFieldOfSubjects(entries[1..], Put(done, pattern, entries[0].1));
    }
  }

  lemma {:induction false} FieldOfEntries(dict: Dict, key: string)
    ensures Field(Entries(dict), key) == Get(dict, key)
  {
    if dict != [] {
      assert Entries(dict)[1..] == Entries(dict[1..]);
      FieldOfEntries(dict[1..], key);
    }
  }

  /** A mapping without a key `action` is read by subject if and only if none of its patterns strips to `action`. */
  lemma ReadBySubjectIff(entries: seq<Entry>)
    requires Field(entries, "action").None? && NormalValue(Mapping(entries)).Ok?
    ensures ReadValue(NormalValue(Mapping(entries)).value).Subjects? <==>
            forall e <- entries :: e.0.Some? ==> Stripped(e.0.value) != "action"
  {
    ActionFieldOfSubjects(entries, []);
    FieldOfEntries(NormalSubjects(entries, []).value, "action");
  }

  /** Such a mapping: a rule for one subject, which is read as a rule for all. */
  lemma SpacedActionIsReadForAll()
    ensures var entries := [(Some(" action"), Text("allow"))];
      Field(entries, "action").None? && NormalValue(Mapping(entries)).Ok? &&
      ReadValue(NormalValue(Mapping(entries)).value).Direct? &&
      ReadValue(NormalValue(Mapping(entries)).value).action == Allow
  {
    var entries: seq<Entry> := [(Some(" action"), Text("allow"))];
    assert " action"[1..] == "action";
    assert Stripped(" action") == "action";
    assert entries[1..] == [];
    assert NormalSubjects(entries, []) == Ok([("action", Text("allow"))]);
  }
}

/**
 * The per-user prompt overrides of a tutor: the page that lists the
 * overridable prompts with their defaults, and the endpoint that saves or
 * clears one override.
 *
 * A tutor's configuration names the overridable prompts in its
 * `prompt-override-whitelist` entry, as dotted paths into the configuration.
 */
module TutorPrompts {
  import opened Wrappers
  import opened Strings
  import opened Tutors

  type UserId = int

  /** The identity of one row of the override table: whose, for which tutor, which prompt. */
  datatype OverrideKey = OverrideKey(user: UserId, tutorPath: string, key: string)

  /** The override table; it holds at most one row per (user, tutor, key). */
  type OverrideTable = map<OverrideKey, string>

  const WhitelistEntry: string := "prompt-override-whitelist"

  /** `config.get('prompt-override-whitelist', [])`. */
  function Whitelist(config: map<string, Value>): (whitelist: seq<Value>)
    ensures WhitelistEntry !in config ==> whitelist == []
    ensures WhitelistEntry in config && config[WhitelistEntry].List? ==> whitelist == config[WhitelistEntry].items
    ensures whitelist != [] ==> WhitelistEntry in config && config[WhitelistEntry] == List(whitelist)
  {
    if WhitelistEntry in config && config[WhitelistEntry].List? then config[WhitelistEntry].items else []
  }

  /** The submitted key (absent when the form has none) is one of the whitelisted paths. */
  predicate KeyAllowed(key: Option<string>, whitelist: seq<Value>)
  {
    key.Some? && Str(key.value) in whitelist
  }

  datatype OverrideResponse =
    | TutorNotFound       // 404
    | MultipleTutors      // the lookup raises
    | InvalidKey          // 400 "Invalid override key"
    | Deleted             // {"status": "deleted"}
    | Updated             // {"status": "updated"}
    | Created             // {"status": "created"}

  /**
   * The write of `update_prompt_override` on one row: an empty value deletes
   * the row, any other value updates it or creates it.
   */
  function SaveOverride(table: OverrideTable, k: OverrideKey, value: string): (r: (OverrideResponse, OverrideTable))
    ensures r.0 in {Deleted, Updated, Created}
    ensures r.0 == Deleted <==> value == ""
    ensures r.0 == Deleted ==> k !in r.1
    ensures r.0 != Deleted ==> k in r.1 && r.1[k] == value
    ensures r.0 == Created <==> value != "" && k !in table
    ensures forall j :: j != k ==> (j in r.1 <==> j in table) && (j in table ==> r.1[j] == table[j])
  {
    if value == "" then (Deleted, table - {k})
    else if k in table then (Updated, table[k := value])
    else (Created, table[k := value])
  }

  /** Writing the same row twice: the second write changes nothing and reports a deletion or an update. */
  lemma SaveOverrideTwice(table: OverrideTable, k: OverrideKey, value: string)
    ensures var first := SaveOverride(table, k, value);
      SaveOverride(first.1, k, value) == (if value == "" then Deleted else Updated, first.1)
  {
    if value == "" {
      assert (table - {k}) - {k} == table - {k};
    } else {
      assert table[k := value][k := value] == table[k := value];
    }
  }

  /**
   * `update_prompt_override`: reject a key the tutor does not whitelist;
   * otherwise delete the user's override when the stripped value is empty,
   * and create or update it with the stripped value when it is not.
   * Returns the response and the new table.
   */
  function UpdatePromptOverride(table: OverrideTable, tutors: seq<Tutor>, user: UserId, urlPath: string,
                                key: Option<string>, rawValue: Option<string>)
    : (r: (OverrideResponse, OverrideTable))
    ensures r.0 == TutorNotFound <==> forall t :: t in tutors ==> t.urlPath != urlPath
    ensures r.0 == MultipleTutors <==> LookupTutor(tutors, urlPath).ManyTutors?
    ensures r.0 in {TutorNotFound, MultipleTutors, InvalidKey} ==> r.1 == table
    ensures LookupTutor(tutors, urlPath).OneTutor? ==>
      (r.0 == InvalidKey <==> !KeyAllowed(key, Whitelist(LookupTutor(tutors, urlPath).tutor.config)))
    ensures r.0 in {Deleted, Updated, Created} ==>
      && LookupTutor(tutors, urlPath).OneTutor?
      && KeyAllowed(key, Whitelist(LookupTutor(tutors, urlPath).tutor.config))
    // the row for this user, tutor and key
    ensures r.0 == Deleted ==> Strip(rawValue.GetOr("")) == "" && OverrideKey(user, urlPath, key.value) !in r.1
    ensures r.0 in {Updated, Created} ==>
      && Strip(rawValue.GetOr("")) != ""
      && OverrideKey(user, urlPath, key.value) in r.1
      && r.1[OverrideKey(user, urlPath, key.value)] == Strip(rawValue.GetOr(""))
    ensures r.0 == Created ==> OverrideKey(user, urlPath, key.value) !in table
    ensures r.0 == Updated ==> OverrideKey(user, urlPath, key.value) in table
    // every other row is left alone
    ensures forall k :: (key.None? || k != OverrideKey(user, urlPath, key.value)) ==>
      (k in r.1 <==> k in table) && (k in table ==> r.1[k] == table[k])
  {
    var value := Strip(rawValue.GetOr(""));
    match LookupTutor(tutors, urlPath)
    case NoTutor => (TutorNotFound, table)
    case ManyTutors => (MultipleTutors, table)
    case OneTutor(tutor) =>
      if !KeyAllowed(key, Whitelist(tutor.config)) then (InvalidKey, table)
      else
        SaveOverride(table, OverrideKey(user, urlPath, key.value), value)
  }

  /** Saving the same override twice: the second save changes nothing more and reports an update or a deletion. */
  lemma {:induction false} SaveTwiceIsStable(table: OverrideTable, tutors: seq<Tutor>, user: UserId, urlPath: string,
                                             key: Option<string>, rawValue: Option<string>)
    ensures var first := UpdatePromptOverride(table, tutors, user, urlPath, key, rawValue);
      var second := UpdatePromptOverride(first.1, tutors, user, urlPath, key, rawValue);
      && second.1 == first.1
      && (first.0 in {Updated, Created} ==> second.0 == Updated)
      && (first.0 !in {Updated, Created} ==> second.0 == first.0)
  {
    var lookup := LookupTutor(tutors, urlPath);
    if lookup.OneTutor? && KeyAllowed(key, Whitelist(lookup.tutor.config)) {
      var k := OverrideKey(user, urlPath, key.value);
      var value := Strip(rawValue.GetOr(""));
      var first := SaveOverride(table, k, value);
      assert UpdatePromptOverride(table, tutors, user, urlPath, key, rawValue) == first;
      assert UpdatePromptOverride(first.1, tutors, user, urlPath, key, rawValue) == SaveOverride(first.1, k, value);
      SaveOverrideTwice(table, k, value);
    }
  }

  /** The `overrides` of the prompts page: the user's saved values for this tutor, by key. */
  function OverridesFor(table: OverrideTable, user: UserId, urlPath: string): (overrides: map<string, string>)
    ensures forall key :: key in overrides <==> OverrideKey(user, urlPath, key) in table
    ensures forall key :: key in overrides ==> overrides[key] == table[OverrideKey(user, urlPath, key)]
  {
    var keys := set k | k in table && k.user == user && k.tutorPath == urlPath :: k.key;
    assert forall key :: key in keys <==> OverrideKey(user, urlPath, key) in table by {
      forall key | key in keys ensures OverrideKey(user, urlPath, key) in table {
        var k :| k in table && k.user == user && k.tutorPath == urlPath && k.key == key;
        assert k == OverrideKey(user, urlPath, key);
      }
    }
    map key | key in keys :: table[OverrideKey(user, urlPath, key)]
  }

  /** The outcome of walking a dotted path with `value = value.get(key, {})`. */
  datatype Walked =
    | Reached(value: Value)
    | NoGetMethod   // a segment was looked up in a value that is not a mapping: AttributeError

  /** Walk `keys` from `v`: a missing key continues from an empty mapping. */
  function Walk(v: Value, keys: seq<string>): Walked
    decreases |keys|
  {
    if |keys| == 0 then Reached(v)
    else match v
      case Dict(m) => Walk(if keys[0] in m then m[keys[0]] else Dict(map[]), keys[1..])
      case _ => NoGetMethod
  }

  /** Walking a longer path is walking its first part and then the rest. */
  lemma {:induction false} WalkConcat(v: Value, a: seq<string>, b: seq<string>)
    ensures Walk(v, a + b) == match Walk(v, a)
                              case Reached(w) => Walk(w, b)
                              case NoGetMethod => NoGetMethod
    decreases |a|
  {
    if |a| > 0 && v.Dict? {
      assert (a + b)[1..] == a[1..] + b;
      var m := v.entries;
      WalkConcat(if a[0] in m then m[a[0]] else Dict(map[]), a[1..], b);
    } else if |a| == 0 {
      assert a + b == b;
    }
  }

  /** From an empty mapping every walk ends at an empty mapping. */
  lemma {:induction false} WalkEmpty(keys: seq<string>)
    ensures Walk(Dict(map[]), keys) == Reached(Dict(map[]))
  {
    if |keys| > 0 {
      WalkEmpty(keys[1..]);
    }
  }

  /** Once a segment is missing, the walk ends at `{}` whatever follows. */
  lemma WalkPastMissing(v: Value, keys: seq<string>, i: nat, m: map<string, Value>)
    requires i < |keys|
    requires Walk(v, keys[..i]) == Reached(Dict(m))
    requires keys[i] !in m
    ensures Walk(v, keys) == Reached(Dict(map[]))
  {
    assert keys == keys[..i] + keys[i..];
    WalkConcat(v, keys[..i], keys[i..]);
    WalkEmpty(keys[i + 1..]);
  }

  /** The values `isinstance(value, (str, int, float, bool))` accepts. */
  predicate IsScalar(v: Value)
  {
    v.Str? || v.Int? || v.Float? || v.Bool?
  }

  /** Why building the prompts page raises. */
  datatype PageError =
    | PageTutorNotFound    // 404
    | PageMultipleTutors   // the lookup raises
    | PathNotText          // a whitelist entry is not a string, so it cannot be split
    | PathThroughNonMapping // NoGetMethod on some whitelisted path

  /** The `defaults` of the prompts page: whitelisted paths whose walk ends at a scalar, with that scalar. */
  function DefaultsOf(config: map<string, Value>, whitelist: seq<Value>): (r: Result<map<string, Value>, PageError>)
    ensures r.Failure? ==> r.error in {PathNotText, PathThroughNonMapping}
  {
    if |whitelist| == 0 then Success(map[])
    else match DefaultsOf(config, whitelist[..|whitelist| - 1])
      case Failure(e) => Failure(e)
      case Success(defaults) =>
        var path := whitelist[|whitelist| - 1];
        if !path.Str? then Failure(PathNotText)
        else match Walk(Dict(config), Split(path.s, '.'))
          case NoGetMethod => Failure(PathThroughNonMapping)
          case Reached(v) => Success(if IsScalar(v) then defaults[path.s := v] else defaults)
  }

  /** Every default comes from a whitelisted path whose walk ends at that scalar. */
  lemma {:induction false} DefaultsSound(config: map<string, Value>, whitelist: seq<Value>)
    requires DefaultsOf(config, whitelist).Success?
    ensures forall path :: path in DefaultsOf(config, whitelist).value ==>
      && Str(path) in whitelist
      && IsScalar(DefaultsOf(config, whitelist).value[path])
      && Walk(Dict(config), Split(path, '.')) == Reached(DefaultsOf(config, whitelist).value[path])
  {
    if |whitelist| > 0 {
      var init := whitelist[..|whitelist| - 1];
      DefaultsSound(config, init);
      assert forall x :: x in init ==> x in whitelist;
    }
  }

  /** Every whitelisted path whose walk ends at a scalar has a default. */
  lemma {:induction false} DefaultsComplete(config: map<string, Value>, whitelist: seq<Value>, path: string)
    requires DefaultsOf(config, whitelist).Success?
    requires Str(path) in whitelist
    requires Walk(Dict(config), Split(path, '.')).Reached?
    requires IsScalar(Walk(Dict(config), Split(path, '.')).value)
    ensures path in DefaultsOf(config, whitelist).value
  {
    var init := whitelist[..|whitelist| - 1];
    if whitelist[|whitelist| - 1] != Str(path) {
      assert whitelist == init + [whitelist[|whitelist| - 1]];
      DefaultsComplete(config, init, path);
    }
  }

  /** A whitelisted path with a missing segment gets no default. */
  lemma MissingSegmentOmitted(config: map<string, Value>, whitelist: seq<Value>, path: string, i: nat, m: map<string, Value>)
    requires DefaultsOf(config, whitelist).Success?
    requires i < |Split(path, '.')|
    requires Walk(Dict(config), Split(path, '.')[..i]) == Reached(Dict(m))
    requires Split(path, '.')[i] !in m
    ensures path !in DefaultsOf(config, whitelist).value
  {
    WalkPastMissing(Dict(config), Split(path, '.'), i, m);
    DefaultsSound(config, whitelist);
  }

  /** Building the defaults raises exactly when some whitelist entry is not text or walks through a non-mapping. */
  lemma {:induction false} DefaultsFailIff(config: map<string, Value>, whitelist: seq<Value>)
    ensures DefaultsOf(config, whitelist).Failure? <==>
      exists i :: 0 <= i < |whitelist| && (!whitelist[i].Str? || Walk(Dict(config), Split(whitelist[i].s, '.')).NoGetMethod?)
  {
    if |whitelist| > 0 {
      var n := |whitelist| - 1;
      DefaultsFailIff(config, whitelist[..n]);
      assert forall i :: 0 <= i < n ==> whitelist[..n][i] == whitelist[i];
    }
  }

  /** The first failing path decides: later whitelist entries are never looked at. */
  lemma {:induction false} DefaultsFailureStops(config: map<string, Value>, whitelist: seq<Value>, k: nat)
    requires k <= |whitelist|
    requires DefaultsOf(config, whitelist[..k]).Failure?
    ensures DefaultsOf(config, whitelist) == DefaultsOf(config, whitelist[..k])
  {
    if k < |whitelist| {
      var n := |whitelist| - 1;
      assert whitelist[..n][..k] == whitelist[..k];
      DefaultsFailureStops(config, whitelist[..n], k);
    } else {
      assert whitelist[..k] == whitelist;
    }
  }

  /** The inner loop of `tutor_prompts`: follow one dotted path down the configuration. */
  method WalkPath(config: map<string, Value>, segments: seq<string>) returns (w: Walked)
    ensures w == Walk(Dict(config), segments)
  {
    var value := Dict(config);
    var j := 0;
    while j < |segments|
      invariant 0 <= j <= |segments|
      invariant Walk(Dict(config), segments) == Walk(value, segments[j..])
    {
      if !value.Dict? {
        return NoGetMethod;
      }
      assert segments[j..][1..] == segments[j + 1..];
      value := if segments[j] in value.entries then value.entries[segments[j]] else Dict(map[]);
      j := j + 1;
    }
    assert segments[j..] == [];
    w := Reached(value);
  }

  /** The outer loop of `tutor_prompts` that fills `defaults`, path by path. */
  method ExtractDefaults(config: map<string, Value>, whitelist: seq<Value>)
    returns (r: Result<map<string, Value>, PageError>)
    ensures r == DefaultsOf(config, whitelist)
  {
    var defaults: map<string, Value> := map[];
    var i := 0;
    while i < |whitelist|
      invariant 0 <= i <= |whitelist|
      invariant DefaultsOf(config, whitelist[..i]) == Success(defaults)
    {
      assert whitelist[..i + 1][..i] == whitelist[..i];
      var path := whitelist[i];
      if !path.Str? {
        DefaultsFailureStops(config, whitelist, i + 1);
        return Failure(PathNotText);
      }
      var walked := WalkPath(config, Split(path.s, '.'));
      if walked.NoGetMethod? {
        DefaultsFailureStops(config, whitelist, i + 1);
        return Failure(PathThroughNonMapping);
      }
      if IsScalar(walked.value) {
        defaults := defaults[path.s := walked.value];
      }
      i := i + 1;
    }
    assert whitelist[..|whitelist|] == whitelist;
    r := Success(defaults);
  }

  datatype PromptsPage = PromptsPage(tutor: Tutor, whitelist: seq<Value>, defaults: map<string, Value>,
                                     overrides: map<string, string>)

  /** `tutor_prompts`: the whitelist of the tutor, the defaults found for it, and the user's overrides. */
  method TutorPromptsPage(tutors: seq<Tutor>, table: OverrideTable, user: UserId, urlPath: string)
    returns (r: Result<PromptsPage, PageError>)
    ensures r == Failure(PageTutorNotFound) <==> forall t :: t in tutors ==> t.urlPath != urlPath
    ensures r.Success? ==>
      && LookupTutor(tutors, urlPath) == OneTutor(r.value.tutor)
      && r.value.whitelist == Whitelist(r.value.tutor.config)
      && Success(r.value.defaults) == DefaultsOf(r.value.tutor.config, r.value.whitelist)
      && r.value.overrides == OverridesFor(table, user, urlPath)
    ensures LookupTutor(tutors, urlPath).ManyTutors? ==> r == Failure(PageMultipleTutors)
    ensures LookupTutor(tutors, urlPath).OneTutor? && r.Failure? ==>
      var config := LookupTutor(tutors, urlPath).tutor.config;
      && DefaultsOf(config, Whitelist(config)).Failure?
      && r.error == DefaultsOf(config, Whitelist(config)).error
  {
    match LookupTutor(tutors, urlPath)
    case NoTutor => return Failure(PageTutorNotFound);
    case ManyTutors => return Failure(PageMultipleTutors);
    case OneTutor(tutor) =>
      var whitelist := Whitelist(tutor.config);
      var overrides := OverridesFor(table, user, urlPath);
      var defaults := ExtractDefaults(tutor.config, whitelist);
      match defaults
      case Failure(e) => return Failure(e);
      case Success(d) => return Success(PromptsPage(tutor, whitelist, d, overrides));
  }
}

/**
 * The option handling of cozy-app-publish before an application is
 * published: `sanitize` keeps only the nine expected options, and `check`
 * runs the validator table over them and throws the message of the first
 * validator that fails.
 */
module Prepublish {
  import opened Wrappers

  /**
   * A JavaScript option value: `undefined`, `null`, a string, or any other
   * defined value (a number, a boolean, an object).
   */
  datatype Value = Undefined | Null | Str(s: string) | Other

  /** An options object; a key it does not hold reads as `undefined`. */
  type Options = map<string, Value>

  function Get(options: Options, key: string): Value {
    if key in options then options[key] else Undefined
  }

  /** The nine options `sanitize` keeps. */
  const SanitizedKeys: set<string> := {
    "appBuildUrl", "appSlug", "appType", "appVersion", "buildCommit",
    "registryUrl", "registryEditor", "registryToken", "spaceName"}

  /**
   * `sanitize`: a new object holding exactly the nine expected keys, each
   * with the value read from the input (`undefined` when it is missing).
   */
  function Sanitize(options: Options): (sanitized: Options)
    ensures sanitized.Keys == SanitizedKeys
    ensures forall key :: key in sanitized ==> sanitized[key] == Get(options, key)
  {
    map key | key in SanitizedKeys :: Get(options, key)
  }

  /**
   * Every key other than the nine is dropped (a hook cannot inject
   * `prepublishHook`, `sha256Sum` or anything else); the nine are copied.
   */
  lemma SanitizeKeepsOnlyExpected(options: Options, key: string)
    ensures key in SanitizedKeys ==> Get(Sanitize(options), key) == Get(options, key)
    ensures key !in SanitizedKeys ==> key !in Sanitize(options)
  {
  }

  lemma SanitizeIdempotent(options: Options)
    ensures Sanitize(Sanitize(options)) == Sanitize(options)
  {
  }

  /** The nine names are distinct. */
  lemma NineKeys()
    ensures |SanitizedKeys| == 9
  {
    var first := {"appBuildUrl", "appSlug", "appType", "appVersion"};
    var last := {"buildCommit", "registryUrl", "registryEditor", "registryToken", "spaceName"};
    assert |first| == 4;
    assert |last| == 5;
    assert first !! last;
    assert SanitizedKeys == first + last;
  }

  /** The object `sanitize` returns has nine keys, whatever it is given. */
  lemma SanitizedHasNineKeys(options: Options)
    ensures |Sanitize(options)| == 9
  {
    NineKeys();
    assert |Sanitize(options)| == |Sanitize(options).Keys|;
  }

  /** The three kinds of validator: `isRequired`, `isRequiredFromManifest(attribute)` and `isOneOf(values)`. */
  datatype Validator =
    | IsRequired
    | IsRequiredFromManifest(manifestAttribute: string)
    | IsOneOf(values: seq<string>)

  /** The validator's test on the option's value. */
  predicate Accepts(validator: Validator, field: Value) {
    match validator
    case IsRequired => field != Undefined
    case IsRequiredFromManifest(_) => field != Undefined
    case IsOneOf(values) => field.Str? && field.s in values
  }

  /** `values.join(separator)`. */
  function Join(values: seq<string>, separator: string): string {
    if values == [] then ""
    else if |values| == 1 then values[0]
    else values[0] + separator + Join(values[1..], separator)
  }

  /** The message a failing validator throws for option `key`. */
  function Message(validator: Validator, key: string): string {
    match validator
    case IsRequired => "Option " + key + " is required."
    case IsRequiredFromManifest(attribute) => "Property " + attribute + " must be defined in manifest."
    case IsOneOf(values) => key + " should be one of the following values: " + Join(values, ", ")
  }

  /** `optionsTypes`, in declaration order. */
  const OptionsTypes: seq<(string, seq<Validator>)> := [
    ("appBuildUrl", [IsRequired]),
    ("appSlug", [IsRequiredFromManifest("slug")]),
    ("appType", [IsRequiredFromManifest("type"), IsOneOf(["webapp", "konnector"])]),
    ("appVersion", [IsRequired]),
    ("registryUrl", [IsRequired]),
    ("registryEditor", [IsRequired]),
    ("registryToken", [IsRequired])]

  /** The message of the first validator in `validators` that rejects `field`. */
  function FirstRejection(validators: seq<Validator>, key: string, field: Value): Option<string> {
    if validators == [] then None
    else if !Accepts(validators[0], field) then Some(Message(validators[0], key))
    else FirstRejection(validators[1..], key, field)
  }

  /**
   * The message of the first failing validator, the options taken in table
   * order from entry `from` on.
   */
  function FirstFailure(table: seq<(string, seq<Validator>)>, from: nat, options: Options): Option<string>
    decreases |table| - from
  {
    if from >= |table| then None
    else
      var rejection := FirstRejection(table[from].1, table[from].0, Get(options, table[from].0));
      if rejection.Some? then rejection else FirstFailure(table, from + 1, options)
  }

  /**
   * What `check` throws, written out option by option as the validator
   * table reads: the required options fail only when undefined (`null` and
   * the empty string pass), the slug and type with the manifest's message,
   * and a defined type other than "webapp" or "konnector" with the list of
   * allowed values.
   */
  function ExpectedFailure(options: Options): Option<string> {
    var appType := Get(options, "appType");
    if Get(options, "appBuildUrl") == Undefined then Some(Message(IsRequired, "appBuildUrl"))
    else if Get(options, "appSlug") == Undefined then Some(Message(IsRequiredFromManifest("slug"), "appSlug"))
    else if appType == Undefined then Some(Message(IsRequiredFromManifest("type"), "appType"))
    else if appType != Str("webapp") && appType != Str("konnector") then
      Some(Message(IsOneOf(["webapp", "konnector"]), "appType"))
    else if Get(options, "appVersion") == Undefined then Some(Message(IsRequired, "appVersion"))
    else if Get(options, "registryUrl") == Undefined then Some(Message(IsRequired, "registryUrl"))
    else if Get(options, "registryEditor") == Undefined then Some(Message(IsRequired, "registryEditor"))
    else if Get(options, "registryToken") == Undefined then Some(Message(IsRequired, "registryToken"))
    else None
  }

  /** A lone `isRequired` rejects only an undefined value. */
  lemma RequiredRejection(key: string, field: Value)
    ensures FirstRejection([IsRequired], key, field)
      == if field == Undefined then Some(Message(IsRequired, key)) else None
  {
    assert [IsRequired][1..] == [];
  }

  /** A lone `isRequiredFromManifest` rejects only an undefined value, naming the manifest attribute. */
  lemma ManifestRejection(attribute: string, key: string, field: Value)
    ensures FirstRejection([IsRequiredFromManifest(attribute)], key, field)
      == if field == Undefined then Some(Message(IsRequiredFromManifest(attribute), key)) else None
  {
    assert [IsRequiredFromManifest(attribute)][1..] == [];
  }

  /** The validators of `appType`: defined first, then one of the two kinds. */
  lemma AppTypeRejection(field: Value)
    ensures FirstRejection([IsRequiredFromManifest("type"), IsOneOf(["webapp", "konnector"])], "appType", field)
      == if field == Undefined then Some(Message(IsRequiredFromManifest("type"), "appType"))
         else if field != Str("webapp") && field != Str("konnector") then
           Some(Message(IsOneOf(["webapp", "konnector"]), "appType"))
         else None
  {
    var validators := [IsRequiredFromManifest("type"), IsOneOf(["webapp", "konnector"])];
    assert validators[1..] == [IsOneOf(["webapp", "konnector"])];
    assert validators[1..][1..] == [];
  }

  /** The last four entries of the table: the registry options and `appVersion`, all required. */
  lemma RequiredTailFailure(options: Options)
    ensures FirstFailure(OptionsTypes, 3, options)
      == if Get(options, "appVersion") == Undefined then Some(Message(IsRequired, "appVersion"))
         else if Get(options, "registryUrl") == Undefined then Some(Message(IsRequired, "registryUrl"))
         else if Get(options, "registryEditor") == Undefined then Some(Message(IsRequired, "registryEditor"))
         else if Get(options, "registryToken") == Undefined then Some(Message(IsRequired, "registryToken"))
         else None
  {
    var t := OptionsTypes;
    assert FirstFailure(t, 7, options) == None;
    RequiredRejection("registryToken", Get(options, "registryToken"));
    assert t[6] == ("registryToken", [IsRequired]);
    assert FirstFailure(t, 6, options) == if Get(options, "registryToken") == Undefined then Some(Message(IsRequired, "registryToken")) else None;
    RequiredRejection("registryEditor", Get(options, "registryEditor"));
    assert t[5] == ("registryEditor", [IsRequired]);
    assert FirstFailure(t, 5, options) == if Get(options, "registryEditor") == Undefined then Some(Message(IsRequired, "registryEditor")) else FirstFailure(t, 6, options);
    RequiredRejection("registryUrl", Get(options, "registryUrl"));
    assert t[4] == ("registryUrl", [IsRequired]);
    assert FirstFailure(t, 4, options) == if Get(options, "registryUrl") == Undefined then Some(Message(IsRequired, "registryUrl")) else FirstFailure(t, 5, options);
    RequiredRejection("appVersion", Get(options, "appVersion"));
    assert t[3] == ("appVersion", [IsRequired]);
    assert FirstFailure(t, 3, options) == if Get(options, "appVersion") == Undefined then Some(Message(IsRequired, "appVersion")) else FirstFailure(t, 4, options);
  }

  /** The validator table fails exactly as the option-by-option reading says. */
  lemma TableMatchesExpected(options: Options)
    ensures FirstFailure(OptionsTypes, 0, options) == ExpectedFailure(options)
  {
    var t := OptionsTypes;
    RequiredTailFailure(options);
    AppTypeRejection(Get(options, "appType"));
    assert t[2] == ("appType", [IsRequiredFromManifest("type"), IsOneOf(["webapp", "konnector"])]);
    ManifestRejection("slug", "appSlug", Get(options, "appSlug"));
    assert t[1] == ("appSlug", [IsRequiredFromManifest("slug")]);
    assert FirstFailure(t, 1, options) == if Get(options, "appSlug") == Undefined then Some(Message(IsRequiredFromManifest("slug"), "appSlug")) else FirstFailure(t, 2, options);
    RequiredRejection("appBuildUrl", Get(options, "appBuildUrl"));
    assert t[0] == ("appBuildUrl", [IsRequired]);
  }

  /**
   * `check` lets the options through exactly when the five required options
   * and the slug are defined (whatever their value, `null` included) and
   * the type is the string "webapp" or "konnector".
   */
  lemma CheckPassesIff(options: Options)
    ensures ExpectedFailure(options) == None <==>
      Get(options, "appBuildUrl") != Undefined && Get(options, "appSlug") != Undefined
      && Get(options, "appVersion") != Undefined && Get(options, "registryUrl") != Undefined
      && Get(options, "registryEditor") != Undefined && Get(options, "registryToken") != Undefined
      && (Get(options, "appType") == Str("webapp") || Get(options, "appType") == Str("konnector"))
  {
  }

  /**
   * Only the seven validated options matter: changing `buildCommit`,
   * `spaceName` or any other key never changes what `check` says.
   */
  lemma CheckIgnoresOtherKeys(options: Options, key: string, value: Value)
    requires key !in ["appBuildUrl", "appSlug", "appType", "appVersion", "registryUrl", "registryEditor", "registryToken"]
    ensures ExpectedFailure(options[key := value]) == ExpectedFailure(options)
  {
    assert forall k :: k != key ==> Get(options[key := value], k) == Get(options, k);
  }

  /** Checking the sanitized options says the same as checking the raw ones. */
  lemma CheckAfterSanitize(options: Options)
    ensures ExpectedFailure(Sanitize(options)) == ExpectedFailure(options)
  {
    SanitizeKeepsOnlyExpected(options, "appBuildUrl");
    SanitizeKeepsOnlyExpected(options, "appSlug");
    SanitizeKeepsOnlyExpected(options, "appType");
    SanitizeKeepsOnlyExpected(options, "appVersion");
    SanitizeKeepsOnlyExpected(options, "registryUrl");
    SanitizeKeepsOnlyExpected(options, "registryEditor");
    SanitizeKeepsOnlyExpected(options, "registryToken");
  }

  /** `values.join(', ')` on the two application types. */
  lemma JoinAppTypes()
    ensures Join(["webapp", "konnector"], ", ") == "webapp, konnector"
  {
    assert ["webapp", "konnector"][1..] == ["konnector"];
  }

  /**
   * `check`: runs every validator of every option in table order and throws
   * (here: fails with) the first message; when none fails, the options come
   * back unchanged.
   */
  method Check(options: Options) returns (r: Result<Options, string>)
    ensures r == match ExpectedFailure(options)
      case None => Success(options)
      case Some(message) => Failure(message)
  {
    TableMatchesExpected(options);
    var i := 0;
    while i < |OptionsTypes|
      invariant 0 <= i <= |OptionsTypes|
      invariant FirstFailure(OptionsTypes, i, options) == FirstFailure(OptionsTypes, 0, options)
    {
      var (option, validators) := OptionsTypes[i];
      var field := Get(options, option);
      var j := 0;
      while j < |validators|
        invariant 0 <= j <= |validators|
        invariant FirstRejection(validators[j..], option, field) == FirstRejection(validators, option, field)
      {
        var validator := validators[j];
        if !Accepts(validator, field) {
          r := Failure(Message(validator, option));
          return;
        }
        assert validators[j..][1..] == validators[j + 1..];
        j := j + 1;
      }
      i := i + 1;
    }
    r := Success(options);
  }
}

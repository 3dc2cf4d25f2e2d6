/**
 * The local-images service: its configuration loader (defaults merged
 * with a JSON file, then type-checked key by key) and the module state it
 * keeps, namely the loaded configuration and the ignore set that the
 * one-argument crictl parser reads.
 */
module ImageApi {
  import opened Wrappers
  import opened Json
  import CrictlImages
  import IgnoreList

  type Config = map<string, Json>

  /** The built-in configuration of the local-images service. */
  const DefaultConfig: Config := map[
    "ignore_file_path" := JString("images_to_ignore.txt"),
    "log_file" := JString("crictl_api.log"),
    "log_max_bytes" := JInt(10 * 1024 * 1024),
    "log_backup_count" := JInt(3),
    "app_host" := JString("0.0.0.0"),
    "app_port" := JInt(5000),
    "app_debug" := JBool(true),
    "file_handler_log_level" := JString("WARNING"),
    "app_log_level" := JString("WARNING"),
    "jsonify_prettyprint_regular" := JBool(true)
  ]

  /** The type a validated key must have. */
  datatype Kind = IntKind | BoolKind | StrKind

  /** One validation rule: a key and its expected type. */
  datatype Rule = Rule(key: string, kind: Kind)

  /**
   * The rules, in the order they are applied: first the three integer
   * keys, then the boolean and string keys.
   */
  const Rules: seq<Rule> := [
    Rule("log_max_bytes", IntKind), Rule("log_backup_count", IntKind), Rule("app_port", IntKind),
    Rule("app_debug", BoolKind), Rule("file_handler_log_level", StrKind),
    Rule("app_log_level", StrKind), Rule("jsonify_prettyprint_regular", BoolKind)
  ]

  const IntRuleCount := 3

  /** `isinstance(v, int)`, `isinstance(v, bool)` or `isinstance(v, str)`. */
  predicate HasKind(v: Json, kind: Kind)
  {
    match kind
    case IntKind => IsPyInt(v)
    case BoolKind => v.JBool?
    case StrKind => v.JString?
  }

  function RuleKeys(rules: seq<Rule>): (keys: set<string>)
    ensures forall j :: 0 <= j < |rules| ==> rules[j].key in keys
  {
    if rules == [] then {} else {rules[0].key} + RuleKeys(rules[1..])
  }

  /**
   * The value a rule leaves for its key, given the value found there:
   * a value of the right type stays; an integer key gets `int()` of the
   * value; anything else reverts to the default. `None` means the check
   * raised (`int()` gave `TypeError`, or the key has no default) and
   * loading stops.
   */
  function RuleOutcome(rule: Rule, defaults: Config, v: Json): (r: Option<Json>)
    ensures HasKind(v, rule.kind) ==> r == Some(v)
    ensures !HasKind(v, rule.kind) && rule.kind == IntKind && PyInt(v).Converted? ==> r == Some(JInt(PyInt(v).n))
    ensures !HasKind(v, rule.kind) && (rule.kind != IntKind || PyInt(v).ValueError?) && rule.key in defaults ==>
              r == Some(defaults[rule.key])
    ensures r.None? <==> !HasKind(v, rule.kind)
                         && ((rule.kind == IntKind && PyInt(v).TypeError?)
                             || (rule.key !in defaults && !(rule.kind == IntKind && PyInt(v).Converted?)))
  {
    if HasKind(v, rule.kind) then Some(v)
    else if rule.kind == IntKind && PyInt(v).Converted? then Some(JInt(PyInt(v).n))
    else if rule.kind == IntKind && PyInt(v).TypeError? then None
    else if rule.key in defaults then Some(defaults[rule.key])
    else None
  }

  /** The configuration so far, and whether loading goes on or stopped at an exception. */
  datatype Step = Continue(config: Config) | Abort(config: Config)

  /** Apply one rule: only a key that came from the file is checked. */
  function ApplyRule(rule: Rule, defaults: Config, file: Config, config: Config): (r: Step)
    requires file.Keys <= config.Keys
  {
    if rule.key !in file then Continue(config)
    else match RuleOutcome(rule, defaults, config[rule.key])
         case None => Abort(config)
         case Some(w) => Continue(config[rule.key := w])
  }

  /** Apply the rules in order, stopping at the first that raises. */
  function ApplyRules(rules: seq<Rule>, defaults: Config, file: Config, config: Config): (r: Step)
    requires file.Keys <= config.Keys
    ensures r.config.Keys == config.Keys
  {
    if rules == [] then Continue(config)
    else match ApplyRule(rules[0], defaults, file, config)
         case Abort(c) => Abort(c)
         case Continue(c) => ApplyRules(rules[1..], defaults, file, c)
  }

  /**
   * `load_app_config(defaults, filepath)`: a copy of the defaults,
   * updated with the file's object, then validated. A missing or
   * undecodable file leaves the defaults; so does a top-level value that
   * is not an object, on which `dict.update` raises.
   */
  function LoadedAppConfig(defaults: Config, file: ConfigFile): (r: Config)
  {
    match file
    case Unavailable => defaults
    case Decoded(JObject(m)) => ApplyRules(Rules, defaults, m, defaults + m).config
    case Decoded(_) => defaults
  }

  /** The file's validation stops early exactly when `ApplyRules` aborts. */
  predicate LoadAborts(defaults: Config, m: Config)
  {
    ApplyRules(Rules, defaults, m, defaults + m).Abort?
  }

  /**
   * The body of the integer-key loop: a file value that is not an int is
   * replaced by `int()` of it, or by the default on `ValueError`.
   */
  method ConvertIntKey(rule: Rule, defaults: Config, file: Config, config: Config)
    returns (newConfig: Config, aborted: bool)
    requires rule.kind == IntKind && file.Keys <= config.Keys
    ensures ApplyRule(rule, defaults, file, config)
            == if aborted then Abort(newConfig) else Continue(newConfig)
  {
    newConfig, aborted := config, false;
    var key := rule.key;
    if key in file && !IsPyInt(config[key]) {
      match PyInt(config[key]) {
        case Converted(n) =>
          newConfig := config[key := JInt(n)];
        case ValueError =>
          if key !in defaults {
            aborted := true;
            return;
          }
          newConfig := config[key := defaults[key]];
        case TypeError =>
          aborted := true;
      }
    } else if key in file {
      assert config[key := config[key]] == config;
    }
  }

  /** One of the four boolean/string checks, as the loader writes it out. */
  method CheckKind(rule: Rule, defaults: Config, file: Config, config: Config)
    returns (newConfig: Config, aborted: bool)
    requires rule.kind != IntKind && file.Keys <= config.Keys
    ensures ApplyRule(rule, defaults, file, config)
            == if aborted then Abort(newConfig) else Continue(newConfig)
  {
    newConfig, aborted := config, false;
    if rule.key in file && !HasKind(config[rule.key], rule.kind) {
      if rule.key !in defaults {
        aborted := true;
        return;
      }
      newConfig := config[rule.key := defaults[rule.key]];
    } else if rule.key in file {
      assert config[rule.key := config[rule.key]] == config;
    }
  }

  /**
   * The loader itself: update a copy of the defaults, convert the integer
   * keys in a loop, then run the four type checks (written out one after
   * the other in the service, taken here from the rule table); an
   * exception ends loading with the configuration as it stands.
   */
  method LoadAppConfig(defaults: Config, file: ConfigFile) returns (config: Config)
    ensures config == LoadedAppConfig(defaults, file)
  {
    config := defaults;
    if file.Unavailable? || !file.content.JObject? {
      return;
    }
    var fileConfig := file.content.members;
    config := config + fileConfig;
    var aborted;
    config, aborted := ConvertIntKeys(defaults, fileConfig, config);
    if aborted {
      return;
    }
    config, aborted := CheckKinds(defaults, fileConfig, config);
  }

  /** The integer-key loop: the first `IntRuleCount` rules, stopping where one raises. */
  method ConvertIntKeys(defaults: Config, file: Config, start: Config) returns (config: Config, aborted: bool)
    requires file.Keys <= start.Keys
    ensures file.Keys <= config.Keys
    ensures ApplyRules(Rules, defaults, file, start)
            == if aborted then Abort(config) else ApplyRules(Rules[IntRuleCount..], defaults, file, config)
  {
    config, aborted := start, false;
    ghost var whole := ApplyRules(Rules, defaults, file, start);
    for k := 0 to IntRuleCount
      invariant file.Keys <= config.Keys
      invariant ApplyRules(Rules[k..], defaults, file, config) == whole
    {
      assert Rules[k].kind == IntKind;
      ApplyRulesUnfold(Rules[k..], defaults, file, config);
      assert Rules[k..][1..] == Rules[k + 1..];
      config, aborted := ConvertIntKey(Rules[k], defaults, file, config);
      if aborted {
        return;
      }
    }
  }

  /** The four boolean/string checks, one rule at a time. */
  method CheckKinds(defaults: Config, file: Config, start: Config) returns (config: Config, aborted: bool)
    requires file.Keys <= start.Keys
    ensures ApplyRules(Rules[IntRuleCount..], defaults, file, start)
            == if aborted then Abort(config) else Continue(config)
  {
    config, aborted := start, false;
    for k := IntRuleCount to |Rules|
      invariant file.Keys <= config.Keys
      invariant ApplyRules(Rules[k..], defaults, file, config) == ApplyRules(Rules[IntRuleCount..], defaults, file, start)
    {
      ApplyRulesUnfold(Rules[k..], defaults, file, config);
      assert Rules[k..][1..] == Rules[k + 1..];
      config, aborted := CheckKind(Rules[k], defaults, file, config);
      if aborted {
        return;
      }
    }
  }

  lemma ApplyRulesUnfold(rules: seq<Rule>, defaults: Config, file: Config, config: Config)
    requires rules != [] && file.Keys <= config.Keys
    ensures var first := ApplyRule(rules[0], defaults, file, config);
            ApplyRules(rules, defaults, file, config)
            == if first.Abort? then first else ApplyRules(rules[1..], defaults, file, first.config)
  {
  }

  // ----- properties of the loader -----

  /** The rules change only keys that the file holds and that some rule checks. */
  lemma {:induction false} ApplyRulesFrame(rules: seq<Rule>, defaults: Config, file: Config, config: Config, k: string)
    requires file.Keys <= config.Keys && k in config
    requires k !in file || k !in RuleKeys(rules)
    ensures ApplyRules(rules, defaults, file, config).config[k] == config[k]
  {
    if rules != [] {
      match ApplyRule(rules[0], defaults, file, config)
      case Abort(c) =>
      case Continue(c) =>
        ApplyRulesFrame(rules[1..], defaults, file, c, k);
    }
  }

  /** Without a usable object in the file, the defaults come back unchanged. */
  lemma NoFileObjectGivesDefaults(defaults: Config, file: ConfigFile)
    requires file.Unavailable? || !file.content.JObject?
    ensures LoadedAppConfig(defaults, file) == defaults
  {
  }

  /** The loaded configuration has the defaults' keys and the file's keys, no others. */
  lemma LoadedKeys(defaults: Config, m: Config)
    ensures LoadedAppConfig(defaults, Decoded(JObject(m))).Keys == defaults.Keys + m.Keys
  {
  }

  /**
   * Keys the file does not mention keep their default; keys no rule
   * checks take the file's value, whether or not the defaults have them.
   */
  lemma FileOverridesDefaults(defaults: Config, m: Config, k: string)
    ensures k in defaults && k !in m ==> LoadedAppConfig(defaults, Decoded(JObject(m)))[k] == defaults[k]
    ensures k in m && k !in RuleKeys(Rules) ==> LoadedAppConfig(defaults, Decoded(JObject(m)))[k] == m[k]
  {
    if k in defaults + m && (k !in m || k !in RuleKeys(Rules)) {
      ApplyRulesFrame(Rules, defaults, m, defaults + m, k);
    }
  }

  predicate DistinctKeys(rules: seq<Rule>)
  {
    forall i, j :: 0 <= i < j < |rules| ==> rules[i].key != rules[j].key
  }

  /**
   * Applying rules with distinct keys to a configuration that still holds
   * the file's values: loading goes on exactly when no rule raises, and
   * then each checked key holds what its rule makes of the file's value.
   */
  lemma {:induction false} ApplyRulesPointwise(rules: seq<Rule>, defaults: Config, file: Config, config: Config)
    requires file.Keys <= config.Keys && DistinctKeys(rules)
    requires forall j :: 0 <= j < |rules| && rules[j].key in file ==> config[rules[j].key] == file[rules[j].key]
    ensures ApplyRules(rules, defaults, file, config).Continue? <==>
              forall j :: 0 <= j < |rules| && rules[j].key in file ==>
                RuleOutcome(rules[j], defaults, file[rules[j].key]).Some?
    ensures ApplyRules(rules, defaults, file, config).Continue? ==>
              forall j :: 0 <= j < |rules| && rules[j].key in file ==>
                ApplyRules(rules, defaults, file, config).config[rules[j].key]
                == RuleOutcome(rules[j], defaults, file[rules[j].key]).value
  {
    if rules != [] {
      var rule, rest := rules[0], rules[1..];
      assert forall j :: 0 <= j < |rest| ==> rest[j] == rules[j + 1];
      assert rule.key !in RuleKeys(rest) by {
        RuleKeysMembership(rest, rule.key);
      }
      match ApplyRule(rule, defaults, file, config)
      case Abort(c) =>
      case Continue(c) =>
        ApplyRulesPointwise(rest, defaults, file, c);
        if rule.key in file {
          ApplyRulesFrame(rest, defaults, file, c, rule.key);
        }
    }
  }

  lemma {:induction false} RuleKeysMembership(rules: seq<Rule>, k: string)
    ensures k in RuleKeys(rules) <==> exists j :: 0 <= j < |rules| && rules[j].key == k
  {
    if rules != [] {
      RuleKeysMembership(rules[1..], k);
      if k in RuleKeys(rules[1..]) {
        var j :| 0 <= j < |rules[1..]| && rules[1..][j].key == k;
        assert rules[j + 1].key == k;
      }
      if exists j :: 0 <= j < |rules| && rules[j].key == k {
        var j :| 0 <= j < |rules| && rules[j].key == k;
        if j > 0 {
          assert rules[1..][j - 1].key == k;
        }
      }
    }
  }

  /**
   * The validation rules, key by key: loading stops early exactly when
   * some rule raises, and otherwise each checked key the file mentions
   * holds what its rule makes of the file's value (kept when well typed,
   * converted by `int()`, or reverted to the default).
   */
  lemma ValidatedKeys(defaults: Config, m: Config)
    ensures !LoadAborts(defaults, m) <==>
              forall j :: 0 <= j < |Rules| && Rules[j].key in m ==>
                RuleOutcome(Rules[j], defaults, m[Rules[j].key]).Some?
    ensures !LoadAborts(defaults, m) ==>
              forall j :: 0 <= j < |Rules| && Rules[j].key in m ==>
                LoadedAppConfig(defaults, Decoded(JObject(m)))[Rules[j].key]
                == RuleOutcome(Rules[j], defaults, m[Rules[j].key]).value
  {
    ApplyRulesPointwise(Rules, defaults, m, defaults + m);
  }

  /**
   * With the built-in defaults, which hold every checked key, loading
   * stops early exactly when an integer key holds a value `int()`
   * rejects with `TypeError` (null, an array or an object).
   */
  lemma DefaultsAbortOnlyOnTypeError(m: Config)
    ensures LoadAborts(DefaultConfig, m) <==>
              exists j :: 0 <= j < IntRuleCount && Rules[j].key in m && !IsPyInt(m[Rules[j].key])
                          && PyInt(m[Rules[j].key]).TypeError?
  {
    ValidatedKeys(DefaultConfig, m);
    if LoadAborts(DefaultConfig, m) {
      var j :| 0 <= j < |Rules| && Rules[j].key in m && RuleOutcome(Rules[j], DefaultConfig, m[Rules[j].key]).None?;
      assert Rules[j].key in DefaultConfig;
    }
  }

  /**
   * With the built-in defaults and no early stop, every checked key has
   * its declared type afterwards.
   */
  lemma DefaultsLoadWellTyped(m: Config)
    requires !LoadAborts(DefaultConfig, m)
    ensures forall j :: 0 <= j < |Rules| ==>
              HasKind(LoadedAppConfig(DefaultConfig, Decoded(JObject(m)))[Rules[j].key], Rules[j].kind)
  {
    ValidatedKeys(DefaultConfig, m);
    forall j | 0 <= j < |Rules|
      ensures HasKind(LoadedAppConfig(DefaultConfig, Decoded(JObject(m)))[Rules[j].key], Rules[j].kind)
    {
      var k := Rules[j].key;
      assert k in DefaultConfig && HasKind(DefaultConfig[k], Rules[j].kind);
      if k !in m {
        FileOverridesDefaults(DefaultConfig, m, k);
      }
    }
  }

  // ----- the service's module state -----

  /**
   * The module-level state of the local-images service: the configuration
   * loaded at start-up, and the ignore set read from the file that
   * configuration names.
   */
  class LocalImagesService {
    var appConfig: Config
    var ignoredImageIds: set<string>

    /**
     * Start-up: load the configuration, then the ignore list from the
     * file found at its `ignore_file_path` (given here already read).
     */
    constructor (configFile: ConfigFile, ignoreFile: IgnoreList.CsvFile)
      ensures appConfig == LoadedAppConfig(DefaultConfig, configFile)
      ensures ignoredImageIds == IgnoreList.IgnoredIds(ignoreFile)
    {
      var config := LoadAppConfig(DefaultConfig, configFile);
      var ids := IgnoreList.LoadIgnoredImageIds(ignoreFile);
      appConfig := config;
      ignoredImageIds := ids;
    }

    /** The one-argument parser: it filters with the module's ignore set. */
    method ParseCrictlImagesOutput(output: string) returns (images: seq<CrictlImages.ImageRow>)
      ensures images == CrictlImages.Parse(output, ignoredImageIds)
    {
      images := CrictlImages.ParseCrictlImagesOutput(output, Some(ignoredImageIds));
    }
  }
}

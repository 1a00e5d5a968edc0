/** The configuration of the web application (`zubbi/config.py`): the
    defaults module fills in the upper-case settings the configuration does
    not have, and then the whitelisted environment variables that are set
    overwrite theirs. The defaults module and the environment are
    parameters. */
module Config {
  import opened Wrappers

  /** A configuration value. Values read from the environment are strings. */
  datatype Value = Str(s: string) | Int(i: int) | Bool(b: bool) | NoValue

  type Configuration = map<string, Value>

  const EnvironmentVariablesAvailable: seq<string> := [
    "ES_HOST",
    "ES_USERNAME",
    "ES_PASSWORD",
    "ES_PORT",
    "FORCE_SCRAPE_INTERVAL",
    "GITHUB_WEBHOOK_ADDRESS",
    "SEARCH_BATCH_SIZE",
    "SEARCH_BATCH_LIMIT",
    "TENANT_SOURCES_FILE",
    "ZMP_SUB_SOCKET_ADDRESS",
    "ZMP_PUB_SOCKET_ADDRESS",
    "ZMQ_SUB_TIMEOUT"
  ]

  predicate IsUpperLetter(c: char) { 'A' <= c <= 'Z' }
  predicate IsLowerLetter(c: char) { 'a' <= c <= 'z' }

  /** `str.isupper` over ASCII: some letter, and no lower-case one. */
  predicate IsUpper(name: string) {
    (exists i :: 0 <= i < |name| && IsUpperLetter(name[i]))
    && (forall i :: 0 <= i < |name| ==> !IsLowerLetter(name[i]))
  }

  /** The defaults module: its attribute names in `dir` order and their
      values. */
  datatype Defaults = Defaults(names: seq<string>, values: map<string, Value>)

  predicate WellFormedDefaults(d: Defaults) {
    forall i :: 0 <= i < |d.names| ==> d.names[i] in d.values
  }

  /** `_default_configuration` over the first `names`: `setdefault` for every
      upper-case name. */
  function SetDefaults(config: Configuration, names: seq<string>, values: map<string, Value>): Configuration
    requires forall i :: 0 <= i < |names| ==> names[i] in values
  {
    if |names| == 0 then config
    else
      var key := names[|names| - 1];
      var before := SetDefaults(config, names[..|names| - 1], values);
      if IsUpper(key) && key !in before then before[key := values[key]] else before
  }

  function DefaultConfiguration(config: Configuration, d: Defaults): Configuration
    requires WellFormedDefaults(d)
  {
    SetDefaults(config, d.names, d.values)
  }

  /** `_environment_configuration` over the first `keys` of the whitelist. */
  function SetFromEnvironment(config: Configuration, keys: seq<string>, environ: map<string, string>): Configuration {
    if |keys| == 0 then config
    else
      var key := keys[|keys| - 1];
      var before := SetFromEnvironment(config, keys[..|keys| - 1], environ);
      if key in environ then before[key := Str(environ[key])] else before
  }

  function EnvironmentConfiguration(config: Configuration, environ: map<string, string>): Configuration {
    SetFromEnvironment(config, EnvironmentVariablesAvailable, environ)
  }

  /** `init_configuration`: defaults first, then the environment. */
  function InitConfiguration(config: Configuration, d: Defaults, environ: map<string, string>): Configuration
    requires WellFormedDefaults(d)
  {
    EnvironmentConfiguration(DefaultConfiguration(config, d), environ)
  }

  /** Setting defaults adds exactly the upper-case default names the
      configuration lacks, with their default values, and changes nothing
      that was already there. */
  lemma {:induction false} SetDefaultsMeaning(config: Configuration, names: seq<string>, values: map<string, Value>)
    requires forall i :: 0 <= i < |names| ==> names[i] in values
    ensures var r := SetDefaults(config, names, values);
            && (forall k :: k in config ==> k in r && r[k] == config[k])
            && (forall k :: k in r && k !in config ==> k in names && IsUpper(k) && r[k] == values[k])
            && (forall k :: k in names && IsUpper(k) ==> k in r)
  {
    if |names| > 0 {
      var prefix := names[..|names| - 1];
      SetDefaultsMeaning(config, prefix, values);
      forall k | k in prefix ensures k in names {
        var i :| 0 <= i < |prefix| && prefix[i] == k;
        assert names[i] == k;
      }
      forall k | k in names ensures k in prefix || k == names[|names| - 1] {
        var i :| 0 <= i < |names| && names[i] == k;
        if i < |names| - 1 { assert prefix[i] == k; }
      }
    }
  }

  /** After the environment step a whitelisted variable that is set holds
      its environment value; every other key keeps its value, and no key
      is added except whitelisted variables that are set. */
  lemma {:induction false} SetFromEnvironmentMeaning(config: Configuration, keys: seq<string>, environ: map<string, string>)
    ensures var r := SetFromEnvironment(config, keys, environ);
            && (forall k :: k in keys && k in environ ==> k in r && r[k] == Str(environ[k]))
            && (forall k :: !(k in keys && k in environ) ==> (k in r <==> k in config))
            && (forall k :: k in config && !(k in keys && k in environ) ==> r[k] == config[k])
  {
    if |keys| > 0 {
      var prefix := keys[..|keys| - 1];
      SetFromEnvironmentMeaning(config, prefix, environ);
      forall k | k in prefix ensures k in keys {
        var i :| 0 <= i < |prefix| && prefix[i] == k;
        assert keys[i] == k;
      }
      forall k | k in keys ensures k in prefix || k == keys[|keys| - 1] {
        var i :| 0 <= i < |keys| && keys[i] == k;
        if i < |keys| - 1 { assert prefix[i] == k; }
      }
    }
  }

  /** Where a setting comes from after `init_configuration`: a whitelisted
      environment variable that is set wins over everything, a value the
      configuration already had wins over the default, and the default fills
      in the rest. Environment variables outside the whitelist are never
      read. */
  lemma InitConfigurationPrecedence(config: Configuration, d: Defaults, environ: map<string, string>, k: string)
    requires WellFormedDefaults(d)
    ensures var r := InitConfiguration(config, d, environ);
            && (k in EnvironmentVariablesAvailable && k in environ ==> k in r && r[k] == Str(environ[k]))
            && (!(k in EnvironmentVariablesAvailable && k in environ) && k in config ==> k in r && r[k] == config[k])
            && ((!(k in EnvironmentVariablesAvailable && k in environ) && k !in config && k in d.names && IsUpper(k))
                ==> k in r && r[k] == d.values[k])
            && ((!(k in EnvironmentVariablesAvailable && k in environ) && k !in config && !(k in d.names && IsUpper(k)))
                ==> k !in r)
  {
    SetDefaultsMeaning(config, d.names, d.values);
    SetFromEnvironmentMeaning(DefaultConfiguration(config, d), EnvironmentVariablesAvailable, environ);
  }

  /** Environment variables outside the whitelist make no difference. */
  lemma OtherVariablesIgnored(config: Configuration, d: Defaults, environ: map<string, string>, name: string, value: string)
    requires WellFormedDefaults(d)
    requires name !in EnvironmentVariablesAvailable
    ensures InitConfiguration(config, d, environ[name := value]) == InitConfiguration(config, d, environ)
  {
    var base := DefaultConfiguration(config, d);
    SetFromEnvironmentMeaning(base, EnvironmentVariablesAvailable, environ[name := value]);
    SetFromEnvironmentMeaning(base, EnvironmentVariablesAvailable, environ);
  }

  /** The module-level `ES_INDEX_PREFIX`: the variable's value, or empty. */
  function EsIndexPrefix(environ: map<string, string>): (r: string)
    ensures "ES_INDEX_PREFIX" in environ ==> r == environ["ES_INDEX_PREFIX"]
    ensures "ES_INDEX_PREFIX" !in environ ==> r == ""
  {
    if "ES_INDEX_PREFIX" in environ then environ["ES_INDEX_PREFIX"] else ""
  }
}

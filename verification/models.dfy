/** The request records and the settings loader of `api/models.py`.
    The environment is a parameter: `os.environ` becomes a map from variable
    names to values, and a raised `RuntimeError` becomes a `Failure`. */
module Models {
  import opened Wrappers

  /** One downloadable input of an analysis request. `download_url` is kept as
      the URL text; the URL syntax check done by the schema library is not modelled. */
  datatype Artifact = Artifact(
    artifactId: string,
    filename: string,
    sizeBytes: int,
    contentType: string,
    downloadUrl: string,
    expiresAt: string)

  /** The analyzer's identity and its broker endpoint. */
  datatype Settings = Settings(analyzerName: string, analyzerVersion: string, redisUrl: string)

  /** The three start-up errors, one per required environment variable. */
  datatype SettingsError = MissingAnalyzerName | MissingAnalyzerVersion | MissingRedisUrl {

    /** The text of the raised `RuntimeError`, exactly as the loader words it. */
    function Message(): string {
      match this
      case MissingAnalyzerName => "ANALYZER_NAME  env var not set"
      case MissingAnalyzerVersion => "ANALYZER_VERSION env var not set"
      case MissingRedisUrl => "REDIS_URL env var not set"
    }
  }

  type Environment = map<string, string>

  const AnalyzerNameVar: string := "ANALYZER_NAME"
  const AnalyzerVersionVar: string := "ANALYZER_VERSION"
  const RedisUrlVar: string := "REDIS_URL"

  /** `os.environ.get(name)` */
  function Lookup(env: Environment, name: string): Option<string> {
    if name in env then Some(env[name]) else None
  }

  /** Python's `not x` on an optional string: absent and empty are both falsy. */
  predicate Falsy(x: Option<string>) {
    x.None? || x.value == ""
  }

  /** The required variables in the order the loader checks them, each with the error it raises. */
  const RequiredVars: seq<(string, SettingsError)> :=
    [(AnalyzerNameVar, MissingAnalyzerName),
     (AnalyzerVersionVar, MissingAnalyzerVersion),
     (RedisUrlVar, MissingRedisUrl)]

  /** Reference definition of "the first failing check": the error of the
      first listed variable whose value is falsy, if there is one. */
  function FirstMissing(env: Environment, checks: seq<(string, SettingsError)>): Option<SettingsError> {
    if checks == [] then None
    else if Falsy(Lookup(env, checks[0].0)) then Some(checks[0].1)
    else FirstMissing(env, checks[1..])
  }

  /** `get_settings()`: read the three variables and fail on the first one that is
      missing or empty, in the order name, version, broker URL. */
  function GetSettings(env: Environment): (r: Result<Settings, SettingsError>)
    ensures r.Success? <==>
      && AnalyzerNameVar in env && env[AnalyzerNameVar] != ""
      && AnalyzerVersionVar in env && env[AnalyzerVersionVar] != ""
      && RedisUrlVar in env && env[RedisUrlVar] != ""
    ensures r.Success? ==>
      r.value == Settings(env[AnalyzerNameVar], env[AnalyzerVersionVar], env[RedisUrlVar])
  {
    var name := Lookup(env, AnalyzerNameVar);
    var version := Lookup(env, AnalyzerVersionVar);
    var redisUrl := Lookup(env, RedisUrlVar);
    if Falsy(name) then Failure(MissingAnalyzerName)
    else if Falsy(version) then Failure(MissingAnalyzerVersion)
    else if Falsy(redisUrl) then Failure(MissingRedisUrl)
    else Success(Settings(name.value, version.value, redisUrl.value))
  }

  /** The loader agrees with the reference definition: it fails exactly when
      some required variable is falsy, and then with the error of the first one. */
  lemma FirstFailingCheckReported(env: Environment)
    ensures GetSettings(env).Failure? <==> FirstMissing(env, RequiredVars).Some?
    ensures GetSettings(env).Failure? ==> GetSettings(env).error == FirstMissing(env, RequiredVars).value
  {
    var rest := RequiredVars[1..];
    assert rest == [(AnalyzerVersionVar, MissingAnalyzerVersion), (RedisUrlVar, MissingRedisUrl)];
    assert rest[1..] == [(RedisUrlVar, MissingRedisUrl)];
    assert rest[1..][1..] == [];
    assert FirstMissing(env, rest[1..]) == if Falsy(Lookup(env, RedisUrlVar)) then Some(MissingRedisUrl) else None;
    assert FirstMissing(env, rest) ==
      if Falsy(Lookup(env, AnalyzerVersionVar)) then Some(MissingAnalyzerVersion) else FirstMissing(env, rest[1..]);
  }

  /** A missing or empty analyzer name is reported as such, whatever the other two variables hold. */
  lemma NameCheckedFirst(env: Environment)
    requires AnalyzerNameVar !in env || env[AnalyzerNameVar] == ""
    ensures GetSettings(env) == Failure(MissingAnalyzerName)
    ensures GetSettings(env).error.Message() == "ANALYZER_NAME  env var not set"
  {
  }

  /** Only the first failing check is reported: a later variable is consulted
      only once every earlier one is non-empty. */
  lemma OnlyFirstFailureReported(env: Environment)
    ensures GetSettings(env) == Failure(MissingAnalyzerVersion) <==>
      !Falsy(Lookup(env, AnalyzerNameVar)) && Falsy(Lookup(env, AnalyzerVersionVar))
    ensures GetSettings(env) == Failure(MissingRedisUrl) <==>
      !Falsy(Lookup(env, AnalyzerNameVar)) && !Falsy(Lookup(env, AnalyzerVersionVar)) && Falsy(Lookup(env, RedisUrlVar))
  {
  }

  /** Setting a required variable to the empty string has the same effect as unsetting it. */
  lemma EmptyIsAbsent(env: Environment, name: string)
    requires name in {AnalyzerNameVar, AnalyzerVersionVar, RedisUrlVar}
    ensures GetSettings(env[name := ""]) == GetSettings(env - {name})
  {
  }

  /** The loader depends on the three required variables and on nothing else in the environment. */
  lemma OtherVariablesIgnored(env: Environment, env': Environment)
    requires Lookup(env, AnalyzerNameVar) == Lookup(env', AnalyzerNameVar)
    requires Lookup(env, AnalyzerVersionVar) == Lookup(env', AnalyzerVersionVar)
    requires Lookup(env, RedisUrlVar) == Lookup(env', RedisUrlVar)
    ensures GetSettings(env) == GetSettings(env')
  {
  }

  /** The environment that sets exactly the three required variables to the fields of `s`. */
  function EnvironmentOf(s: Settings): Environment {
    map[AnalyzerNameVar := s.analyzerName, AnalyzerVersionVar := s.analyzerVersion, RedisUrlVar := s.redisUrl]
  }

  /** Loading the settings back from their own environment gives them back,
      provided no field is empty. */
  lemma SettingsRoundTrip(s: Settings)
    requires s.analyzerName != "" && s.analyzerVersion != "" && s.redisUrl != ""
    ensures GetSettings(EnvironmentOf(s)) == Success(s)
  {
  }
}

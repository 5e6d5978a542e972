/**
  Configuration loading (`load_config` in vectra_auth.py): the three credentials read
  from the environment, each required, and the platform URL normalised to end in '/'.
 */
module Config {

  import opened Wrappers
  import opened Text

  /** What `os.getenv` returned for CLIENT_ID, CLIENT_SECRET and VECTRA_URL. */
  datatype Env = Env(clientId: Option<string>, clientSecret: Option<string>, vectraUrl: Option<string>)

  datatype Config = Config(clientId: string, clientSecret: string, vectraUrl: string)

  /** Python's `not v` for an environment value: unset or empty. */
  predicate Blank(v: Option<string>) {
    v.None? || v.value == ""
  }

  /** The names of the unusable variables, in the order the configuration lists them. */
  function MissingVariables(env: Env): (names: seq<string>)
    ensures "client_id" in names <==> Blank(env.clientId)
    ensures "client_secret" in names <==> Blank(env.clientSecret)
    ensures "vectra_url" in names <==> Blank(env.vectraUrl)
    ensures |names| <= 3
  {
    (if Blank(env.clientId) then ["client_id"] else [])
    + (if Blank(env.clientSecret) then ["client_secret"] else [])
    + (if Blank(env.vectraUrl) then ["vectra_url"] else [])
  }

  /**
    `load_config`: no configuration when any value is missing or empty; otherwise the
    values as given, except that a URL not ending in '/' gets one appended.
   */
  function LoadConfig(env: Env): (r: Option<Config>)
    ensures r.None? <==> Blank(env.clientId) || Blank(env.clientSecret) || Blank(env.vectraUrl)
    ensures r.Some? ==> r.value.clientId == env.clientId.value && r.value.clientSecret == env.clientSecret.value
    ensures r.Some? ==> EndsWith(r.value.vectraUrl, "/")
    ensures r.Some? ==> r.value.vectraUrl in {env.vectraUrl.value, env.vectraUrl.value + "/"}
    ensures r.Some? && EndsWith(env.vectraUrl.value, "/") ==> r.value.vectraUrl == env.vectraUrl.value
  {
    if MissingVariables(env) != [] then None
    else
      var url := env.vectraUrl.value;
      Some(Config(env.clientId.value, env.clientSecret.value, if EndsWith(url, "/") then url else url + "/"))
  }

  /** Loading a configuration whose URL is already normalised changes nothing. */
  lemma LoadConfigIdempotent(env: Env)
    requires LoadConfig(env).Some?
    ensures var c := LoadConfig(env).value;
      LoadConfig(Env(Some(c.clientId), Some(c.clientSecret), Some(c.vectraUrl))) == Some(c)
  {
  }
}

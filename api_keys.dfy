/** src/apiKeyUtils.ts: the environment variable that holds each provider's API key,
    whether it is set, and asking for it when it is not. The environment is a map from
    variable names to values; the key typed at the password prompt is a parameter. */
module ApiKeys {
  import opened Wrappers
  import opened Strings

  /** ASCII upper case, as `toUpperCase` acts on the provider names. */
  function Upper(s: string): (r: string)
    ensures |r| == |s|
    ensures forall k :: 0 <= k < |s| ==> r[k] == if 'a' <= s[k] <= 'z' then (s[k] as int - 32) as char else s[k]
  {
    seq(|s|, k requires 0 <= k < |s| => if 'a' <= s[k] <= 'z' then (s[k] as int - 32) as char else s[k])
  }

  predicate Supported(provider: string)
  {
    provider == "anthropic" || provider == "openai" || provider == "fireworks"
  }

  /** `getEnvVarName`: the provider's name in upper case followed by `_API_KEY`; any other
      provider raises `Unsupported provider: <provider>`. */
  function EnvVarName(provider: string): (r: Result<string>)
    ensures r.Ok? <==> Supported(provider)
    ensures r.Ok? ==> r.value == Upper(provider) + "_API_KEY"
    ensures r.Err? ==> r.error == "Unsupported provider: " + provider
  {
    match provider
    case "anthropic" => Ok("ANTHROPIC_API_KEY")
    case "openai" => Ok("OPENAI_API_KEY")
    case "fireworks" => Ok("FIREWORKS_API_KEY")
    case _ => Err("Unsupported provider: " + provider)
  }

  /** The supported providers read different variables. */
  lemma EnvVarNamesDistinct(p: string, q: string)
    requires EnvVarName(p).Ok? && EnvVarName(q).Ok? && p != q
    ensures EnvVarName(p).value != EnvVarName(q).value
  {
    assert |EnvVarName(p).value| == |p| + 8 && |EnvVarName(q).value| == |q| + 8;
    if |p| == |q| {
      assert {p, q} == {"anthropic", "fireworks"};
      assert EnvVarName(p).value[0] != EnvVarName(q).value[0];
    }
  }

  /** `!!process.env[name]`: set and not empty. */
  predicate IsSet(env: map<string, string>, name: string)
  {
    name in env && env[name] != ""
  }

  /** `checkAPIKey`: the provider's variable is set and not empty; an unsupported
      provider raises. */
  function CheckAPIKey(env: map<string, string>, provider: string): (r: Result<bool>)
    ensures r.Err? <==> !Supported(provider)
    ensures r.Ok? ==> (r.value <==> exists name :: name == Upper(provider) + "_API_KEY" && IsSet(env, name))
  {
    match EnvVarName(provider)
    case Err(e) => Err(e)
    case Ok(name) => Ok(IsSet(env, name))
  }

  /** The environment and the returned key after `getAndSetAPIKey`, `entered` being what
      the operator types when asked. */
  function SetAPIKey(env: map<string, string>, provider: string, entered: string): Result<(map<string, string>, string)>
  {
    match EnvVarName(provider)
    case Err(e) => Err(e)
    case Ok(name) =>
      if IsSet(env, name) then Ok((env, env[name])) else Ok((env[name := entered], entered))
  }

  /** After `getAndSetAPIKey` the key is set exactly when it was set before or a
      non-empty key was typed; the call returns the variable's value; a set key is kept
      and nothing but the provider's variable changes. */
  lemma SetAPIKeyEffect(env: map<string, string>, provider: string, entered: string)
    ensures SetAPIKey(env, provider, entered).Err? <==> CheckAPIKey(env, provider).Err?
    ensures SetAPIKey(env, provider, entered).Ok? ==>
      var (env', key) := SetAPIKey(env, provider, entered).value;
      var name := EnvVarName(provider).value;
      name in env' && env'[name] == key &&
      CheckAPIKey(env', provider) == Ok(CheckAPIKey(env, provider).value || entered != "") &&
      (CheckAPIKey(env, provider).value ==> env' == env) &&
      forall v :: v != name ==> (v in env' <==> v in env) && (v in env ==> env'[v] == env[v])
  {
  }

  /** Once the key is set, asking again changes nothing and returns the same key,
      whatever would be typed. */
  lemma SetAPIKeyIdempotent(env: map<string, string>, provider: string, entered: string, again: string)
    requires SetAPIKey(env, provider, entered).Ok?
    requires CheckAPIKey(SetAPIKey(env, provider, entered).value.0, provider) == Ok(true)
    ensures SetAPIKey(SetAPIKey(env, provider, entered).value.0, provider, again) == SetAPIKey(env, provider, entered)
  {
  }

  /** `process.env`, which `getAndSetAPIKey` writes. */
  class Environment {
    var vars: map<string, string>

    constructor (vars0: map<string, string>)
      ensures vars == vars0
    {
      vars := vars0;
    }

    /** `getAndSetAPIKey`: asks for the key only when it is not set. */
    method GetAndSetAPIKey(provider: string, entered: string) returns (r: Result<string>)
      modifies this
      ensures SetAPIKey(old(vars), provider, entered).Err? ==> r.Err? && vars == old(vars)
      ensures SetAPIKey(old(vars), provider, entered).Ok? ==>
        r == Ok(SetAPIKey(old(vars), provider, entered).value.1) && vars == SetAPIKey(old(vars), provider, entered).value.0
    {
      var envVar := EnvVarName(provider);
      if envVar.Err? {
        return Err(envVar.error);
      }
      var name := envVar.value;
      if !(name in vars && vars[name] != "") {
        vars := vars[name := entered];
      }
      r := Ok(vars[name]);
    }
  }
}

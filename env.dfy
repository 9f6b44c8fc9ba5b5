/** The environment check of `config/env.ts`. The process environment is a map
    from variable names to values; a variable counts as set when it is present
    and not the empty string (JavaScript truthiness of `process.env[name]`). */
module Env {
  import opened Wrappers
  import Strings

  type Environment = map<string, string>

  const ApiKeyVar := "NEXT_PUBLIC_ALPHA_VANTAGE_API_KEY"
  const BlobTokenVar := "BLOB_READ_WRITE_TOKEN"
  const DebugVar := "NEXT_PUBLIC_DEBUG"

  const RequiredEnvVars: seq<string> := [ApiKeyVar, BlobTokenVar]

  const MissingVarsPrefix := "Missing required environment variables: "
  const NameSeparator := ", "

  predicate IsSet(env: Environment, name: string) {
    name in env && env[name] != ""
  }

  /** `names.filter((name) => !process.env[name])`. */
  function Missing(env: Environment, names: seq<string>): (missing: seq<string>)
    ensures |missing| <= |names|
    ensures forall n :: n in missing <==> n in names && !IsSet(env, n)
    decreases |names|
  {
    if names == [] then []
    else (if IsSet(env, names[0]) then [] else [names[0]]) + Missing(env, names[1..])
  }

  /** `validateEnvironmentVariables()`: passes, or fails with the list of the
      required variables that are not set. */
  function ValidateEnvironmentVariables(env: Environment): (r: Outcome<string>)
    ensures r.Pass? <==> IsSet(env, ApiKeyVar) && IsSet(env, BlobTokenVar)
  {
    var missing := Missing(env, RequiredEnvVars);
    MissingInOrder(env);
    if |missing| > 0 then Fail(MissingVarsPrefix + Strings.Join(missing, NameSeparator))
    else Pass
  }

  /** `getEnvVar(key)`: the value of a set variable, or an error naming it. */
  function GetEnvVar(env: Environment, key: string): (r: Result<string, string>)
    ensures r.Success? <==> IsSet(env, key)
    ensures r.Success? ==> r.value == env[key] && r.value != ""
    ensures r.Failure? ==> r.error == "Environment variable " + key + " is not defined"
  {
    if !IsSet(env, key) then Failure("Environment variable " + key + " is not defined")
    else Success(env[key])
  }

  /** `isDebugMode`. */
  predicate IsDebugMode(env: Environment) {
    DebugVar in env && env[DebugVar] == "true"
  }

  /** The missing variables are listed in the order of the required list,
      the API key first. */
  lemma MissingInOrder(env: Environment)
    ensures Missing(env, RequiredEnvVars) ==
      (if IsSet(env, ApiKeyVar) then [] else [ApiKeyVar]) +
      (if IsSet(env, BlobTokenVar) then [] else [BlobTokenVar])
  {
    assert RequiredEnvVars[1..] == [BlobTokenVar];
    assert RequiredEnvVars[1..][1..] == [];
  }

  /** The failure message names exactly the missing variables: what follows
      the fixed prefix splits on `", "` into the missing list. */
  lemma MessageNamesMissing(env: Environment)
    requires ValidateEnvironmentVariables(env).Fail?
    ensures var msg := ValidateEnvironmentVariables(env).error;
      |msg| > |MissingVarsPrefix| && msg[..|MissingVarsPrefix|] == MissingVarsPrefix &&
      Strings.SplitOn(msg[|MissingVarsPrefix|..], NameSeparator) == Missing(env, RequiredEnvVars)
  {
    var missing := Missing(env, RequiredEnvVars);
    var text := Strings.Join(missing, NameSeparator);
    assert ValidateEnvironmentVariables(env).error == MissingVarsPrefix + text;
    assert Strings.SplitOn(text, NameSeparator) == missing && text != "" by {
      MissingNamesPlain(env);
      Strings.SplitJoin(missing, NameSeparator);
    }
    PrefixedText(MissingVarsPrefix, text);
  }

  /** The missing names hold no comma, and their list joins to a non-empty
      text when validation fails. */
  lemma MissingNamesPlain(env: Environment)
    requires ValidateEnvironmentVariables(env).Fail?
    ensures var missing := Missing(env, RequiredEnvVars);
      |missing| >= 1 && Strings.Join(missing, NameSeparator) != "" &&
      forall i :: 0 <= i < |missing| ==> ',' !in missing[i]
  {
    MissingInOrder(env);
    assert ',' !in ApiKeyVar && ',' !in BlobTokenVar;
    var missing := Missing(env, RequiredEnvVars);
    assert missing[0] != "";
    assert |Strings.Join(missing, NameSeparator)| >= |missing[0]|;
  }

  /** What follows a prefix is the rest of the text. */
  lemma PrefixedText(prefix: string, text: string)
    requires text != ""
    ensures var msg := prefix + text;
      |msg| > |prefix| && msg[..|prefix|] == prefix && msg[|prefix|..] == text
  {
  }

  /** When both variables are missing, the message names both in order. */
  lemma BothMissingMessage(env: Environment)
    requires !IsSet(env, ApiKeyVar) && !IsSet(env, BlobTokenVar)
    ensures ValidateEnvironmentVariables(env) ==
      Fail(MissingVarsPrefix + ApiKeyVar + NameSeparator + BlobTokenVar)
  {
    MissingInOrder(env);
    assert Missing(env, RequiredEnvVars) == [ApiKeyVar, BlobTokenVar];
    assert [ApiKeyVar, BlobTokenVar][1..] == [BlobTokenVar];
    assert Strings.Join([ApiKeyVar, BlobTokenVar], NameSeparator) == ApiKeyVar + NameSeparator + BlobTokenVar;
    assert MissingVarsPrefix + (ApiKeyVar + NameSeparator + BlobTokenVar) ==
      MissingVarsPrefix + ApiKeyVar + NameSeparator + BlobTokenVar;
  }

  /** The debug flag is never required: whatever it holds, validation gives
      the same outcome. */
  lemma DebugNeverRequired(env: Environment, value: string)
    ensures DebugVar !in RequiredEnvVars
    ensures ValidateEnvironmentVariables(env[DebugVar := value]) == ValidateEnvironmentVariables(env)
  {
    MissingInOrder(env);
    MissingInOrder(env[DebugVar := value]);
  }

  /** A successful validation guarantees that the API key can be read. */
  lemma ValidatedKeyReadable(env: Environment)
    requires ValidateEnvironmentVariables(env).Pass?
    ensures GetEnvVar(env, ApiKeyVar) == Success(env[ApiKeyVar])
  {
  }

  /** Debug mode needs the exact text `true`: any other value, including
      `TRUE` or `1`, leaves it off. */
  lemma DebugModeExact(env: Environment, value: string)
    ensures IsDebugMode(env[DebugVar := value]) <==> value == "true"
    ensures IsDebugMode(env) ==> IsSet(env, DebugVar)
  {
  }
}

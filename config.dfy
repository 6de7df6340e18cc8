/** The application's configuration: reading a `.env` file into the process
    environment, building the configuration from the environment, and checking it.
    The environment is a map from variable names to values; the file is its list of
    lines, or `None` when there is no file. */
module Configs {
  import opened Wrappers
  import opened Text

  datatype AppConfig = AppConfig(name: string, version: string, debug: bool, environment: string)
  datatype DatabaseConfig = DatabaseConfig(url: string, key: string, serviceRoleKey: Option<string>)
  datatype UIConfig = UIConfig(themeMode: string, windowWidth: int, windowHeight: int,
                               windowResizable: bool, preventClose: bool)
  datatype Config = Config(app: AppConfig, database: DatabaseConfig, ui: UIConfig)

  /** The `ValueError`s the configuration code raises: a missing required variable, a
      window size that `int()` rejects, and a failed validation. */
  datatype ConfigError =
    | MissingVariable(message: string)
    | NotAnInteger(text: string)
    | Invalid(message: string)

  const UrlRequired: string := "SUPABASE_URL environment variable is required"
  const KeyRequired: string := "SUPABASE_ANON_KEY environment variable is required"
  const UrlInvalid: string := "Database URL must be a valid HTTP/HTTPS URL"
  const KeyInvalid: string := "Database key appears to be invalid"
  const WindowTooSmall: string := "Window dimensions must be at least 320x480"

  /** The value part of a line: stripped, then every leading and trailing `"`, then
      every leading and trailing `'`. */
  function Unquote(v: string): string {
    StripChar(StripChar(Strip(v), '"'), '\'')
  }

  lemma StripKeeps(s: string, c: char)
    requires c !in s
    ensures c !in Strip(s)
  {
    var a := TrimStart(s, IsSpace);
    var b := TrimEnd(a, IsSpace);
    assert forall i :: 0 <= i < |b| ==> b[i] == a[i] && a[i] == s[|s| - |a| + i];
  }

  /** One line as `_load_env_file` reads it: `None` for a blank line, a comment or a
      line without `=`; otherwise the key and the value, split at the first `=`. The
      key never contains `=`; the value may. */
  function ParseEnvLine(line: string): (r: Option<(string, string)>)
    ensures r.None? <==> var t := Strip(line); t == "" || StartsWith(t, "#") || '=' !in t
    ensures r.Some? ==> '=' !in r.value.0
  {
    var t := Strip(line);
    if t == "" || StartsWith(t, "#") then None
    else match IndexOf(t, '=')
      case None => None
      case Some(i) =>
        StripKeeps(t[..i], '=');
        Some((Strip(t[..i]), Unquote(t[i + 1..])))
  }

  /** A parsed line is split at its first `=`: the key is the stripped text before
      it, the value the unquoted text after it. */
  lemma ParseEnvLineSplits(line: string)
    requires ParseEnvLine(line).Some?
    ensures var t := Strip(line);
            exists i :: 0 <= i < |t| && t[i] == '=' && '=' !in t[..i] &&
                        ParseEnvLine(line).value == (Strip(t[..i]), Unquote(t[i + 1..]))
  {
    var t := Strip(line);
    var i := IndexOf(t, '=').value;
    assert t[i] == '=' && '=' !in t[..i];
  }

  /** A value with no whitespace or quote at either end is kept as it is. */
  lemma UnquotePlain(v: string)
    requires v != [] && !IsSpace(v[0]) && !IsSpace(v[|v| - 1])
    requires v[0] !in "\"'" && v[|v| - 1] !in "\"'"
    ensures Unquote(v) == v
  {
    StripUnpadded(v);
    StripCharUnpadded(v, '"');
    StripCharUnpadded(v, '\'');
  }

  lemma HashPrefix(s: string)
    requires s != []
    ensures StartsWith(s, "#") <==> s[0] == '#'
  {
    assert s[..1] == [s[0]];
  }

  /** `KEY=value` sets `KEY` to the unquoted value, whatever `=` the value holds:
      only the first `=` splits. */
  lemma ValueKeepsLaterEquals(key: string, value: string)
    requires key != [] && !IsSpace(key[0]) && key[0] != '#' && '=' !in key
    requires value == [] || !IsSpace(value[|value| - 1])
    ensures ParseEnvLine(key + "=" + value) == Some((Strip(key), Unquote(value)))
  {
    var line := key + "=" + value;
    assert line[0] == key[0];
    assert !IsSpace(line[|line| - 1]);
    StripUnpadded(line);
    HashPrefix(line);
    assert line[..|key|] == key && line[|key|] == '=' && line[|key| + 1..] == value;
    IndexOfFirst(line, '=', |key|);
    ParsedAt(line, line, |key|);
  }

  lemma IndexOfFirst(s: string, c: char, i: nat)
    requires i < |s| && s[i] == c && c !in s[..i]
    ensures IndexOf(s, c) == Some(i)
  {
  }

  lemma ParsedAt(line: string, t: string, i: nat)
    requires Strip(line) == t && t != "" && !StartsWith(t, "#") && IndexOf(t, '=') == Some(i)
    ensures ParseEnvLine(line) == Some((Strip(t[..i]), Unquote(t[i + 1..])))
  {
  }

  /** A line starting with `#` is a comment and is skipped, whatever `=` it holds. */
  lemma CommentIsSkipped(rest: string)
    ensures ParseEnvLine("#" + rest) == None
  {
    var line := "#" + rest;
    assert line[0] == '#';
    StripKeepsFirst(line);
    HashPrefix(Strip(line));
  }

  /** `os.getenv(key, default)`. */
  function GetenvOr(env: map<string, string>, key: string, default: string): (r: string)
    ensures key in env ==> r == env[key]
    ensures key !in env ==> r == default
  {
    if key in env then env[key] else default
  }

  /** `if key and not os.getenv(key): os.environ[key] = value`. */
  function SetIfUnset(env: map<string, string>, key: string, value: string): (r: map<string, string>)
    ensures env.Keys <= r.Keys
    ensures forall k :: k in env && env[k] != "" ==> r[k] == env[k]
    ensures key != "" && !TruthyText(MapGet(env, key)) ==> r == env[key := value]
    ensures key == "" || TruthyText(MapGet(env, key)) ==> r == env
  {
    if key != "" && !TruthyText(MapGet(env, key)) then env[key := value] else env
  }

  /** The effect of one line on the environment: a parsed line with a non-empty key
      sets that variable, but only when it is unset or empty. */
  function ApplyLine(env: map<string, string>, line: string): (r: map<string, string>)
    ensures env.Keys <= r.Keys
    ensures forall k :: k in env && env[k] != "" ==> r[k] == env[k]
    ensures ParseEnvLine(line).None? ==> r == env
    ensures ParseEnvLine(line).Some? ==>
              r == SetIfUnset(env, ParseEnvLine(line).value.0, ParseEnvLine(line).value.1)
  {
    match ParseEnvLine(line)
    case None => env
    case Some((key, value)) => SetIfUnset(env, key, value)
  }

  /** The two branches of one line, as `_load_env_file` takes them. */
  lemma ApplyLineCases(env: map<string, string>, line: string)
    ensures ApplyLine(env, line) ==
            match ParseEnvLine(line)
            case None => env
            case Some((key, value)) =>
              if key != "" && !TruthyText(MapGet(env, key)) then env[key := value] else env
  {
  }

  /** The environment after reading the lines in order. */
  function ApplyLines(env: map<string, string>, lines: seq<string>): map<string, string> {
    if lines == [] then env else ApplyLine(ApplyLines(env, lines[..|lines| - 1]), lines[|lines| - 1])
  }

  lemma ApplyLinesStep(env: map<string, string>, lines: seq<string>, i: int)
    requires 0 <= i < |lines|
    ensures ApplyLines(env, lines[..i + 1]) == ApplyLine(ApplyLines(env, lines[..i]), lines[i])
  {
    assert lines[..i + 1][..i] == lines[..i];
  }

  /** Reading a file never removes a variable and never overwrites one that already
      has a non-empty value. */
  lemma {:induction false} NeverOverwrites(env: map<string, string>, lines: seq<string>)
    ensures env.Keys <= ApplyLines(env, lines).Keys
    ensures forall k :: k in env && env[k] != "" ==> ApplyLines(env, lines)[k] == env[k]
  {
    if lines != [] {
      NeverOverwrites(env, lines[..|lines| - 1]);
    }
  }

  /** A variable set once by the file keeps its first non-empty value. */
  lemma {:induction false} FirstValueWins(env: map<string, string>, lines: seq<string>, n: int)
    requires 0 <= n <= |lines|
    ensures var before := ApplyLines(env, lines[..n]);
            forall k :: k in before && before[k] != "" ==>
              k in ApplyLines(env, lines) && ApplyLines(env, lines)[k] == before[k]
    decreases |lines|
  {
    if n < |lines| {
      var init := lines[..|lines| - 1];
      assert init[..n] == lines[..n];
      FirstValueWins(env, init, n);
    } else {
      assert lines[..n] == lines;
    }
  }

  /** The configuration `from_environment` builds from the environment, after its
      required-variable checks and the two `int()` conversions. */
  function ConfigFrom(env: map<string, string>): (r: Result<Config, ConfigError>)
    ensures !TruthyText(MapGet(env, "SUPABASE_URL")) ==> r == Failure(MissingVariable(UrlRequired))
    ensures TruthyText(MapGet(env, "SUPABASE_URL")) && !TruthyText(MapGet(env, "SUPABASE_ANON_KEY")) ==>
              r == Failure(MissingVariable(KeyRequired))
    ensures r.Success? <==>
              TruthyText(MapGet(env, "SUPABASE_URL")) && TruthyText(MapGet(env, "SUPABASE_ANON_KEY")) &&
              ParseInt(GetenvOr(env, "WINDOW_WIDTH", "390")).Some? &&
              ParseInt(GetenvOr(env, "WINDOW_HEIGHT", "844")).Some?
    ensures r.Success? ==>
              r.value.database.url == env["SUPABASE_URL"] && r.value.database.key == env["SUPABASE_ANON_KEY"]
    ensures r.Success? ==> (r.value.app.debug <==> Lower(GetenvOr(env, "DEBUG", "false")) == "true")
    ensures r.Success? && "DEBUG" !in env ==> !r.value.app.debug
  {
    var url := MapGet(env, "SUPABASE_URL");
    var key := MapGet(env, "SUPABASE_ANON_KEY");
    if !TruthyText(url) then Failure(MissingVariable(UrlRequired))
    else if !TruthyText(key) then Failure(MissingVariable(KeyRequired))
    else
      var widthText, heightText := GetenvOr(env, "WINDOW_WIDTH", "390"), GetenvOr(env, "WINDOW_HEIGHT", "844");
      match (ParseInt(widthText), ParseInt(heightText))
      case (None, _) => Failure(NotAnInteger(widthText))
      case (Some(_), None) => Failure(NotAnInteger(heightText))
      case (Some(width), Some(height)) =>
        assert Lower("false") != "true";
        Success(Config(
          AppConfig(GetenvOr(env, "APP_NAME", "Spendio"), GetenvOr(env, "APP_VERSION", "0.3.0"),
                    Lower(GetenvOr(env, "DEBUG", "false")) == "true",
                    GetenvOr(env, "ENVIRONMENT", "production")),
          DatabaseConfig(url.value, key.value, MapGet(env, "SUPABASE_SERVICE_ROLE_KEY")),
          UIConfig(GetenvOr(env, "THEME_MODE", "dark"), width, height,
                   Lower(GetenvOr(env, "WINDOW_RESIZABLE", "true")) == "true",
                   Lower(GetenvOr(env, "PREVENT_CLOSE", "true")) == "true")))
  }

  /** `validate`: the first failed check's message, or `None` when the configuration
      passes: an `http://` or `https://` URL, a key of at least 10 characters, and a
      window of at least 320 by 480. */
  function Validate(c: Config): (r: Option<ConfigError>)
    ensures r.None? <==>
              (StartsWith(c.database.url, "http://") || StartsWith(c.database.url, "https://")) &&
              |c.database.key| >= 10 && c.ui.windowWidth >= 320 && c.ui.windowHeight >= 480
    ensures !StartsWith(c.database.url, "http://") && !StartsWith(c.database.url, "https://") ==>
              r == Some(Invalid(UrlInvalid))
    ensures r.Some? ==> r.value.Invalid?
  {
    if !(StartsWith(c.database.url, "http://") || StartsWith(c.database.url, "https://")) then
      Some(Invalid(UrlInvalid))
    else if |c.database.key| < 10 then Some(Invalid(KeyInvalid))
    else if c.ui.windowWidth < 320 || c.ui.windowHeight < 480 then Some(Invalid(WindowTooSmall))
    else None
  }

  /** The window-size defaults are integers `int()` accepts. */
  lemma DefaultSizesParse()
    ensures ParseInt("390") == Some(390) && ParseInt("844") == Some(844)
  {
    assert IntToString(390) == "390" by {
      assert NatToString(390) == NatToString(39) + [DigitChar(0)];
    }
    assert IntToString(844) == "844" by {
      assert NatToString(844) == NatToString(84) + [DigitChar(4)];
    }
    ParseIntToString(390);
    ParseIntToString(844);
  }

  /** Without the optional variables the defaults apply, and a well-formed URL and key
      pass validation. */
  lemma DefaultsValidate(env: map<string, string>)
    requires "SUPABASE_URL" in env && StartsWith(env["SUPABASE_URL"], "https://")
    requires "SUPABASE_ANON_KEY" in env && |env["SUPABASE_ANON_KEY"]| >= 10
    requires "WINDOW_WIDTH" !in env && "WINDOW_HEIGHT" !in env
    requires "DEBUG" !in env && "ENVIRONMENT" !in env
    ensures var r := ConfigFrom(env);
            r.Success? && r.value.ui.windowWidth == 390 && r.value.ui.windowHeight == 844 &&
            !r.value.app.debug && r.value.app.environment == "production" &&
            Validate(r.value).None?
  {
    DefaultSizesParse();
  }

  predicate IsDevelopment(c: Config) {
    Lower(c.app.environment) in {"development", "dev", "local"}
  }

  predicate IsProduction(c: Config) {
    Lower(c.app.environment) in {"production", "prod"}
  }

  /** No environment name is both a development and a production one. */
  lemma NeverBoth(c: Config)
    ensures !(IsDevelopment(c) && IsProduction(c))
  {
  }

  /** The process environment that `_load_env_file` writes into. */
  class Environment {
    var vars: map<string, string>

    constructor (initial: map<string, string>)
      ensures vars == initial
    {
      vars := initial;
    }

    /** `_load_env_file`: applies the file's lines in order. */
    method LoadEnvFile(lines: seq<string>)
      modifies this
      ensures vars == ApplyLines(old(vars), lines)
    {
      var i := 0;
      while i < |lines|
        invariant 0 <= i <= |lines|
        invariant vars == ApplyLines(old(vars), lines[..i])
      {
        ApplyLinesStep(old(vars), lines, i);
        ApplyLineCases(vars, lines[i]);
        ghost var next := ApplyLine(vars, lines[i]);
        var parsed := ParseEnvLine(lines[i]);
        if parsed.Some? {
          var key, value := parsed.value.0, parsed.value.1;
          if key != "" && !TruthyText(MapGet(vars, key)) {
            vars := vars[key := value];
          }
        }
        assert vars == next;
        i := i + 1;
      }
      assert lines[..i] == lines;
    }

    /** `from_environment`: loads the file when there is one, then builds the
        configuration from the environment. */
    method FromEnvironment(envFile: Option<seq<string>>) returns (r: Result<Config, ConfigError>)
      modifies this
      ensures vars == (if envFile.Some? then ApplyLines(old(vars), envFile.value) else old(vars))
      ensures r == ConfigFrom(vars)
    {
      if envFile.Some? {
        LoadEnvFile(envFile.value);
      }
      r := ConfigFrom(vars);
    }
  }
}

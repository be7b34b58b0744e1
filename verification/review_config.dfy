/** The immutable run configuration and its construction from the
    environment (`ReviewConfig.fromEnvironment`). */
module Config {
  import opened Results
  import opened Text
  import opened Numbers

  /** The process environment: `System.getenv(k)` is null exactly when `k` is not a key. */
  type Env = map<string, string>

  const DefaultModel: string := "claude-sonnet-4-5-20250929"
  const DefaultLanguage: string := "ko"
  const DefaultExtensions: seq<string> := [".java", ".kt", ".xml", ".gradle"]
  const DefaultMaxTokens: Int32 := 2000
  /** The comma-separated form the environment variable and the facade's builder default to. */
  const DefaultExtensionsText: string := ".java,.kt,.xml,.gradle"
  const DefaultMaxTokensText: string := "2000"

  /** The names `fromEnvironment` requires, in the order it reads them. */
  const RequiredKeys: seq<string> := ["GITHUB_TOKEN", "ANTHROPIC_API_KEY", "PR_NUMBER", "REPO_NAME"]

  datatype ReviewConfig = ReviewConfig(
    githubToken: string,
    anthropicApiKey: string,
    prNumber: Int32,
    repoName: string,
    /** The Gitea base URL; null selects GitHub. */
    giteaUrl: Option<string>,
    model: string,
    language: string,
    fileExtensions: seq<string>,
    maxTokens: Int32)

  /** `ReviewConfig.isGitea`. */
  predicate IsGitea(config: ReviewConfig) {
    config.giteaUrl.Some? && config.giteaUrl.value != ""
  }

  /** `System.getenv(key)`. */
  function GetEnv(env: Env, key: string): (r: Option<string>)
    ensures r.Some? <==> key in env
    ensures r.Some? ==> r.value == env[key]
  {
    if key in env then Some(env[key]) else None
  }

  /** The variable is set to a non-empty value. */
  predicate Present(env: Env, key: string) {
    key in env && env[key] != ""
  }

  /** `getRequiredEnv`: fails naming `key` unless it is present and non-empty. */
  function RequiredEnv(env: Env, key: string): (r: Result<string>)
    ensures r.Ok? <==> Present(env, key)
    ensures r.Ok? ==> r.value == env[key]
    ensures r.Err? ==> r.error == ConfigError("Required environment variable not found: " + key)
  {
    var value := GetEnv(env, key);
    if value.None? || value.value == "" then
      Err(ConfigError("Required environment variable not found: " + key))
    else
      Ok(value.value)
  }

  /** `getEnvOrDefault`: the value when present and non-empty, else the (possibly null) default. */
  function EnvOrDefault(env: Env, key: string, default: Option<string>): (r: Option<string>)
    ensures Present(env, key) ==> r == Some(env[key])
    ensures !Present(env, key) ==> r == default
  {
    var value := GetEnv(env, key);
    if value.Some? && value.value != "" then value else default
  }

  /** `getEnvOrDefault` with a non-null default never yields null. */
  function EnvOr(env: Env, key: string, default: string): (r: string)
    ensures r == if Present(env, key) then env[key] else default
  {
    EnvOrDefault(env, key, Some(default)).value
  }

  /** Every variable of `RequiredKeys` is set and non-empty. */
  predicate RequiredPresent(env: Env) {
    && Present(env, "GITHUB_TOKEN") && Present(env, "ANTHROPIC_API_KEY")
    && Present(env, "PR_NUMBER") && Present(env, "REPO_NAME")
  }

  /** The text of the token budget `fromEnvironment` parses. */
  function MaxTokensText(env: Env): (r: string) {
    EnvOr(env, "MAX_TOKENS", DefaultMaxTokensText)
  }

  /** `ReviewConfig.fromEnvironment`. Reads the required variables in the
      order of `RequiredKeys`, parsing PR_NUMBER as soon as it is read, then
      the optional ones; MAX_TOKENS is parsed last. */
  function FromEnvironment(env: Env): (r: Result<ReviewConfig>)
    ensures r.Ok? <==>
      && RequiredPresent(env)
      && ParseInt(env["PR_NUMBER"]).Ok?
      && ParseInt(MaxTokensText(env)).Ok?
    ensures r.Ok? ==>
      && r.value.githubToken == env["GITHUB_TOKEN"] && r.value.githubToken != ""
      && r.value.anthropicApiKey == env["ANTHROPIC_API_KEY"] && r.value.anthropicApiKey != ""
      && r.value.repoName == env["REPO_NAME"] && r.value.repoName != ""
      && Ok(r.value.prNumber) == ParseInt(env["PR_NUMBER"])
    ensures r.Ok? ==> (IsGitea(r.value) <==> Present(env, "GITEA_URL"))
    ensures r.Ok? ==>
      && r.value.giteaUrl == EnvOrDefault(env, "GITEA_URL", None)
      && r.value.model == EnvOr(env, "MODEL", DefaultModel)
      && r.value.language == EnvOr(env, "LANGUAGE", DefaultLanguage)
      && r.value.fileExtensions == JavaSplit(EnvOr(env, "FILE_EXTENSIONS", DefaultExtensionsText), ',')
      && Ok(r.value.maxTokens) == ParseInt(MaxTokensText(env))
    ensures (Present(env, "GITHUB_TOKEN") && Present(env, "ANTHROPIC_API_KEY") && Present(env, "PR_NUMBER")
             && ParseInt(env["PR_NUMBER"]).Err?) ==> r == Err(ParseInt(env["PR_NUMBER"]).error)
    ensures RequiredPresent(env) && ParseInt(env["PR_NUMBER"]).Ok? && ParseInt(MaxTokensText(env)).Err? ==>
      r == Err(ParseInt(MaxTokensText(env)).error)
  {
    var token := RequiredEnv(env, "GITHUB_TOKEN");
    var apiKey := RequiredEnv(env, "ANTHROPIC_API_KEY");
    var prText := RequiredEnv(env, "PR_NUMBER");
    var repoName := RequiredEnv(env, "REPO_NAME");
    if token.Err? then Err(token.error)
    else if apiKey.Err? then Err(apiKey.error)
    else if prText.Err? then Err(prText.error)
    else
      var prNumber := ParseInt(prText.value);
      if prNumber.Err? then Err(prNumber.error)
      else if repoName.Err? then Err(repoName.error)
      else
        var maxTokens := ParseInt(MaxTokensText(env));
        if maxTokens.Err? then Err(maxTokens.error)
        else
          var giteaUrl := EnvOrDefault(env, "GITEA_URL", None);
          var model := EnvOr(env, "MODEL", DefaultModel);
          var language := EnvOr(env, "LANGUAGE", DefaultLanguage);
          var fileExtensions := EnvOr(env, "FILE_EXTENSIONS", DefaultExtensionsText);
          Ok(ReviewConfig(token.value, apiKey.value, prNumber.value, repoName.value, giteaUrl,
                          model, language, JavaSplit(fileExtensions, ','), maxTokens.value))
  }

  /** The first required variable that is missing or empty is the one the
      error names (PR_NUMBER must parse before REPO_NAME is read). */
  lemma FromEnvironmentNamesFirstMissing(env: Env, i: nat)
    requires i < |RequiredKeys|
    requires forall j | 0 <= j < i :: Present(env, RequiredKeys[j])
    requires !Present(env, RequiredKeys[i])
    requires i == 3 ==> "PR_NUMBER" in env && ParseInt(env["PR_NUMBER"]).Ok?
    ensures FromEnvironment(env) == Err(ConfigError("Required environment variable not found: " + RequiredKeys[i]))
  {
    if i == 3 {
      assert Present(env, RequiredKeys[0]) && Present(env, RequiredKeys[1]) && Present(env, RequiredKeys[2]);
    } else if i == 2 {
      assert Present(env, RequiredKeys[0]) && Present(env, RequiredKeys[1]);
    } else if i == 1 {
      assert Present(env, RequiredKeys[0]);
    }
  }

  /** The default extension text, piece by piece. */
  lemma DefaultExtensionsTextPieces()
    ensures ".java" + [','] + (".kt" + [','] + (".xml" + [','] + ".gradle")) == DefaultExtensionsText
  {
  }

  /** The default extension text splits into exactly the default extension list. */
  lemma DefaultExtensionsAgree()
    ensures JavaSplit(DefaultExtensionsText, ',') == DefaultExtensions
  {
    var fields := DefaultExtensions;
    assert forall k | 0 <= k < |fields| :: ',' !in fields[k] by {
      assert ',' !in fields[0] && ',' !in fields[1] && ',' !in fields[2] && ',' !in fields[3];
    }
    var j3 := Join([".gradle"], ',');
    var j2 := Join([".xml", ".gradle"], ',');
    var j1 := Join([".kt", ".xml", ".gradle"], ',');
    assert j3 == ".gradle";
    assert [".xml", ".gradle"][1..] == [".gradle"];
    assert j2 == ".xml" + [','] + j3;
    assert [".kt", ".xml", ".gradle"][1..] == [".xml", ".gradle"];
    assert j1 == ".kt" + [','] + j2;
    assert fields[1..] == [".kt", ".xml", ".gradle"];
    assert Join(fields, ',') == ".java" + [','] + j1;
    DefaultExtensionsTextPieces();
    JavaSplitJoin(fields, ',');
  }

  /** The textual token-budget default parses to the numeric one. */
  lemma DefaultMaxTokensAgree()
    ensures ParseInt(DefaultMaxTokensText) == Ok(DefaultMaxTokens)
  {
    ParseIntToString(DefaultMaxTokens);
    assert IntToString(2000) == DefaultMaxTokensText by {
      assert Digits(2000) == Digits(200) + ['0'];
      assert Digits(200) == Digits(20) + ['0'];
      assert Digits(20) == Digits(2) + ['0'];
    }
  }

  /** With only the required variables set, every optional field takes its
      documented default and GitHub is selected. */
  lemma FromEnvironmentDefaults(env: Env)
    requires RequiredPresent(env)
    requires "PR_NUMBER" in env && ParseInt(env["PR_NUMBER"]).Ok?
    requires forall k | k in ["GITEA_URL", "MODEL", "LANGUAGE", "FILE_EXTENSIONS", "MAX_TOKENS"] :: !Present(env, k)
    ensures FromEnvironment(env).Ok?
    ensures FromEnvironment(env).value.model == DefaultModel
    ensures FromEnvironment(env).value.language == DefaultLanguage
    ensures FromEnvironment(env).value.fileExtensions == DefaultExtensions
    ensures FromEnvironment(env).value.maxTokens == DefaultMaxTokens
    ensures FromEnvironment(env).value.giteaUrl == None && !IsGitea(FromEnvironment(env).value)
  {
    DefaultExtensionsAgree();
    DefaultMaxTokensAgree();
    assert !Present(env, "MAX_TOKENS") && !Present(env, "FILE_EXTENSIONS") && !Present(env, "GITEA_URL");
    assert !Present(env, "MODEL") && !Present(env, "LANGUAGE");
  }

  /** `fromEnvironment` accepts a PR number of 0 (only the facade's builder rejects it). */
  lemma FromEnvironmentAcceptsZeroPr(env: Env)
    requires RequiredPresent(env)
    requires "PR_NUMBER" in env && env["PR_NUMBER"] == "0"
    requires ParseInt(MaxTokensText(env)).Ok?
    ensures FromEnvironment(env).Ok? && FromEnvironment(env).value.prNumber == 0
  {
    ParseIntToString(0);
    assert IntToString(0) == "0";
  }
}

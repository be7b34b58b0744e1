/** The library facade (`ClaudeReviewer`): a builder that completes its
    settings from the environment and validates them, and the operations a
    caller drives one at a time. */
module Reviewer {
  import opened Results
  import opened Text
  import opened Numbers
  import opened FileChanges
  import opened Config
  import Claude
  import Platform
  import Orchestration
  import Factory

  /** What `reviewPullRequest` answers when there is nothing to review. */
  const NoFilesMessage: string := "리뷰할 파일이 없습니다."

  /** The builder's settings. A string left unset is `None`; an unset PR
      number is 0, as for a Java `int` field. */
  datatype Builder = Builder(
    githubToken: Option<string>,
    anthropicApiKey: Option<string>,
    prNumber: Int32,
    repoName: Option<string>,
    model: string,
    language: string,
    /** Comma-separated, split when the configuration is built. */
    fileExtensions: string,
    maxTokens: Int32)

  /** `ClaudeReviewer.builder()`: nothing required is set; the optional
      settings hold their defaults. */
  const NewBuilder: Builder :=
    Builder(None, None, 0, None, DefaultModel, DefaultLanguage, DefaultExtensionsText, DefaultMaxTokens)

  /** A setting the builder falls back to the environment for: the explicit
      value when one was set, even an empty one, else `System.getenv`. */
  function Resolve(explicit: Option<string>, env: Env, key: string): (r: Option<string>)
    ensures explicit.Some? ==> r == explicit
    ensures explicit.None? ==> (r.Some? <==> key in env)
    ensures explicit.None? && key in env ==> r == Some(env[key])
  {
    if explicit.Some? then explicit else GetEnv(env, key)
  }

  /** The PR number the builder ends up with: an explicit non-zero number is
      kept; 0 is replaced by PR_NUMBER when that is set, and a PR_NUMBER that
      does not parse fails the build at that point. */
  function ResolvePrNumber(explicit: Int32, env: Env): (r: Result<Int32>)
    ensures explicit != 0 ==> r == Ok(explicit)
    ensures explicit == 0 && "PR_NUMBER" !in env ==> r == Ok(0)
    ensures explicit == 0 && "PR_NUMBER" in env ==> r == ParseInt(env["PR_NUMBER"])
  {
    if explicit == 0 && "PR_NUMBER" in env then ParseInt(env["PR_NUMBER"]) else Ok(explicit)
  }

  /** A resolved string setting is usable: set and non-empty. */
  predicate Usable(v: Option<string>) {
    v.Some? && v.value != ""
  }

  /** The configuration `Builder.build` hands to the factory. Fallbacks come
      first, then the checks in the order token, API key, PR number,
      repository; the configuration never names a Gitea server. */
  function BuildConfig(b: Builder, env: Env): (r: Result<ReviewConfig>)
    ensures r.Ok? <==>
      && Usable(Resolve(b.githubToken, env, "GITHUB_TOKEN"))
      && Usable(Resolve(b.anthropicApiKey, env, "ANTHROPIC_API_KEY"))
      && ResolvePrNumber(b.prNumber, env).Ok? && ResolvePrNumber(b.prNumber, env).value != 0
      && Usable(Resolve(b.repoName, env, "REPO_NAME"))
    ensures ResolvePrNumber(b.prNumber, env).Err? ==> r == Err(ResolvePrNumber(b.prNumber, env).error)
    ensures r.Ok? ==> Some(r.value.githubToken) == Resolve(b.githubToken, env, "GITHUB_TOKEN")
    ensures r.Ok? ==> Some(r.value.anthropicApiKey) == Resolve(b.anthropicApiKey, env, "ANTHROPIC_API_KEY")
    ensures r.Ok? ==> Some(r.value.repoName) == Resolve(b.repoName, env, "REPO_NAME")
    ensures r.Ok? ==> Ok(r.value.prNumber) == ResolvePrNumber(b.prNumber, env)
    ensures r.Ok? ==> r.value.giteaUrl.None? && !IsGitea(r.value)
    ensures r.Ok? ==> r.value.prNumber != 0
    ensures r.Ok? && b.githubToken.Some? ==> r.value.githubToken == b.githubToken.value
    ensures r.Ok? && b.anthropicApiKey.Some? ==> r.value.anthropicApiKey == b.anthropicApiKey.value
    ensures r.Ok? && b.repoName.Some? ==> r.value.repoName == b.repoName.value
    ensures r.Ok? && b.prNumber != 0 ==> r.value.prNumber == b.prNumber
    ensures r.Ok? ==> r.value.model == b.model && r.value.language == b.language
    ensures r.Ok? ==> r.value.maxTokens == b.maxTokens
    ensures r.Ok? ==> r.value.fileExtensions == JavaSplit(b.fileExtensions, ',')
    ensures b.githubToken == Some("") || b.anthropicApiKey == Some("") || b.repoName == Some("") ==> r.Err?
  {
    var token := Resolve(b.githubToken, env, "GITHUB_TOKEN");
    var apiKey := Resolve(b.anthropicApiKey, env, "ANTHROPIC_API_KEY");
    var prNumber := ResolvePrNumber(b.prNumber, env);
    if prNumber.Err? then Err(prNumber.error)
    else
      var repoName := Resolve(b.repoName, env, "REPO_NAME");
      if !Usable(token) then Err(ConfigError("GitHub token is required"))
      else if !Usable(apiKey) then Err(ConfigError("Anthropic API key is required"))
      else if prNumber.value == 0 then Err(ConfigError("PR number is required"))
      else if !Usable(repoName) then Err(ConfigError("Repository name is required"))
      else
        Ok(ReviewConfig(token.value, apiKey.value, prNumber.value, repoName.value, None,
                        b.model, b.language, JavaSplit(b.fileExtensions, ','), b.maxTokens))
  }

  /** The first failing check names the error; a PR_NUMBER that does not
      parse fails before any check. */
  lemma BuildConfigErrorOrder(b: Builder, env: Env)
    requires ResolvePrNumber(b.prNumber, env).Ok?
    ensures !Usable(Resolve(b.githubToken, env, "GITHUB_TOKEN")) ==>
      BuildConfig(b, env) == Err(ConfigError("GitHub token is required"))
    ensures (Usable(Resolve(b.githubToken, env, "GITHUB_TOKEN"))
             && !Usable(Resolve(b.anthropicApiKey, env, "ANTHROPIC_API_KEY"))) ==>
      BuildConfig(b, env) == Err(ConfigError("Anthropic API key is required"))
    ensures (Usable(Resolve(b.githubToken, env, "GITHUB_TOKEN"))
             && Usable(Resolve(b.anthropicApiKey, env, "ANTHROPIC_API_KEY"))
             && ResolvePrNumber(b.prNumber, env).value == 0) ==>
      BuildConfig(b, env) == Err(ConfigError("PR number is required"))
    ensures (Usable(Resolve(b.githubToken, env, "GITHUB_TOKEN"))
             && Usable(Resolve(b.anthropicApiKey, env, "ANTHROPIC_API_KEY"))
             && ResolvePrNumber(b.prNumber, env).value != 0
             && !Usable(Resolve(b.repoName, env, "REPO_NAME"))) ==>
      BuildConfig(b, env) == Err(ConfigError("Repository name is required"))
  {
  }

  /** With nothing but the required settings in the environment, the default
      builder builds exactly the configuration `fromEnvironment` reads, as
      long as the PR number is not 0. */
  lemma DefaultBuilderAgreesWithEnvironment(env: Env)
    requires RequiredPresent(env)
    requires "PR_NUMBER" in env && ParseInt(env["PR_NUMBER"]).Ok? && ParseInt(env["PR_NUMBER"]).value != 0
    requires forall k | k in ["GITEA_URL", "MODEL", "LANGUAGE", "FILE_EXTENSIONS", "MAX_TOKENS"] :: !Present(env, k)
    ensures BuildConfig(NewBuilder, env) == FromEnvironment(env)
  {
    FromEnvironmentDefaults(env);
    DefaultExtensionsAgree();
    var c := FromEnvironment(env).value;
    assert c.githubToken == env["GITHUB_TOKEN"] && c.anthropicApiKey == env["ANTHROPIC_API_KEY"];
    assert c.repoName == env["REPO_NAME"] && Ok(c.prNumber) == ParseInt(env["PR_NUMBER"]);
  }

  /** Only 0 counts as a missing PR number: an explicit negative number
      passes every check and reaches the configuration. */
  lemma BuildAcceptsNegativePrNumber(env: Env)
    ensures var b := NewBuilder.(githubToken := Some("t"), anthropicApiKey := Some("k"),
                                 prNumber := -1, repoName := Some("o/r"));
      BuildConfig(b, env).Ok? && BuildConfig(b, env).value.prNumber == -1
  {
    var b := NewBuilder.(githubToken := Some("t"), anthropicApiKey := Some("k"),
                         prNumber := -1, repoName := Some("o/r"));
    assert Usable(Resolve(b.githubToken, env, "GITHUB_TOKEN"));
    assert Usable(Resolve(b.anthropicApiKey, env, "ANTHROPIC_API_KEY"));
    assert Usable(Resolve(b.repoName, env, "REPO_NAME"));
  }

  /** The facade's three clients, all created by one factory on one configuration. */
  datatype ClaudeReviewer = ClaudeReviewer(
    git: Platform.GitService, claude: Claude.ClaudeService, review: Orchestration.ReviewService)

  /** The review run uses the facade's own platform and completion clients. */
  ghost predicate Wired(cr: ClaudeReviewer) {
    cr.review.git == cr.git && cr.review.claude == cr.claude
  }

  /** The private constructor: a factory on the built configuration creates
      the platform client, the completion client and the review run. */
  function Create(config: ReviewConfig, p: Factory.Platforms): (cr: ClaudeReviewer)
    ensures cr.git.config == config && cr.claude.config == config
    ensures Wired(cr)
    ensures cr.git.GiteaService? <==> IsGitea(config)
  {
    ClaudeReviewer(Factory.CreateGitService(config, p), Factory.CreateClaudeService(config, p),
                   Factory.CreateReviewService(config, p))
  }

  /** `Builder.build`: a reviewer on the GitHub platform, or the first failure. */
  function Build(b: Builder, env: Env, p: Factory.Platforms): (r: Result<ClaudeReviewer>)
    ensures r.Ok? <==> BuildConfig(b, env).Ok?
    ensures r.Ok? ==> r.value.git.GitHubService? && r.value.git.api == p.github
    ensures r.Ok? ==> r.value.git.config == BuildConfig(b, env).value
  {
    match BuildConfig(b, env)
    case Err(e) => Err(e)
    case Ok(config) => Ok(Create(config, p))
  }

  /** `getChangedFiles`: one fetch. */
  function GetChangedFiles(cr: ClaudeReviewer): (r: Orchestration.Run<seq<FileChange>>)
    ensures r.effects == [Orchestration.Fetch]
    ensures r.outcome.Ok? ==> forall c | c in r.outcome.value :: c.MatchesExtensions(cr.git.config.fileExtensions)
    ensures r.outcome == Platform.GetChangedFiles(cr.git)
  {
    Orchestration.Run([Orchestration.Fetch], Platform.GetChangedFiles(cr.git))
  }

  /** The sequencing of `reviewPullRequest` over a fetched list and a
      completion step: an empty list is answered locally without a
      completion; otherwise the completion's result, unchanged. */
  function AnswerReview(fetched: Result<seq<FileChange>>, review: seq<FileChange> -> Result<string>)
    : (r: Orchestration.Run<string>)
    ensures fetched.Err? ==> r == Orchestration.Run([Orchestration.Fetch], Err(fetched.error))
    ensures fetched.Ok? && |fetched.value| == 0 ==> r == Orchestration.Run([Orchestration.Fetch], Ok(NoFilesMessage))
    ensures fetched.Ok? && |fetched.value| > 0 ==>
      r.effects == [Orchestration.Fetch, Orchestration.Complete(fetched.value)]
      && r.outcome == review(fetched.value)
  {
    match fetched
    case Err(e) => Orchestration.Run([Orchestration.Fetch], Err(e))
    case Ok(changes) =>
      if |changes| == 0 then Orchestration.Run([Orchestration.Fetch], Ok(NoFilesMessage))
      else Orchestration.Run([Orchestration.Fetch, Orchestration.Complete(changes)], review(changes))
  }

  /** `reviewPullRequest`, over the facade's platform and completion clients. */
  function ReviewPullRequest(cr: ClaudeReviewer): (r: Orchestration.Run<string>)
    ensures var fetched := Platform.GetChangedFiles(cr.git);
      fetched.Err? ==> r == Orchestration.Run([Orchestration.Fetch], Err(fetched.error))
    ensures var fetched := Platform.GetChangedFiles(cr.git);
      fetched.Ok? && |fetched.value| == 0 ==> r == Orchestration.Run([Orchestration.Fetch], Ok(NoFilesMessage))
    ensures var fetched := Platform.GetChangedFiles(cr.git);
      fetched.Ok? && |fetched.value| > 0 ==>
        r.effects == [Orchestration.Fetch, Orchestration.Complete(fetched.value)]
        && r.outcome == Claude.ReviewCode(cr.claude, fetched.value)
  {
    AnswerReview(Platform.GetChangedFiles(cr.git), Orchestration.ReviewStep(cr.claude))
  }

  /** The posting of `postReviewComment` over a posting step: one post of the
      bannered text, whose outcome is the run's. */
  function PostBannered(post: string -> Outcome, reviewComment: string): (r: Orchestration.Run<()>)
    ensures |r.effects| == 1 && r.effects[0].Post?
    ensures |r.effects[0].text| == |Orchestration.Banner| + |reviewComment|
    ensures r.effects[0].text[..|Orchestration.Banner|] == Orchestration.Banner
    ensures r.effects[0].text[|Orchestration.Banner|..] == reviewComment
    ensures r.outcome.Ok? <==> post(r.effects[0].text).Pass?
    ensures post(r.effects[0].text).Fail? ==> r.outcome == Err(post(r.effects[0].text).error)
  {
    var text := Orchestration.Comment(reviewComment);
    match post(text)
    case Fail(e) => Orchestration.Run([Orchestration.Post(text)], Err(e))
    case Pass => Orchestration.Run([Orchestration.Post(text)], Ok(()))
  }

  /** `postReviewComment`, over the facade's platform client. */
  function PostReviewComment(cr: ClaudeReviewer, reviewComment: string): (r: Orchestration.Run<()>)
    ensures |r.effects| == 1 && r.effects[0].Post?
    ensures |r.effects[0].text| == |Orchestration.Banner| + |reviewComment|
    ensures r.effects[0].text[..|Orchestration.Banner|] == Orchestration.Banner
    ensures r.effects[0].text[|Orchestration.Banner|..] == reviewComment
    ensures r.outcome.Ok? <==> Platform.PostComment(cr.git, r.effects[0].text).Pass?
    ensures Platform.PostComment(cr.git, r.effects[0].text).Fail? ==>
      r.outcome == Err(Platform.PostComment(cr.git, r.effects[0].text).error)
  {
    PostBannered(Orchestration.PostStep(cr.git), reviewComment)
  }

  /** `executeFullReview`: the review run the factory wired. */
  function ExecuteFullReview(cr: ClaudeReviewer): (r: Orchestration.Run<()>)
    ensures Orchestration.Protocol(r.effects)
    ensures |r.effects| >= 2 ==> Platform.GetChangedFiles(cr.review.git) == Ok(r.effects[1].changes)
  {
    Orchestration.ExecuteReview(cr.review)
  }

  /** Reviewing and then posting by hand performs exactly the effects of the
      review run and ends the same way, for any fetched non-empty list, any
      completion step that succeeds on it and any posting step. */
  lemma ByHandIsRunReview(changes: seq<FileChange>, review: seq<FileChange> -> Result<string>,
                          post: string -> Outcome)
    requires |changes| > 0 && review(changes).Ok?
    ensures AnswerReview(Ok(changes), review).outcome == review(changes)
    ensures AnswerReview(Ok(changes), review).effects + PostBannered(post, review(changes).value).effects
      == Orchestration.RunReview(Ok(changes), review, post).effects
    ensures PostBannered(post, review(changes).value).outcome == Orchestration.RunReview(Ok(changes), review, post).outcome
  {
    Orchestration.PostsBanneredReview(changes, review, post);
  }

  /** Driving the facade by hand, as its usage example does (review, then post
      the result), performs exactly the effects of `executeFullReview` and ends
      the same way, whenever there is something to review and the completion
      succeeds. */
  lemma ReviewThenPostIsFullReview(cr: ClaudeReviewer)
    requires Wired(cr)
    ensures var fetched := Platform.GetChangedFiles(cr.git);
      fetched.Ok? && |fetched.value| > 0 && Claude.ReviewCode(cr.claude, fetched.value).Ok? ==>
        var reviewText := Claude.ReviewCode(cr.claude, fetched.value).value;
        && ReviewPullRequest(cr).outcome == Ok(reviewText)
        && ReviewPullRequest(cr).effects + PostReviewComment(cr, reviewText).effects == ExecuteFullReview(cr).effects
        && PostReviewComment(cr, reviewText).outcome == ExecuteFullReview(cr).outcome
  {
    var fetched := Platform.GetChangedFiles(cr.git);
    var review, post := Orchestration.ReviewStep(cr.claude), Orchestration.PostStep(cr.git);
    if fetched.Ok? && |fetched.value| > 0 && Claude.ReviewCode(cr.claude, fetched.value).Ok? {
      var changes := fetched.value;
      assert review(changes) == Claude.ReviewCode(cr.claude, changes);
      ByHandIsRunReview(changes, review, post);
      assert ExecuteFullReview(cr) == Orchestration.RunReview(Ok(changes), review, post);
    }
  }

  /** With nothing to review the two ways part: `executeFullReview` posts
      nothing, while reviewing and then posting by hand posts the banner
      followed by the no-files message. */
  lemma EmptyListPartsTheTwoWays(cr: ClaudeReviewer)
    requires Wired(cr)
    requires Platform.GetChangedFiles(cr.git) == Ok([])
    ensures ExecuteFullReview(cr).effects == [Orchestration.Fetch]
    ensures ReviewPullRequest(cr).outcome == Ok(NoFilesMessage)
    ensures PostReviewComment(cr, NoFilesMessage).effects
      == [Orchestration.Post(Orchestration.Banner + NoFilesMessage)]
  {
  }
}

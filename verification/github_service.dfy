/** The GitHub platform client (`GitHubServiceImpl`). The GitHub SDK is an
    oracle: listing the files of a pull request and commenting on it. */
module GitHub {
  import opened Results
  import opened Numbers
  import opened FileChanges
  import opened Config

  datatype GitHubApi = GitHubApi(
    /** `getRepository(repo).getPullRequest(number).listFiles()`, with every failure on the way. */
    listFiles: (string, Int32) -> Result<seq<PlatformFile>>,
    /** `getRepository(repo).getPullRequest(number).comment(text)`. */
    comment: (string, Int32, string) -> Outcome)

  /** What the SDK lists for the configured pull request. */
  function Listed(config: ReviewConfig, api: GitHubApi): (r: Result<seq<PlatformFile>>) {
    api.listFiles(config.repoName, config.prNumber)
  }

  /** `getChangedFiles`: the listed files of the configured pull request,
      mapped and filtered by the configured extensions, in listing order. */
  function GetChangedFiles(config: ReviewConfig, api: GitHubApi): (r: Result<seq<FileChange>>)
    ensures r.Ok? <==> Listed(config, api).Ok?
    ensures r.Err? ==> r.error == Listed(config, api).error
    ensures r.Ok? ==> |r.value| <= |Listed(config, api).value|
    ensures r.Ok? ==> r.value == MapFilter(Listed(config, api).value, config.fileExtensions)
    ensures r.Ok? ==> forall c | c in r.value :: c.MatchesExtensions(config.fileExtensions)
    ensures r.Ok? ==> forall c | c in r.value ::
      exists i | 0 <= i < |Listed(config, api).value| :: c == ToFileChange(Listed(config, api).value[i])
    ensures r.Ok? ==> forall i | 0 <= i < |Listed(config, api).value| ::
      Matches(Listed(config, api).value[i].filename, config.fileExtensions) ==> ToFileChange(Listed(config, api).value[i]) in r.value
  {
    match Listed(config, api)
    case Err(e) => Err(e)
    case Ok(files) => Ok(MapFilter(files, config.fileExtensions))
  }

  /** `postComment`: the text reaches the configured pull request unchanged;
      the SDK's outcome is the outcome. */
  function PostComment(config: ReviewConfig, api: GitHubApi, text: string): (r: Outcome)
    ensures r == api.comment(config.repoName, config.prNumber, text)
  {
    api.comment(config.repoName, config.prNumber, text)
  }
}

/** The older GitHub client (`service/GitHubService.java`), which repeats the
    mapping and filtering of `GitHubServiceImpl` outside the platform interface. */
module LegacyGitHub {
  import opened Results
  import opened FileChanges
  import opened Config
  import GitHub

  /** `getChangedFiles`, as in the platform client. */
  function GetChangedFiles(config: ReviewConfig, api: GitHub.GitHubApi): (r: Result<seq<FileChange>>)
    ensures r.Ok? <==> GitHub.Listed(config, api).Ok?
    ensures r.Err? ==> r.error == GitHub.Listed(config, api).error
    ensures r.Ok? ==> |r.value| <= |GitHub.Listed(config, api).value|
    ensures r.Ok? ==> r.value == MapFilter(GitHub.Listed(config, api).value, config.fileExtensions)
    ensures r.Ok? ==> forall c | c in r.value :: c.MatchesExtensions(config.fileExtensions)
    ensures r.Ok? ==> forall c | c in r.value ::
      exists i | 0 <= i < |GitHub.Listed(config, api).value| :: c == ToFileChange(GitHub.Listed(config, api).value[i])
    ensures r.Ok? ==> forall i | 0 <= i < |GitHub.Listed(config, api).value| ::
      (Matches(GitHub.Listed(config, api).value[i].filename, config.fileExtensions) ==>
       ToFileChange(GitHub.Listed(config, api).value[i]) in r.value)
  {
    var listed := api.listFiles(config.repoName, config.prNumber);
    if listed.Err? then Err(listed.error) else Ok(MapFilter(listed.value, config.fileExtensions))
  }

  /** `postComment`, as in the platform client. */
  function PostComment(config: ReviewConfig, api: GitHub.GitHubApi, text: string): (r: Outcome)
    ensures r == api.comment(config.repoName, config.prNumber, text)
  {
    api.comment(config.repoName, config.prNumber, text)
  }

  /** The two GitHub clients behave identically on every configuration and SDK. */
  lemma AgreesWithGitHubServiceImpl(config: ReviewConfig, api: GitHub.GitHubApi, text: string)
    ensures GetChangedFiles(config, api) == GitHub.GetChangedFiles(config, api)
    ensures PostComment(config, api, text) == GitHub.PostComment(config, api, text)
  {
  }
}

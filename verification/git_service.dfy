/** The platform interface (`service/git/GitService.java`): one value per
    platform client, dispatched by variant. */
module Platform {
  import opened Results
  import opened FileChanges
  import opened Config
  import opened Http
  import GitHub
  import Gitea

  /** A platform client together with the configuration it was built from. */
  datatype GitService =
    | GitHubService(config: ReviewConfig, api: GitHub.GitHubApi)
    | GiteaService(config: ReviewConfig, transport: Transport)

  /** `GitService.getChangedFiles`: the variant's own client answers, so
      whichever platform, only files matching the configured extensions are
      returned, in listing order. */
  function GetChangedFiles(s: GitService): (r: Result<seq<FileChange>>)
    ensures r.Ok? ==> forall c | c in r.value :: c.MatchesExtensions(s.config.fileExtensions)
    ensures s.GitHubService? ==> (r.Ok? <==> GitHub.Listed(s.config, s.api).Ok?)
    ensures s.GiteaService? ==> (r.Ok? <==> Gitea.ListedFiles(Gitea.FilesResponse(s.config, s.transport)))
    ensures s.GitHubService? ==> r == GitHub.GetChangedFiles(s.config, s.api)
    ensures s.GiteaService? ==> r == Gitea.GetChangedFiles(s.config, s.transport)
  {
    match s
    case GitHubService(config, api) => GitHub.GetChangedFiles(config, api)
    case GiteaService(config, transport) => Gitea.GetChangedFiles(config, transport)
  }

  /** `GitService.postComment`: on GitHub the text reaches the SDK unchanged;
      on Gitea it is the `body` of the one POST. */
  function PostComment(s: GitService, text: string): (r: Outcome)
    ensures s.GitHubService? ==> r == s.api.comment(s.config.repoName, s.config.prNumber, text)
    ensures s.GiteaService? ==>
      (r.Pass? <==> s.transport(Gitea.CommentRequest(s.config, text)).Ok?
                    && IsSuccessful(s.transport(Gitea.CommentRequest(s.config, text)).value))
    ensures s.GiteaService? ==> r == Gitea.PostComment(s.config, s.transport, text)
  {
    match s
    case GitHubService(config, api) => GitHub.PostComment(config, api, text)
    case GiteaService(config, transport) => Gitea.PostComment(config, transport, text)
  }
}

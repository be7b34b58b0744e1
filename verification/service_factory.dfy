/** The dependency wiring (`ServiceFactory`): every service it creates shares
    the factory's one configuration. */
module Factory {
  import opened Config
  import opened Http
  import GitHub
  import Claude
  import Platform
  import Orchestration

  /** The external endpoints a factory can hand out: the GitHub SDK, the HTTP
      transport used for Gitea, and the completion endpoint. */
  datatype Platforms = Platforms(github: GitHub.GitHubApi, gitea: Transport, completion: Claude.Endpoint)

  /** `createGitService`: the Gitea client exactly when the configuration
      names a Gitea server, otherwise the GitHub client. */
  function CreateGitService(config: ReviewConfig, p: Platforms): (s: Platform.GitService)
    ensures s.config == config
    ensures s.GiteaService? <==> IsGitea(config)
    ensures s.GitHubService? <==> !IsGitea(config)
    ensures s.GiteaService? ==> s.transport == p.gitea
    ensures s.GitHubService? ==> s.api == p.github
  {
    if IsGitea(config) then Platform.GiteaService(config, p.gitea)
    else Platform.GitHubService(config, p.github)
  }

  /** `createClaudeService`. */
  function CreateClaudeService(config: ReviewConfig, p: Platforms): (s: Claude.ClaudeService)
    ensures s.config == config && s.endpoint == p.completion
  {
    Claude.ClaudeService(config, p.completion)
  }

  /** `createReviewService`: the same platform variant `createGitService`
      picks, and a completion client, both on the factory's configuration. */
  function CreateReviewService(config: ReviewConfig, p: Platforms): (s: Orchestration.ReviewService)
    ensures s.git.config == config && s.claude.config == config
    ensures s.git.GiteaService? <==> IsGitea(config)
    ensures s.git == CreateGitService(config, p) && s.claude == CreateClaudeService(config, p)
  {
    Orchestration.ReviewService(CreateGitService(config, p), CreateClaudeService(config, p))
  }
}

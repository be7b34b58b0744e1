/** The Gitea platform client (`GiteaServiceImpl`): two REST calls over an
    HTTP transport oracle. */
module Gitea {
  import opened Results
  import opened Numbers
  import opened Formatting
  import opened Json
  import opened Http
  import opened FileChanges
  import opened Config

  /** `"%s/api/v1/repos/%s/pulls/%d/files"`, written piece by piece. */
  const FilesTemplate: string := "%s" + ("/api/v1/repos/" + ("%s" + ("/pulls/" + ("%d" + "/files"))))
  /** `"%s/api/v1/repos/%s/issues/%d/comments"`, written piece by piece. */
  const CommentsTemplate: string := "%s" + ("/api/v1/repos/" + ("%s" + ("/issues/" + ("%d" + "/comments"))))

  /** The base URL, the repository and the pull request number, in template order. */
  function UrlArgs(config: ReviewConfig): (r: seq<FormatArg>) {
    [StrArg(config.giteaUrl), StrArg(Some(config.repoName)), IntArg(config.prNumber)]
  }

  /** The file-list template formats to the plain concatenation of its pieces. */
  lemma FilesUrlShape(config: ReviewConfig)
    ensures Format(FilesTemplate, UrlArgs(config))
      == Ok(ShowString(config.giteaUrl) + "/api/v1/repos/" + config.repoName
            + "/pulls/" + IntToString(config.prNumber) + "/files")
  {
    var a, b, c := "/api/v1/repos/", "/pulls/", "/files";
    var t := "%s" + (a + ("%s" + (b + ("%d" + c))));
    assert '%' !in a && '%' !in b && '%' !in c;
    FormatRepoTemplate(a, b, c, config.giteaUrl, config.repoName, config.prNumber);
    var n := IntToString(config.prNumber);
    var s1 := ShowString(config.giteaUrl) + (a + (config.repoName + (b + (n + c))));
    assert Format(t, UrlArgs(config)) == Ok(s1);
    assert s1 == ShowString(config.giteaUrl) + a + config.repoName + b + n + c;
  }

  /** The comment template formats to the plain concatenation of its pieces. */
  lemma CommentsUrlShape(config: ReviewConfig)
    ensures Format(CommentsTemplate, UrlArgs(config))
      == Ok(ShowString(config.giteaUrl) + "/api/v1/repos/" + config.repoName
            + "/issues/" + IntToString(config.prNumber) + "/comments")
  {
    var a, b, c := "/api/v1/repos/", "/issues/", "/comments";
    assert '%' !in a && '%' !in b && '%' !in c;
    FormatRepoTemplate(a, b, c, config.giteaUrl, config.repoName, config.prNumber);
    var n := IntToString(config.prNumber);
    assert ShowString(config.giteaUrl) + (a + (config.repoName + (b + (n + c))))
        == ShowString(config.giteaUrl) + a + config.repoName + b + n + c;
  }

  /** The file-list address: `{base}/api/v1/repos/{repo}/pulls/{number}/files`,
      with `null` as the base when no Gitea URL is configured. */
  function FilesUrl(config: ReviewConfig): (r: Result<string>)
    ensures r == Ok(ShowString(config.giteaUrl) + "/api/v1/repos/" + config.repoName
                    + "/pulls/" + IntToString(config.prNumber) + "/files")
  {
    FilesUrlShape(config);
    Format(FilesTemplate, UrlArgs(config))
  }

  /** The comment address: `{base}/api/v1/repos/{repo}/issues/{number}/comments`. */
  function CommentsUrl(config: ReviewConfig): (r: Result<string>)
    ensures r == Ok(ShowString(config.giteaUrl) + "/api/v1/repos/" + config.repoName
                    + "/issues/" + IntToString(config.prNumber) + "/comments")
  {
    CommentsUrlShape(config);
    Format(CommentsTemplate, UrlArgs(config))
  }

  /** Both calls authenticate with `Authorization: token <githubToken>`. */
  function AuthHeaders(config: ReviewConfig): (r: seq<Header>) {
    [Header("Authorization", "token " + config.githubToken), Header("Content-Type", "application/json")]
  }

  /** The GET that lists the changed files. */
  function FilesRequest(config: ReviewConfig): (r: Request)
    ensures r.verb == Get && r.body.None?
    ensures Ok(r.url) == FilesUrl(config)
    ensures Header("Authorization", "token " + config.githubToken) in r.headers
  {
    Request(Get, FilesUrl(config).value, AuthHeaders(config), None)
  }

  /** The POST that adds a comment: a JSON object whose only member `body` is the text. */
  function CommentRequest(config: ReviewConfig, comment: string): (r: Request)
    ensures r.verb == Post && Ok(r.url) == CommentsUrl(config)
    ensures r.body.Some? && r.body.value.JObject?
    ensures r.body.value.fields.Keys == {"body"} && r.body.value.fields["body"] == JString(comment)
    ensures Header("Authorization", "token " + config.githubToken) in r.headers
  {
    Request(Post, CommentsUrl(config).value, AuthHeaders(config), Some(JObject(map["body" := JString(comment)])))
  }

  /** `patch` is null when the member is absent or JSON null. */
  predicate PatchMissing(fields: map<string, JsonValue>) {
    "patch" !in fields || fields["patch"].JNull?
  }

  /** One element of the file array: `filename`, optional `patch`, `status`,
      read in that order. */
  function ParseFile(v: JsonValue): (r: Result<PlatformFile>)
    ensures r.Ok? ==> v.JObject? && MemberAsString(v.fields, "filename") == Ok(r.value.filename)
    ensures r.Ok? ==> MemberAsString(v.fields, "status") == Ok(r.value.status)
    ensures r.Ok? ==> (r.value.patch.None? <==> PatchMissing(v.fields))
    ensures r.Ok? && !PatchMissing(v.fields) ==> AsString(v.fields["patch"]) == Ok(r.value.patch.value)
  {
    match AsObject(v)
    case Err(e) => Err(e)
    case Ok(fields) =>
      match MemberAsString(fields, "filename")
      case Err(e) => Err(e)
      case Ok(filename) =>
        var patch := if PatchMissing(fields) then Ok(None) else
          match AsString(fields["patch"])
          case Err(e) => Err(e)
          case Ok(p) => Ok(Some(p));
        if patch.Err? then Err(patch.error)
        else
          match MemberAsString(fields, "status")
          case Err(e) => Err(e)
          case Ok(status) => Ok(PlatformFile(filename, patch.value, status))
  }

  /** A well-formed element becomes the record of its members; an absent or
      null patch becomes the empty string. */
  lemma ParseFileWellFormed(filename: string, patch: JsonValue, status: string, hasPatch: bool)
    requires patch.JNull? || patch.JString?
    ensures var fields := if hasPatch
              then map["filename" := JString(filename), "patch" := patch, "status" := JString(status)]
              else map["filename" := JString(filename), "status" := JString(status)];
      var expected := if hasPatch && patch.JString? then patch.s else "";
      ParseFile(JObject(fields)).Ok?
      && ToFileChange(ParseFile(JObject(fields)).value) == FileChange(filename, expected, status)
  {
  }

  /** Every element of the array, stopping at the first one that is malformed. */
  function ParseFiles(items: seq<JsonValue>): (r: Result<seq<PlatformFile>>)
    ensures r.Ok? <==> forall i | 0 <= i < |items| :: ParseFile(items[i]).Ok?
    ensures r.Ok? ==> |r.value| == |items| && forall i | 0 <= i < |items| :: ParseFile(items[i]) == Ok(r.value[i])
  {
    if |items| == 0 then
      Ok([])
    else
      match ParseFile(items[0])
      case Err(e) => Err(e)
      case Ok(first) =>
        match ParseFiles(items[1..])
        case Err(e) =>
          assert exists i | 1 <= i < |items| :: ParseFile(items[i]).Err? by {
            var j :| 0 <= j < |items| - 1 && ParseFile(items[1..][j]).Err?;
            assert items[1..][j] == items[j + 1];
          }
          Err(e)
        case Ok(rest) =>
          assert forall i | 1 <= i < |items| :: items[i] == items[1..][i - 1];
          Ok([first] + rest)
  }

  /** The response to the file-list GET. */
  function FilesResponse(config: ReviewConfig, transport: Transport): (r: Result<Response>) {
    transport(FilesRequest(config))
  }

  /** The response is a success whose body is a JSON array of well-formed file objects. */
  predicate ListedFiles(sent: Result<Response>) {
    && sent.Ok? && IsSuccessful(sent.value)
    && sent.value.body.Some? && sent.value.body.value.JArray?
    && ParseFiles(sent.value.body.value.items).Ok?
  }

  /** `getChangedFiles`: one GET; a non-success status is an error carrying
      that status; otherwise each element is mapped and filtered in order. */
  function GetChangedFiles(config: ReviewConfig, transport: Transport): (r: Result<seq<FileChange>>)
    ensures var sent := FilesResponse(config, transport);
      sent.Err? ==> r == Err(sent.error)
    ensures var sent := FilesResponse(config, transport);
      sent.Ok? && !IsSuccessful(sent.value) ==> r.Err? && r.error.HttpFailure? && r.error.code == sent.value.code
    ensures r.Ok? <==> ListedFiles(FilesResponse(config, transport))
    ensures r.Ok? ==>
      r.value == MapFilter(ParseFiles(FilesResponse(config, transport).value.body.value.items).value, config.fileExtensions)
    ensures r.Ok? ==> forall c | c in r.value :: c.MatchesExtensions(config.fileExtensions)
  {
    match FilesResponse(config, transport)
    case Err(e) => Err(e)
    case Ok(response) =>
      if !IsSuccessful(response) then
        Err(HttpFailure("Gitea API 호출 실패", response.code, response.reason))
      else if response.body.None? || !response.body.value.JArray? then
        Err(Malformed("file list is not a JSON array"))
      else
        match ParseFiles(response.body.value.items)
        case Err(e) => Err(e)
        case Ok(files) => Ok(MapFilter(files, config.fileExtensions))
  }

  /** `postComment`: one POST; a non-success status is an error carrying that status. */
  function PostComment(config: ReviewConfig, transport: Transport, comment: string): (r: Outcome)
    ensures var sent := transport(CommentRequest(config, comment));
      && (r.Pass? <==> sent.Ok? && IsSuccessful(sent.value))
      && (sent.Err? ==> r == Fail(sent.error))
      && (sent.Ok? && !IsSuccessful(sent.value) ==> r.Fail? && r.error.HttpFailure? && r.error.code == sent.value.code)
  {
    match transport(CommentRequest(config, comment))
    case Err(e) => Fail(e)
    case Ok(response) =>
      if !IsSuccessful(response) then Fail(HttpFailure("Gitea 댓글 작성 실패", response.code, response.reason))
      else Pass
  }
}

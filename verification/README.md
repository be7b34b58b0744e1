# Claude PR reviewer — a Dafny model

This project models the core of `lib-claude-reviewer`, a Java library that
reviews a pull request with Claude. The library fetches the pull request's
changed files from GitHub or Gitea, keeps those whose names end with a
configured extension, and renders them into one prompt. It then asks the
Anthropic messages endpoint for one completion and posts the answer, under a
fixed banner, as one comment on the pull request.

The model is functional:

- Every entity is an immutable datatype: `FileChange`, `ReviewConfig`, the
  builder, JSON values, HTTP requests and responses.
- The remote parties are oracles held as function-typed fields:
  - the GitHub SDK (`GitHub.GitHubApi`),
  - the HTTP transport used for Gitea (`Http.Transport`),
  - the completion endpoint (`Claude.Endpoint`).
- The process environment is a `map<string, string>`.
- Java exceptions become `Result`/`Outcome` errors.
- The orchestrator and the facade return the trace of remote effects they
  perform (`Fetch`, `Complete(changes)`, `Post(text)`) together with how the
  run ended.

Modules, one per source component:

| module | file | models |
|---|---|---|
| `Results` | results.dfy | `Option`, `Result`, `Outcome`, the error kinds |
| `Text` | text.dfy | Java `String.trim`, `endsWith`, `"-".repeat`, `split(",")` |
| `Numbers` | numbers.dfy | `Integer.parseInt` on 32-bit integers, decimal rendering |
| `Formatting` | format.dfy | `String.format` with `%s` and `%d` |
| `Json`, `Http` | json.dfy | Gson's parsed values and accessors; OkHttp exchanges |
| `FileChanges` | file_change.dfy | `FileChange.matchesExtensions`; the map-and-filter loop both platform clients share |
| `Config` | review_config.dfy | `ReviewConfig`, its defaults, `isGitea`, `fromEnvironment` |
| `Claude` | claude_service.dfy | `ClaudeService`: transcript, prompt selection, request, answer extraction |
| `GitHub`, `LegacyGitHub` | github_service.dfy | `GitHubServiceImpl` and the older `service/GitHubService` |
| `Gitea` | gitea_service.dfy | `GiteaServiceImpl`: URLs, requests, file-list parsing |
| `Platform` | git_service.dfy | the `GitService` interface as a two-variant datatype |
| `Orchestration` | review_service.dfy | `ReviewService.executeReview` |
| `Factory` | service_factory.dfy | `ServiceFactory` |
| `Reviewer` | claude_reviewer.dfy | `ClaudeReviewer` and its `Builder` |

Points where the code behaves differently from what a reader might expect:

- The code rejects a request number only when it is 0, and only in the
  builder (`ClaudeReviewer.java:168`). `fromEnvironment` accepts 0
  (`Config.FromEnvironmentAcceptsZeroPr`). The builder accepts negative
  numbers (`Reviewer.BuildAcceptsNegativePrNumber`). The token budget is
  never checked.
- `ClaudeReviewer`'s constructor calls `createGitHubService()`, which
  `ServiceFactory` does not define. The model gives the facade the
  platform-neutral client that `createGitService` builds. Because the
  builder never sets a Gitea URL, that client is always the GitHub one
  (`Reviewer.Build`).
- The facade's usage example reviews and then posts the result. This matches
  `executeFullReview` whenever there are files to review
  (`Reviewer.ReviewThenPostIsFullReview`). With no files, the usage example
  posts the banner followed by the no-files message, while `executeFullReview`
  posts nothing (`Reviewer.EmptyListPartsTheTwoWays`).

## Model

| member | source | states |
|---|---|---|
| Text.Trim | src/main/java/com/reviewer/model/FileChange.java:28 | the result has no character `<= ' '` at either end and is a contiguous slice of the input with only such characters cut off |
| Text.TrimRecoversCore | src/main/java/com/reviewer/model/FileChange.java:28 | trimming any blank margins around a trimmed string gives back exactly that string |
| Text.TrimTrimmed | src/main/java/com/reviewer/model/FileChange.java:28 | a string with no blank character at either end is its own trim |
| Text.TrimIdempotent | src/main/java/com/reviewer/model/FileChange.java:28 | trimming twice is trimming once |
| Text.EndsWithIffConcat | src/main/java/com/reviewer/model/FileChange.java:28 | `endsWith(suffix)` holds exactly when the string is some prefix followed by the suffix |
| Text.FieldsJoin | src/main/java/com/reviewer/config/ReviewConfig.java:62 | cutting the separator-join of separator-free fields at every separator gives back the fields, empty ones included |
| Text.JavaSplitJoin | src/main/java/com/reviewer/config/ReviewConfig.java:62 | splitting the comma-join of comma-free fields whose last field is non-empty gives back the fields |
| Text.JavaSplit | src/main/java/com/reviewer/config/ReviewConfig.java:62 | no field contains the separator; without a separator the whole string is the one field; with one, the result is the longest prefix of the separator-cut fields whose dropped tail is all empty, so the last field kept is non-empty |
| Text.JavaSplitTrailingExamples | src/main/java/com/reviewer/config/ReviewConfig.java:62 | `"a,"` splits to `["a"]` and `","` to nothing, as Java drops trailing empty fields |
| Text.Repeat | src/main/java/com/reviewer/service/ClaudeService.java:88 | `"-".repeat(n)` is n copies of the character |
| Numbers.ParseInt | src/main/java/com/reviewer/config/ReviewConfig.java:57 | succeeds iff the text is an optional `+` or `-` followed by at least one ASCII digit and the signed value lies in the `int` range, and then yields that signed value; every failure names the input |
| Numbers.ParseIntToString | src/main/java/com/reviewer/config/ReviewConfig.java:57 | every 32-bit integer parses back from its decimal rendering |
| Numbers.ParseIntExamples | src/main/java/com/reviewer/config/ReviewConfig.java:57 | "+5" gives 5 and "007" gives 7; "12a", "-" and "+" fail |
| Numbers.ParseIntRangeEdges | src/main/java/com/reviewer/config/ReviewConfig.java:57 | "2147483648" and "+2147483648" fail while "-2147483648" parses to the least `int` |
| Formatting.FormatLiteralPrefix | src/main/java/com/reviewer/service/git/GiteaServiceImpl.java:45-46 | literal text free of `%` is copied unchanged in front of the formatted rest |
| Formatting.FormatStringFirst | src/main/java/com/reviewer/service/git/GiteaServiceImpl.java:45-46 | a leading `%s` is replaced by the first argument's text, `null` for an absent one, and the rest formats with the remaining arguments |
| Formatting.FormatIntFirst | src/main/java/com/reviewer/service/git/GiteaServiceImpl.java:45-46 | a leading `%d` is replaced by the first argument's decimal rendering and the rest formats with the remaining arguments |
| Formatting.FormatRepoTemplate | src/main/java/com/reviewer/service/git/GiteaServiceImpl.java:45-46 | a `%s…%s…%d…` template with literal pieces free of `%` formats to the pieces with the base URL, the repository and the decimal number substituted |
| Formatting.Format | src/main/java/com/reviewer/service/git/GiteaServiceImpl.java:45-46 | every failure of the `%s`/`%d` formatter is a format error |
| FileChanges.Matches | src/main/java/com/reviewer/model/FileChange.java:26-29 | true iff some extension, trimmed, is a suffix of the filename; an empty list matches nothing |
| FileChanges.MatchOne | src/main/java/com/reviewer/model/FileChange.java:27-28 | a one-element list matches exactly the filenames that end with the trimmed extension |
| FileChanges.MatchSingleTrimmed | src/main/java/com/reviewer/model/FileChange.java:27-28 | a one-element list of an already trimmed extension matches exactly the filenames ending with it |
| FileChanges.MatchIgnoresPatchAndStatus | src/main/java/com/reviewer/model/FileChange.java:26-29 | two records with the same filename match the same extension lists, whatever their patch and status |
| FileChanges.MatchIsCaseSensitive | src/main/java/com/reviewer/model/FileChange.java:28 | `[".java"]` matches `Foo.java` but neither `Foo.JAVA` nor `Foo.javax` |
| FileChanges.MatchIgnoresBlankMargins | src/main/java/com/reviewer/model/FileChange.java:28 | an extension with blank margins matches exactly the filenames its trimmed core matches |
| FileChanges.BlankExtensionMatchesAll | src/main/java/com/reviewer/model/FileChange.java:28 | an extension that trims to the empty string matches every filename |
| FileChanges.MatchIsMonotone | src/main/java/com/reviewer/model/FileChange.java:27-28 | adding extensions never turns a match into a non-match |
| FileChanges.Filter | src/main/java/com/reviewer/service/git/GitHubServiceImpl.java:55-57 | every kept record matches, every matching record is kept, and nothing else is kept |
| FileChanges.FilterAppend | src/main/java/com/reviewer/service/git/GitHubServiceImpl.java:48-60 | the filter of a concatenation is the concatenation of the filters, so listing order is preserved |
| FileChanges.FilterIdempotent | src/main/java/com/reviewer/service/git/GitHubServiceImpl.java:55-57 | filtering a filtered list changes nothing |
| FileChanges.ToFileChange | src/main/java/com/reviewer/service/git/GitHubServiceImpl.java:49-53 | filename and status are copied; a missing patch becomes the empty string and a present one is kept verbatim |
| FileChanges.MapFilter | src/main/java/com/reviewer/service/git/GitHubServiceImpl.java:46-60 | at most as many records as files; each record matches and is the record of a listed file; each listed file whose record matches is present |
| FileChanges.MapFilterSingle | src/main/java/com/reviewer/service/git/GitHubServiceImpl.java:48-58 | one file yields its record when it matches and nothing otherwise |
| FileChanges.MapFilterAppend | src/main/java/com/reviewer/service/git/GitHubServiceImpl.java:48-60 | mapping and filtering distributes over concatenation, so listing order is preserved |
| Config.GetEnv | src/main/java/com/reviewer/config/ReviewConfig.java:68 | a variable has a value exactly when it is set, and the value is the set one |
| Config.RequiredEnv | src/main/java/com/reviewer/config/ReviewConfig.java:67-73 | fails iff the variable is missing or empty, naming it in the message; otherwise the value unchanged |
| Config.EnvOrDefault | src/main/java/com/reviewer/config/ReviewConfig.java:75-78 | the value when set and non-empty, otherwise the default |
| Config.FromEnvironment | src/main/java/com/reviewer/config/ReviewConfig.java:51-65 | succeeds iff the four required variables are set and non-empty and both numbers parse; the required fields carry the variables' values; the Gitea URL, model, language, extension list and token budget are the variables' values when set and non-empty, else the defaults; a PR_NUMBER that does not parse fails with that error before REPO_NAME is checked; a bad MAX_TOKENS fails with its parse error |
| Config.IsGitea | src/main/java/com/reviewer/config/ReviewConfig.java:42-44 | Gitea is selected exactly when the URL is set and non-empty; the predicate is used by `Config.FromEnvironment` and `Factory.CreateGitService` |
| Config.FromEnvironmentNamesFirstMissing | src/main/java/com/reviewer/config/ReviewConfig.java:55-58 | the error names the first missing required variable in the order token, API key, PR number, repository |
| Config.DefaultExtensionsAgree | src/main/java/com/reviewer/config/ReviewConfig.java:52 | the default extension text splits into exactly the default extension list |
| Config.DefaultMaxTokensAgree | src/main/java/com/reviewer/config/ReviewConfig.java:63 | the default token-budget text parses to 2000 |
| Config.FromEnvironmentDefaults | src/main/java/com/reviewer/config/ReviewConfig.java:25-35 | with no optional variable set, model, language, extensions and budget take their defaults and GitHub is selected |
| Config.FromEnvironmentAcceptsZeroPr | src/main/java/com/reviewer/config/ReviewConfig.java:57 | a PR_NUMBER of "0" is accepted |
| Claude.SystemPromptFor | src/main/java/com/reviewer/service/ClaudeService.java:41-76 | the Korean system prompt iff the language is exactly "ko" |
| Claude.LeadIn | src/main/java/com/reviewer/service/ClaudeService.java:100-102 | the Korean lead-in iff the language is exactly "ko", the English one otherwise |
| Claude.FormatChangesAppend | src/main/java/com/reviewer/service/ClaudeService.java:82-90 | the transcript of a concatenation is the concatenation of the transcripts |
| Claude.FormatChangesSingle | src/main/java/com/reviewer/service/ClaudeService.java:84-89 | the transcript of one file is its block |
| Claude.FormatChanges | src/main/java/com/reviewer/service/ClaudeService.java:82-91 | the transcript is empty exactly when there are no files; its block structure is stated by `Claude.FormatChangesAppend` and `Claude.FormatChangesSingle` |
| Claude.Block | src/main/java/com/reviewer/service/ClaudeService.java:85-88 | the block of one file; its shape is stated by `Claude.BlockShape` |
| Claude.BlockShape | src/main/java/com/reviewer/service/ClaudeService.java:85-88 | a block starts with the Korean header and the filename and ends with 80 dashes and a newline |
| Claude.TranscriptIgnoresLanguage | src/main/java/com/reviewer/service/ClaudeService.java:85 | after the lead-in, the user message is the same for every language and starts with the Korean header |
| Claude.BuildCall | src/main/java/com/reviewer/service/ClaudeService.java:104-124 | the request carries the configured model, budget and key, the selected system prompt and one user message: lead-in then transcript |
| Claude.ExtractText | src/main/java/com/reviewer/service/ClaudeService.java:131-134 | succeeds exactly with the text of the first `content` element, when the body has that shape |
| Claude.ExtractTextExample | src/main/java/com/reviewer/service/ClaudeService.java:131-134 | `{"content":[{"text":"Looks fine"}]}` yields "Looks fine" |
| Claude.ReviewCode | src/main/java/com/reviewer/service/ClaudeService.java:126-135 | transport failures propagate; a non-success status fails with that status; success is exactly the extracted answer |
| GitHub.GetChangedFiles | src/main/java/com/reviewer/service/git/GitHubServiceImpl.java:44-61 | fails iff listing fails, with the listing's error; otherwise exactly the listed files mapped and filtered in listing order, so at most the listed count, every record matches and comes from a listed file, every matching listed file is present |
| GitHub.PostComment | src/main/java/com/reviewer/service/git/GitHubServiceImpl.java:67-70 | the text reaches the configured pull request unchanged |
| LegacyGitHub.GetChangedFiles | src/main/java/com/reviewer/service/GitHubService.java:43-60 | the same guarantees as the platform client: fails iff listing fails; otherwise exactly the listed files mapped and filtered in listing order, within the listed count |
| LegacyGitHub.PostComment | src/main/java/com/reviewer/service/GitHubService.java:65-68 | the text reaches the configured pull request unchanged |
| LegacyGitHub.AgreesWithGitHubServiceImpl | src/main/java/com/reviewer/service/GitHubService.java:43-68 | both GitHub clients give the same result on every configuration and SDK |
| Gitea.FilesUrlShape | src/main/java/com/reviewer/service/git/GiteaServiceImpl.java:45-46 | formatting the file-list template gives base, `/api/v1/repos/`, repository, `/pulls/`, number, `/files` |
| Gitea.CommentsUrlShape | src/main/java/com/reviewer/service/git/GiteaServiceImpl.java:88-89 | formatting the comment template gives base, `/api/v1/repos/`, repository, `/issues/`, number, `/comments` |
| Gitea.FilesUrl | src/main/java/com/reviewer/service/git/GiteaServiceImpl.java:45-46 | the file-list URL always formats, to base, `/api/v1/repos/`, repository, `/pulls/`, number, `/files`, with `null` as the base when no Gitea URL is set |
| Gitea.CommentsUrl | src/main/java/com/reviewer/service/git/GiteaServiceImpl.java:88-89 | the comment URL always formats, to base, `/api/v1/repos/`, repository, `/issues/`, number, `/comments` |
| Gitea.FilesRequest | src/main/java/com/reviewer/service/git/GiteaServiceImpl.java:45-52 | a bodiless GET to the file-list URL with `Authorization: token <githubToken>` |
| Gitea.CommentRequest | src/main/java/com/reviewer/service/git/GiteaServiceImpl.java:88-104 | a POST to the comment URL whose body is an object with the single member `body` equal to the text, with the same authorization |
| Gitea.ParseFile | src/main/java/com/reviewer/service/git/GiteaServiceImpl.java:64-70 | filename and status are the members' strings; the patch is absent exactly when the member is missing or null |
| Gitea.ParseFileWellFormed | src/main/java/com/reviewer/service/git/GiteaServiceImpl.java:66-72 | a well-formed element becomes the record of its members, with an absent or null patch as the empty string |
| Gitea.ParseFiles | src/main/java/com/reviewer/service/git/GiteaServiceImpl.java:63-70 | succeeds iff every element parses, pointwise and in order |
| Json.AsString | src/main/java/com/reviewer/service/git/GiteaServiceImpl.java:66-70 | a JSON string yields its text; JSON null and objects fail |
| Gitea.GetChangedFiles | src/main/java/com/reviewer/service/git/GiteaServiceImpl.java:44-81 | transport failures propagate; a non-success status fails with that status; success iff the body is an array of well-formed files, and then the mapped, filtered list |
| Gitea.PostComment | src/main/java/com/reviewer/service/git/GiteaServiceImpl.java:87-111 | succeeds iff the POST gets a success status; a non-success status fails with that status |
| Platform.GetChangedFiles | src/main/java/com/reviewer/service/git/GitService.java:20 | the variant's own client answers unchanged, so on either platform only records matching the configured extensions are returned, in listing order, and success follows the platform's own listing |
| Platform.PostComment | src/main/java/com/reviewer/service/git/GitService.java:28 | GitHub receives the text unchanged and its outcome is returned; on Gitea the outcome is the Gitea client's, so success iff the comment POST succeeds and a failure carries its error |
| Factory.CreateGitService | src/main/java/com/reviewer/di/ServiceFactory.java:22-28 | the Gitea client iff the configuration is Gitea, the GitHub client otherwise, always on the factory's configuration |
| Factory.CreateClaudeService | src/main/java/com/reviewer/di/ServiceFactory.java:33-35 | the completion client gets the factory's configuration |
| Factory.CreateReviewService | src/main/java/com/reviewer/di/ServiceFactory.java:40-44 | the review run gets the same platform variant `createGitService` picks and a completion client, both on the factory's configuration |
| Orchestration.Comment | src/main/java/com/reviewer/service/ReviewService.java:45 | the posted comment is the banner followed by exactly the review text |
| Orchestration.RunReview | src/main/java/com/reviewer/service/ReviewService.java:26-48 | a fetch comes first and only once; a failed fetch or an empty list ends the run there with the fetch's outcome; a completion is asked only for the fetched non-empty list; a failed completion fails the run with its error and without a post; a post carries the bannered review, and a failed post fails the run with the post's error |
| Orchestration.ExecuteReview | src/main/java/com/reviewer/service/ReviewService.java:26-48 | every run follows the fetch, complete, post protocol, and a completion is asked for exactly the fetched list |
| Orchestration.CompletesFetchedListOnce | src/main/java/com/reviewer/service/ReviewService.java:41 | a non-empty list is completed exactly once, on exactly that list |
| Orchestration.NoPostAfterFailedCompletion | src/main/java/com/reviewer/service/ReviewService.java:41-45 | a failed completion posts nothing and the run fails with its error |
| Orchestration.PostsBanneredReview | src/main/java/com/reviewer/service/ReviewService.java:45 | a successful completion leads to exactly fetch, complete, post of the bannered text; the run succeeds iff the post does and otherwise fails with the post's error |
| Reviewer.Resolve | src/main/java/com/reviewer/ClaudeReviewer.java:145-159 | an explicit value, even an empty one, is kept; only an unset one is read from the environment |
| Reviewer.ResolvePrNumber | src/main/java/com/reviewer/ClaudeReviewer.java:151-156 | a non-zero number is kept; 0 is replaced by the parsed PR_NUMBER when that is set |
| Reviewer.BuildConfig | src/main/java/com/reviewer/ClaudeReviewer.java:143-184 | succeeds iff token, key and repository resolve non-empty and the PR number resolves non-zero; each of those fields is its resolved value, so an unset one takes the environment's value and an explicit one survives; a PR_NUMBER that does not parse fails with its error before any check; an explicit empty value fails; never Gitea |
| Reviewer.BuildConfigErrorOrder | src/main/java/com/reviewer/ClaudeReviewer.java:162-173 | the first failing check, in the order token, key, PR number, repository, names the error |
| Reviewer.DefaultBuilderAgreesWithEnvironment | src/main/java/com/reviewer/ClaudeReviewer.java:98-101 | with only the required variables set and a non-zero PR number, the default builder builds the configuration `fromEnvironment` reads |
| Reviewer.BuildAcceptsNegativePrNumber | src/main/java/com/reviewer/ClaudeReviewer.java:168 | only 0 is rejected as a PR number |
| Reviewer.Create | src/main/java/com/reviewer/ClaudeReviewer.java:34-39 | all three clients share the built configuration, and the review run uses the same clients |
| Reviewer.Build | src/main/java/com/reviewer/ClaudeReviewer.java:143-187 | succeeds iff the configuration builds, and then always talks to GitHub |
| Reviewer.GetChangedFiles | src/main/java/com/reviewer/ClaudeReviewer.java:73-75 | one fetch, whose outcome is the platform client's list unchanged |
| Reviewer.AnswerReview | src/main/java/com/reviewer/ClaudeReviewer.java:47-55 | a failed fetch ends after the fetch with its error; an empty list answers the no-files message without a completion; otherwise one completion of exactly the fetched list, whose result is returned |
| Reviewer.ReviewPullRequest | src/main/java/com/reviewer/ClaudeReviewer.java:47-55 | an empty list answers the no-files message without a completion; otherwise one completion of the fetched list, whose result is returned unchanged |
| Reviewer.PostBannered | src/main/java/com/reviewer/ClaudeReviewer.java:63-65 | one post whose text is the banner followed by exactly the given text; the result succeeds iff the post does and otherwise carries the post's error |
| Reviewer.PostReviewComment | src/main/java/com/reviewer/ClaudeReviewer.java:63-65 | exactly one post, of the banner followed by the given text; the platform's failure is the result's error unchanged |
| Reviewer.ExecuteFullReview | src/main/java/com/reviewer/ClaudeReviewer.java:82-84 | the wired review run, following the fetch, complete, post protocol |
| Reviewer.ByHandIsRunReview | src/main/java/com/reviewer/ClaudeReviewer.java:47-65 | for any successful completion step and any posting step, reviewing then posting yields the review run's effects in order and its outcome |
| Reviewer.ReviewThenPostIsFullReview | src/main/java/com/reviewer/ClaudeReviewer.java:47-65 | reviewing and then posting by hand performs the same effects and ends the same way as the full review, when there are files and the completion succeeds |
| Reviewer.EmptyListPartsTheTwoWays | src/main/java/com/reviewer/ClaudeReviewer.java:50-52 | with no files, the full review posts nothing while reviewing and then posting would post the bannered no-files message |

## Left out

- HTTP and the SDKs:
  - OkHttp, its timeouts and the GitHub SDK are oracles.
  - The GitHub SDK oracle does not receive `githubToken`, so the model does not state that GitHub calls authenticate with the configured token (`GitHubServiceImpl.java:27-29`). The Gitea requests do carry it.
  - Connecting to GitHub in the client constructors, which can fail, is not modelled. Every client construction succeeds.
- Gson text parsing and serialisation:
  - Bodies arrive parsed, or as `None` when empty or not JSON.
  - Numbers keep their lexeme.
- The system-prompt texts: only which of the two is chosen is modelled.
- Messages of errors raised as I/O failures:
  - An HTTP failure keeps its context, status code and reason phrase, not the full message text.
  - Gson's null-pointer and cast failures on a malformed body are all `Malformed`.
- Claude.ReviewCode: a non-success response keeps the status code and reason. Java's `Response.toString()` in the message is not reproduced.
- Numbers.ParseInt:
  - Only ASCII digits are accepted. Java also accepts other Unicode decimal digits.
  - A failure is a `NumberFormat` error naming the input, not Java's exception message.
- Formatting.Format: only the `%s` and `%d` conversions are modelled; `%%`, `%n`, other conversions, flags and widths fail here although Java accepts them. The templates in the code use only `%s` and `%d`.
- Formatting.FormatRepoTemplate: `%d` is rendered without locale-specific digits or grouping, which is what the default locale gives.
- Null arguments passed to the builder's `model`, `language` or `fileExtensions` setters are not modelled: the settings are plain strings. The setters themselves are datatype updates.
- Console output:
  - The progress prints in `ReviewService` are not modelled.
  - `ClaudeReviewerApplication` (`main`, stack trace, `System.exit`) is not modelled.
- The two `GitService` interface files hold signatures only. They are modelled as the `Platform.GitService` datatype.
- The test file has nothing to model.
- `ClaudeReviewer`'s call to the undefined `createGitHubService()` and the mismatched import in `ServiceFactory` are not reproduced. The facade uses the factory's `createGitService`.

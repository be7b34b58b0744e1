/** The review run (`ReviewService.executeReview`) as the trace of remote
    effects it performs: fetch the changed files, ask for one completion,
    post one comment. */
module Orchestration {
  import opened Results
  import opened FileChanges
  import Claude
  import Platform

  /** Every comment the reviewer posts starts with this heading. */
  const Banner: string := "## 🤖 Claude AI Code Review\n\n"

  /** A remote effect, in the order it happens. */
  datatype Effect =
    | Fetch
    | Complete(changes: seq<FileChange>)
    | Post(text: string)

  /** The effects an operation performed, and how it ended. */
  datatype Run<T> = Run(effects: seq<Effect>, outcome: Result<T>)

  datatype ReviewService = ReviewService(git: Platform.GitService, claude: Claude.ClaudeService)

  /** The comment posted for a review text: the banner, then the text. */
  function Comment(reviewText: string): (c: string)
    ensures |c| == |Banner| + |reviewText|
    ensures c[..|Banner|] == Banner && c[|Banner|..] == reviewText
  {
    Banner + reviewText
  }

  /** The shapes a run may take, independently of any service: a fetch, then
      possibly one completion of a non-empty list, then possibly one post of
      a bannered comment. */
  predicate Protocol(effects: seq<Effect>) {
    && 1 <= |effects| <= 3
    && effects[0] == Fetch
    && (|effects| >= 2 ==> effects[1].Complete? && |effects[1].changes| > 0)
    && (|effects| == 3 ==> effects[2].Post? && |Banner| <= |effects[2].text| && effects[2].text[..|Banner|] == Banner)
  }

  /** The sequencing of `executeReview` over its three remote steps: the
      fetched list, the completion of a list, and the posting of a comment.
      A failure of any step ends the run with that failure; an empty file
      list ends it successfully. */
  function RunReview(fetched: Result<seq<FileChange>>, review: seq<FileChange> -> Result<string>,
                     post: string -> Outcome): (r: Run<()>)
    ensures Protocol(r.effects)
    ensures fetched.Err? ==> r == Run([Fetch], Err(fetched.error))
    ensures fetched.Ok? && |fetched.value| == 0 ==> r == Run([Fetch], Ok(()))
    ensures |r.effects| >= 2 ==> fetched == Ok(r.effects[1].changes)
    ensures |r.effects| == 2 ==> review(r.effects[1].changes).Err?
    ensures |r.effects| == 2 ==> r.outcome == Err(review(r.effects[1].changes).error)
    ensures |r.effects| == 3 ==> review(r.effects[1].changes).Ok?
    ensures |r.effects| == 3 ==> r.effects[2].text == Comment(review(r.effects[1].changes).value)
    ensures |r.effects| == 3 ==> (r.outcome.Ok? <==> post(r.effects[2].text).Pass?)
    ensures |r.effects| == 3 && post(r.effects[2].text).Fail? ==> r.outcome == Err(post(r.effects[2].text).error)
  {
    match fetched
    case Err(e) => Run([Fetch], Err(e))
    case Ok(changes) =>
      if |changes| == 0 then
        Run([Fetch], Ok(()))
      else
        match review(changes)
        case Err(e) => Run([Fetch, Complete(changes)], Err(e))
        case Ok(reviewText) =>
          var text := Comment(reviewText);
          match post(text)
          case Fail(e) => Run([Fetch, Complete(changes), Post(text)], Err(e))
          case Pass => Run([Fetch, Complete(changes), Post(text)], Ok(()))
  }

  /** The completion step: `claudeService.reviewCode`. */
  function ReviewStep(claude: Claude.ClaudeService): (r: seq<FileChange> -> Result<string>) {
    changes => Claude.ReviewCode(claude, changes)
  }

  /** The posting step: `gitService.postComment`. */
  function PostStep(git: Platform.GitService): (r: string -> Outcome) {
    text => Platform.PostComment(git, text)
  }

  /** `executeReview`: the sequencing above over the service's platform and
      completion clients. */
  function ExecuteReview(s: ReviewService): (r: Run<()>)
    ensures Protocol(r.effects)
    ensures Platform.GetChangedFiles(s.git).Err? ==> r.effects == [Fetch] && r.outcome.Err?
    ensures |r.effects| >= 2 ==> Platform.GetChangedFiles(s.git) == Ok(r.effects[1].changes)
  {
    RunReview(Platform.GetChangedFiles(s.git), ReviewStep(s.claude), PostStep(s.git))
  }

  /** A non-empty list is reviewed exactly once, on exactly the fetched list. */
  lemma CompletesFetchedListOnce(changes: seq<FileChange>, review: seq<FileChange> -> Result<string>,
                                 post: string -> Outcome)
    requires |changes| > 0
    ensures var r := RunReview(Ok(changes), review, post);
      |r.effects| >= 2 && r.effects[1] == Complete(changes)
    ensures var r := RunReview(Ok(changes), review, post);
      forall i | 0 <= i < |r.effects| && i != 1 :: !r.effects[i].Complete?
  {
    var r := RunReview(Ok(changes), review, post);
    assert r.effects[1] == Complete(changes);
  }

  /** A failed completion posts nothing and fails the run. */
  lemma NoPostAfterFailedCompletion(changes: seq<FileChange>, review: seq<FileChange> -> Result<string>,
                                    post: string -> Outcome)
    requires |changes| > 0 && review(changes).Err?
    ensures forall e | e in RunReview(Ok(changes), review, post).effects :: !e.Post?
    ensures RunReview(Ok(changes), review, post).outcome == Err(review(changes).error)
  {
  }

  /** A successful completion is posted, bannered, exactly once. */
  lemma PostsBanneredReview(changes: seq<FileChange>, review: seq<FileChange> -> Result<string>,
                            post: string -> Outcome)
    requires |changes| > 0 && review(changes).Ok?
    ensures RunReview(Ok(changes), review, post).effects
      == [Fetch, Complete(changes), Post(Banner + review(changes).value)]
    ensures RunReview(Ok(changes), review, post).outcome.Ok? <==> post(Banner + review(changes).value).Pass?
    ensures post(Banner + review(changes).value).Fail? ==>
      RunReview(Ok(changes), review, post).outcome == Err(post(Banner + review(changes).value).error)
  {
  }
}

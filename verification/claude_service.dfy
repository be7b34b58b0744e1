/** The completion client (`ClaudeService`): renders the changed files into one
    prompt, sends exactly one request, and extracts the answer text. */
module Claude {
  import opened Results
  import opened Text
  import opened Numbers
  import opened Json
  import opened Http
  import opened FileChanges
  import opened Config

  const ApiUrl: string := "https://api.anthropic.com/v1/messages"
  const ApiVersion: string := "2023-06-01"

  /** The per-file header is always the Korean word for "file", whatever the language. */
  const FileHeader: string := "\n파일: "
  const Separator: string := Repeat('-', 80)

  const KoreanLeadIn: string := "다음 변경사항을 리뷰해줘:\n\n"
  const EnglishLeadIn: string := "Please review the following changes:\n\n"

  /** Which of the two fixed system prompts is sent; their texts are not modelled. */
  datatype SystemPrompt = KoreanPrompt | EnglishPrompt

  /** `getSystemPrompt`: Korean only for exactly `"ko"`. */
  function SystemPromptFor(language: string): (p: SystemPrompt)
    ensures p == KoreanPrompt <==> language == "ko"
  {
    if language == "ko" then KoreanPrompt else EnglishPrompt
  }

  /** The sentence placed before the transcript, Korean only for exactly `"ko"`. */
  function LeadIn(language: string): (s: string)
    ensures s == KoreanLeadIn <==> language == "ko"
    ensures s == EnglishLeadIn <==> language != "ko"
  {
    if language == "ko" then KoreanLeadIn else EnglishLeadIn
  }

  /** The transcript block for one file: header with name and status, the
      patch, and a line of 80 dashes. */
  function Block(c: FileChange): (r: string) {
    FileHeader + c.filename + " (" + c.status + ")\n" + c.patch + "\n" + Separator + "\n"
  }

  /** `formatChanges`: the blocks of the files, in order. */
  function FormatChanges(changes: seq<FileChange>): (r: string)
    ensures |r| == 0 <==> |changes| == 0
  {
    if |changes| == 0 then "" else Block(changes[0]) + FormatChanges(changes[1..])
  }

  /** The transcript of a concatenation is the concatenation of the transcripts. */
  lemma {:induction false} FormatChangesAppend(xs: seq<FileChange>, ys: seq<FileChange>)
    ensures FormatChanges(xs + ys) == FormatChanges(xs) + FormatChanges(ys)
    decreases |xs|
  {
    if |xs| == 0 {
      assert xs + ys == ys;
    } else {
      assert (xs + ys)[1..] == xs[1..] + ys;
      FormatChangesAppend(xs[1..], ys);
    }
  }

  /** The transcript of one file is its block; with the append law this fixes
      the transcript of every list. */
  lemma FormatChangesSingle(c: FileChange)
    ensures FormatChanges([c]) == Block(c)
  {
  }

  /** A block starts with the Korean header and the filename, and ends with
      the 80-dash separator line. */
  lemma BlockShape(c: FileChange)
    ensures Block(c)[..|FileHeader| + |c.filename|] == FileHeader + c.filename
    ensures |Block(c)| > 81
    ensures Block(c)[|Block(c)| - 81..] == Separator + "\n"
    ensures forall k | |Block(c)| - 81 <= k < |Block(c)| - 1 :: Block(c)[k] == '-'
  {
    var b := Block(c);
    var head := FileHeader + c.filename;
    var tail := " (" + c.status + ")\n" + c.patch + "\n";
    assert b == head + tail + (Separator + "\n");
  }

  /** The user message: the lead-in immediately followed by the transcript. */
  function UserContent(language: string, changes: seq<FileChange>): (r: string) {
    LeadIn(language) + FormatChanges(changes)
  }

  /** The transcript inside the user message does not depend on the language:
      only the lead-in does. */
  lemma TranscriptIgnoresLanguage(l1: string, l2: string, changes: seq<FileChange>)
    ensures UserContent(l1, changes)[|LeadIn(l1)|..] == UserContent(l2, changes)[|LeadIn(l2)|..]
    ensures |changes| > 0 ==> UserContent(l1, changes)[|LeadIn(l1)|..][..|FileHeader|] == FileHeader
  {
    var f := FormatChanges(changes);
    var a1, a2 := LeadIn(l1), LeadIn(l2);
    assert (a1 + f)[|a1|..] == f;
    assert (a2 + f)[|a2|..] == f;
    if |changes| > 0 {
      var c := changes[0];
      BlockShape(c);
      assert f == Block(c) + FormatChanges(changes[1..]);
      assert f[..|FileHeader|] == Block(c)[..|FileHeader|];
      assert (FileHeader + c.filename)[..|FileHeader|] == FileHeader;
    }
  }

  datatype Message = Message(role: string, content: string)

  /** The request body: `{model, max_tokens, system, messages}`. */
  datatype CompletionRequest = CompletionRequest(
    model: string, maxTokens: Int32, system: SystemPrompt, messages: seq<Message>)

  /** One POST to the completion endpoint. */
  datatype CompletionCall = CompletionCall(url: string, headers: seq<Header>, body: CompletionRequest)

  /** The endpoint as an oracle: a response of any status, or a transport failure. */
  type Endpoint = CompletionCall -> Result<Response>

  datatype ClaudeService = ClaudeService(config: ReviewConfig, endpoint: Endpoint)

  /** The one request `reviewCode` sends for `changes`. */
  function BuildCall(config: ReviewConfig, changes: seq<FileChange>): (call: CompletionCall)
    ensures call.url == ApiUrl
    ensures call.body.model == config.model && call.body.maxTokens == config.maxTokens
    ensures call.body.system == SystemPromptFor(config.language)
    ensures |call.body.messages| == 1 && call.body.messages[0].role == "user"
    ensures call.body.messages[0].content == LeadIn(config.language) + FormatChanges(changes)
    ensures Header("x-api-key", config.anthropicApiKey) in call.headers
    ensures Header("anthropic-version", ApiVersion) in call.headers
  {
    var body := CompletionRequest(
      config.model, config.maxTokens, SystemPromptFor(config.language),
      [Message("user", UserContent(config.language, changes))]);
    var headers := [
      Header("x-api-key", config.anthropicApiKey),
      Header("anthropic-version", ApiVersion),
      Header("content-type", "application/json")];
    CompletionCall(ApiUrl, headers, body)
  }

  /** The response body has the shape `{"content": [{"text": <string>}, ...]}`. */
  predicate HasTextAnswer(body: Option<JsonValue>, text: string) {
    && body.Some? && body.value.JObject?
    && "content" in body.value.fields && body.value.fields["content"].JArray?
    && |body.value.fields["content"].items| > 0
    && body.value.fields["content"].items[0].JObject?
    && "text" in body.value.fields["content"].items[0].fields
    && AsString(body.value.fields["content"].items[0].fields["text"]) == Ok(text)
  }

  /** `content[0].text` of the response body; any other shape is malformed. */
  function ExtractText(body: Option<JsonValue>): (r: Result<string>)
    ensures r.Ok? ==> HasTextAnswer(body, r.value)
    ensures forall t :: HasTextAnswer(body, t) ==> r == Ok(t)
  {
    if body.None? then
      Err(Malformed("response body is not JSON"))
    else
      match AsObject(body.value)
      case Err(e) => Err(e)
      case Ok(fields) =>
        match MemberAsArray(fields, "content")
        case Err(e) => Err(e)
        case Ok(items) =>
          if |items| == 0 then
            Err(Malformed("content is empty"))
          else
            match AsObject(items[0])
            case Err(e) => Err(e)
            case Ok(first) => MemberAsString(first, "text")
  }

  /** `{"content":[{"text":"Looks fine"}]}` yields exactly `"Looks fine"`. */
  lemma ExtractTextExample()
    ensures ExtractText(Some(JObject(map["content" := JArray([JObject(map["text" := JString("Looks fine")])])]))) == Ok("Looks fine")
  {
    var body := Some(JObject(map["content" := JArray([JObject(map["text" := JString("Looks fine")])])]));
    assert HasTextAnswer(body, "Looks fine");
  }

  /** `reviewCode`: one call; a non-success status is an error carrying that
      status; on success, the first content block's text. */
  function ReviewCode(service: ClaudeService, changes: seq<FileChange>): (r: Result<string>)
    ensures var sent := service.endpoint(BuildCall(service.config, changes));
      && (sent.Err? ==> r == Err(sent.error))
      && (sent.Ok? && !IsSuccessful(sent.value) ==>
            r.Err? && r.error.HttpFailure? && r.error.code == sent.value.code)
      && (r.Ok? ==> sent.Ok? && IsSuccessful(sent.value) && HasTextAnswer(sent.value.body, r.value))
      && (forall t :: sent.Ok? && IsSuccessful(sent.value) && HasTextAnswer(sent.value.body, t) ==> r == Ok(t))
  {
    var sent := service.endpoint(BuildCall(service.config, changes));
    match sent
    case Err(e) => Err(e)
    case Ok(response) =>
      if !IsSuccessful(response) then
        Err(HttpFailure("API 호출 실패", response.code, response.reason))
      else
        ExtractText(response.body)
  }
}

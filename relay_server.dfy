/**
 * The Express relay server: three POST endpoints that forward a prompt (and
 * for images an inline picture) to the generative model and shape the reply.
 * The model and `JSON.parse` are parameters; nothing is kept between requests.
 */
module RelayServer {
  import opened Optional
  import opened JsString
  import opened Json
  import opened Fences
  import opened DataUri

  /** An inline picture as the SDK takes it. */
  datatype InlineImage = InlineImage(data: string, mimeType: string)

  /** What reaches `generateContent`: a bare prompt value, or a text part followed by an image part. */
  datatype ModelInput =
    | TextPrompt(prompt: Option<Json>)
    | ImagePrompt(text: string, image: InlineImage)

  /** The outcome of `generateContent` followed by `response.text()`: the text, or a thrown error. */
  datatype Generation = Generated(text: string) | GenerationFailed

  /** The generative model as the server sees it. */
  type Model = ModelInput -> Generation

  /** An HTTP status and a JSON body. */
  datatype HttpResponse = HttpResponse(status: nat, body: Json)

  /** `{ text }`. */
  function TextBody(text: string): Json {
    JObject(map["text" := JString(text)])
  }

  /** Status 500 with `{ error: 'AI Error' }`. */
  const AiError: HttpResponse := HttpResponse(500, JObject(map["error" := JString("AI Error")]))

  /** The reply rule shared by the chat and image endpoints. */
  function Reply(g: Generation): (r: HttpResponse)
    ensures r.status == 200 <==> g.Generated?
    ensures r.status == 200 ==> HasString(r.body, "text", g.text) && |r.body.fields| == 1
    ensures r.status != 200 ==> r == AiError
  {
    match g
    case Generated(text) => HttpResponse(200, TextBody(text))
    case GenerationFailed => AiError
  }

  // ---------------------------------------------------------------- /api/chat

  /** What the chat endpoint sends to the model: the body's `prompt`, whatever it holds, or undefined. */
  function ChatInput(body: Json): (r: ModelInput)
    ensures r.TextPrompt?
    ensures r.prompt.Some? <==> body.JObject? && "prompt" in body.fields
    ensures r.prompt.Some? ==> r.prompt.value == body.fields["prompt"]
  {
    TextPrompt(Field(body, "prompt"))
  }

  /**
   * `POST /api/chat`. Destructuring `prompt` out of a null body throws, and
   * the catch answers 500; any other body reaches the model.
   */
  function Chat(body: Json, model: Model): (r: HttpResponse)
    ensures body.JNull? ==> r == AiError
    ensures !body.JNull? ==> (r.status == 200 <==> model(ChatInput(body)).Generated?)
    ensures r.status == 200 ==> HasString(r.body, "text", model(ChatInput(body)).text)
    ensures r.status != 200 ==> r == AiError
  {
    if body.JNull? then AiError else Reply(model(ChatInput(body)))
  }

  /** The chat endpoint reads only `prompt`: an `image` field in the body changes nothing. */
  lemma ChatIgnoresImage(prompt: Json, image: Json, model: Model)
    ensures Chat(JObject(map["prompt" := prompt, "image" := image]), model) ==
            Chat(JObject(map["prompt" := prompt]), model)
    ensures ChatInput(JObject(map["prompt" := prompt, "image" := image])) == TextPrompt(Some(prompt))
  {
    var withImage := JObject(map["prompt" := prompt, "image" := image]);
    assert Field(withImage, "prompt") == Some(prompt);
  }

  // ------------------------------------------------------- /api/analyze-image

  const ImagePromptText: string := "이 이미지의 안전 위험 요소를 한국어로 분석해주세요."
  const Jpeg: string := "image/jpeg"

  /**
   * What the image endpoint sends to the model; `None` when `image` is
   * missing or not a string, where `image.replace` throws.
   */
  function ImageInput(body: Json): (r: Option<ModelInput>)
    ensures r.Some? <==> Field(body, "image").Some? && Field(body, "image").value.JString?
    ensures r.Some? ==> r.value.ImagePrompt? && r.value.text == ImagePromptText && r.value.image.mimeType == Jpeg
    ensures r.Some? ==>
      var s := Field(body, "image").value.s;
      var d := r.value.image.data;
      d == s || (|d| < |s| && d == s[|s| - |d|..] && IsHeader(s[..|s| - |d|]))
  {
    match Field(body, "image")
    case Some(JString(image)) => Some(ImagePrompt(ImagePromptText, InlineImage(StripDataUriPrefix(image), Jpeg)))
    case _ => None
  }

  /** `POST /api/analyze-image`. */
  function AnalyzeImage(body: Json, model: Model): (r: HttpResponse)
    ensures ImageInput(body).None? ==> r == AiError
    ensures ImageInput(body).Some? ==>
      && (r.status == 200 <==> model(ImageInput(body).value).Generated?)
      && (r.status == 200 ==> HasString(r.body, "text", model(ImageInput(body).value).text))
      && (r.status != 200 ==> r == AiError)
  {
    match ImageInput(body)
    case None => AiError
    case Some(input) => Reply(model(input))
  }

  /** The body `{ image }`. */
  function ImageBody(image: string): Json {
    JObject(map["image" := JString(image)])
  }

  /** A data URL reaches the model as its bare payload, labelled JPEG whatever subtype it named. */
  lemma DataUrlReachesModelAsJpeg(subtype: string, payload: string)
    requires IsSubtype(subtype)
    ensures ImageInput(ImageBody(DataUrl(subtype, payload))) ==
            Some(ImagePrompt(ImagePromptText, InlineImage(payload, Jpeg)))
  {
    assert Field(ImageBody(DataUrl(subtype, payload)), "image") == Some(JString(DataUrl(subtype, payload)));
    StripDataUrl(subtype, payload);
  }

  /** A prefixed and an unprefixed upload of the same payload produce the same model input. */
  lemma PrefixedImageSameInput(subtype: string, payload: string)
    requires IsSubtype(subtype) && StripDataUriPrefix(payload) == payload
    ensures ImageInput(ImageBody(DataUrl(subtype, payload))) == ImageInput(ImageBody(payload))
  {
    assert Field(ImageBody(payload), "image") == Some(JString(payload));
    DataUrlReachesModelAsJpeg(subtype, payload);
  }

  /** Without a string `image` the endpoint answers 500 whatever the model would have said. */
  lemma MissingImageFails(body: Json, m1: Model, m2: Model)
    requires !(Field(body, "image").Some? && Field(body, "image").value.JString?)
    ensures AnalyzeImage(body, m1) == AnalyzeImage(body, m2) == AiError
  {
  }

  // ------------------------------------------------------- /api/analyze-issue

  const IssuePromptHead: string := "\n      설비 이슈 분석: "
  const IssuePromptTail: string :=
    "\n      결과를 JSON형식으로: { \"issue\": \"...\", \"explanation\": \"...\", \"recommendation\": \"...\", \"severity\": \"low\", \"estimatedCost\": \"0\" }\n    "

  /** The prompt template with the description interpolated. */
  function IssuePrompt(description: string): (r: string)
    ensures |r| == |IssuePromptHead| + |description| + |IssuePromptTail|
    ensures r[..|IssuePromptHead|] == IssuePromptHead
    ensures r[|IssuePromptHead|..|IssuePromptHead| + |description|] == description
    ensures r[|IssuePromptHead| + |description|..] == IssuePromptTail
  {
    var r := IssuePromptHead + description + IssuePromptTail;
    assert r[..|IssuePromptHead|] == IssuePromptHead;
    assert r[|IssuePromptHead|..|IssuePromptHead| + |description|] == description;
    assert r[|IssuePromptHead| + |description|..] == IssuePromptTail;
    r
  }

  /** The fixed object the issue endpoint sends whenever anything fails. */
  const ServerIssueFallback: Json := JObject(map[
    "issue" := JString("Error"),
    "explanation" := JString("분석 실패"),
    "recommendation" := JString("재시도 요망"),
    "severity" := JString("low"),
    "estimatedCost" := JString("0")])

  /** What the issue endpoint sends to the model: one string prompt holding the description verbatim. */
  function IssueInput(description: string): (r: ModelInput)
    ensures r.TextPrompt? && r.prompt.Some? && r.prompt.value.JString?
    ensures var p := r.prompt.value.s;
      |p| == |IssuePromptHead| + |description| + |IssuePromptTail| &&
      p[..|IssuePromptHead|] == IssuePromptHead &&
      p[|IssuePromptHead|..|IssuePromptHead| + |description|] == description &&
      p[|IssuePromptHead| + |description|..] == IssuePromptTail
  {
    var p := IssuePrompt(description);
    TextPrompt(Some(JString(p)))
  }

  /**
   * `POST /api/analyze-issue`: always status 200; the parsed, fence-stripped
   * model text is forwarded as it is, and any failure gives the fallback.
   */
  function AnalyzeIssue(description: string, model: Model, parse: string -> Option<Json>): (r: HttpResponse)
    ensures r.status == 200
    ensures model(IssueInput(description)).GenerationFailed? ==> r.body == ServerIssueFallback
    ensures model(IssueInput(description)).Generated? ==>
      var parsed := parse(StripFences(model(IssueInput(description)).text));
      r.body == (if parsed.Some? then parsed.value else ServerIssueFallback)
  {
    match model(IssueInput(description))
    case GenerationFailed => HttpResponse(200, ServerIssueFallback)
    case Generated(text) =>
      match parse(StripFences(text))
      case Some(v) => HttpResponse(200, v)
      case None => HttpResponse(200, ServerIssueFallback)
  }

  /** The server fallback has the full diagnostic shape, with severity 'low'. */
  lemma ServerFallbackIsDiagnostic()
    ensures IsDiagnosticResult(ServerIssueFallback)
    ensures ServerIssueFallback.fields["severity"] == JString("low")
  {
  }

  /** A parsed reply is forwarded even when it is not a diagnostic result: nothing checks keys or severity. */
  lemma IssueForwardsUnvalidated(description: string, model: Model, parse: string -> Option<Json>, v: Json)
    requires model(IssueInput(description)).Generated?
    requires parse(StripFences(model(IssueInput(description)).text)) == Some(v)
    ensures AnalyzeIssue(description, model, parse) == HttpResponse(200, v)
  {
  }

  /** A reply wrapped in a "```json" block is parsed from its trimmed body. */
  lemma FencedIssueReply(description: string, model: Model, parse: string -> Option<Json>, block: string)
    requires model(IssueInput(description)) == Generated(JsonFence + block + Fence)
    requires NoFence(block)
    ensures AnalyzeIssue(description, model, parse).body ==
      (if parse(Trim(block)).Some? then parse(Trim(block)).value else ServerIssueFallback)
  {
    StripJsonBlock(block);
    assert StripFences(model(IssueInput(description)).text) == Trim(block);
  }
}

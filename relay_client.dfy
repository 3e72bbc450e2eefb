/**
 * The browser-side service that talks only to the relay server: every call
 * posts `{ prompt, image }` to `/api/chat` and turns the reply into text, and
 * the issue analysis parses that text as JSON. The network and `JSON.parse`
 * are parameters.
 */
module RelayClient {
  import opened Optional
  import opened JsString
  import opened Json
  import opened Fences

  /** A POST request: a path and the JSON body `JSON.stringify` sends. */
  datatype Post = Post(path: string, body: Json)

  /** `fetch` then `response.json()`: the decoded body, or a thrown error (network or decode). */
  datatype Transport = Delivered(data: Json) | TransportThrew

  /** The network as the client sees it. */
  type Network = Post -> Transport

  const ChatPath: string := "/api/chat"
  const ServerCommError: string := "서버 통신 오류"
  const NoReply: string := "응답 없음"

  /** The request `sendToServer` makes; an undefined image is dropped by `JSON.stringify`. */
  function ChatRequest(prompt: string, image: Option<string>): (r: Post)
    ensures r.path == ChatPath && r.body.JObject?
    ensures Field(r.body, "prompt") == Some(JString(prompt))
    ensures Field(r.body, "image").Some? <==> image.Some?
    ensures image.Some? ==> Field(r.body, "image") == Some(JString(image.value))
    ensures r.body.fields.Keys <= {"prompt", "image"}
  {
    match image
    case None => Post(ChatPath, JObject(map["prompt" := JString(prompt)]))
    case Some(img) => Post(ChatPath, JObject(map["prompt" := JString(prompt), "image" := JString(img)]))
  }

  /**
   * `sendToServer`: the reply's `text` when truthy, otherwise "응답 없음";
   * "서버 통신 오류" when the request or decoding throws, or the body is null.
   * The HTTP status is not looked at.
   */
  function SendToServer(prompt: string, image: Option<string>, net: Network): (r: Json)
    ensures Truthy(r)
    ensures net(ChatRequest(prompt, image)).TransportThrew? ==> r == JString(ServerCommError)
    ensures net(ChatRequest(prompt, image)).Delivered? ==>
      var data := net(ChatRequest(prompt, image)).data;
      && (data.JNull? ==> r == JString(ServerCommError))
      && (!data.JNull? && Field(data, "text").Some? && Truthy(Field(data, "text").value) ==> r == Field(data, "text").value)
      && (!data.JNull? && !(Field(data, "text").Some? && Truthy(Field(data, "text").value)) ==> r == JString(NoReply))
  {
    match net(ChatRequest(prompt, image))
    case TransportThrew => JString(ServerCommError)
    case Delivered(data) =>
      if data.JNull? then JString(ServerCommError)
      else
        match Field(data, "text")
        case Some(t) => if Truthy(t) then t else JString(NoReply)
        case None => JString(NoReply)
  }

  /**
   * `r` is an answer a call can give for `post`: one of the two fixed strings,
   * or the `text` field of the body the network returned for that post.
   */
  predicate AnswersFrom(r: Json, post: Post, net: Network) {
    || r == JString(ServerCommError)
    || r == JString(NoReply)
    || (net(post).Delivered? && Field(net(post).data, "text") == Some(r))
  }

  /** `askCompanyRules`: the prompt, with no image. */
  function AskCompanyRules(prompt: string, net: Network): (r: Json)
    ensures Truthy(r)
    ensures AnswersFrom(r, Post(ChatPath, JObject(map["prompt" := JString(prompt)])), net)
  {
    SendToServer(prompt, None, net)
  }

  const SafetyImagePrompt: string := "이 현장 사진의 위험 요소를 한국어로 분석해줘."
  const VehicleImagePrompt: string := "이 설비/차량의 상태를 점검해줘."

  /** `analyzeSafetyImage`: the fixed safety prompt with the image. */
  function AnalyzeSafetyImage(image: string, net: Network): (r: Json)
    ensures Truthy(r)
    ensures AnswersFrom(r, Post(ChatPath, JObject(map["prompt" := JString(SafetyImagePrompt), "image" := JString(image)])), net)
  {
    SendToServer(SafetyImagePrompt, Some(image), net)
  }

  /** `analyzeVehicleImage`: the fixed inspection prompt with the image. */
  function AnalyzeVehicleImage(image: string, net: Network): (r: Json)
    ensures Truthy(r)
    ensures AnswersFrom(r, Post(ChatPath, JObject(map["prompt" := JString(VehicleImagePrompt), "image" := JString(image)])), net)
  {
    SendToServer(VehicleImagePrompt, Some(image), net)
  }

  /** All four calls post to `/api/chat`; the two image calls differ only in their prompt. */
  lemma AllCallsPostToChat(prompt: string, image: Option<string>)
    ensures ChatRequest(prompt, None).path == ChatPath
    ensures ChatRequest(SafetyImagePrompt, image).path == ChatPath
    ensures ChatRequest(VehicleImagePrompt, image).path == ChatPath
    ensures ChatRequest(SafetyImagePrompt, image).body.fields - {"prompt"} ==
            ChatRequest(VehicleImagePrompt, image).body.fields - {"prompt"}
  {
  }

  const ClientIssuePromptHead: string := "\n    다음 이슈를 분석해서 JSON 형식으로만 답해줘.\n    형식: {\"issue\": \"...\", \"explanation\": \"...\", \"recommendation\": \"...\", \"severity\": \"low\", \"estimatedCost\": \"0\"}\n    내용: "
  const ClientIssuePromptTail: string := "\n  "

  /** The issue prompt template with the description interpolated. */
  function ClientIssuePrompt(description: string): (r: string)
    ensures |r| == |ClientIssuePromptHead| + |description| + |ClientIssuePromptTail|
    ensures r[..|ClientIssuePromptHead|] == ClientIssuePromptHead
    ensures r[|ClientIssuePromptHead|..|ClientIssuePromptHead| + |description|] == description
    ensures r[|ClientIssuePromptHead| + |description|..] == ClientIssuePromptTail
  {
    var r := ClientIssuePromptHead + description + ClientIssuePromptTail;
    assert r[..|ClientIssuePromptHead|] == ClientIssuePromptHead;
    assert r[|ClientIssuePromptHead|..|ClientIssuePromptHead| + |description|] == description;
    assert r[|ClientIssuePromptHead| + |description|..] == ClientIssuePromptTail;
    r
  }

  /** The three-key object the client returns when the reply does not parse. */
  const ClientIssueFallback: Json := JObject(map[
    "issue" := JString("분석 실패"),
    "explanation" := JString("AI 응답 오류"),
    "severity" := JString("low")])

  /** The text `analyzeVehicleIssue` receives for a description. */
  function IssueReply(description: string, net: Network): (r: Json)
    ensures Truthy(r)
    ensures AnswersFrom(r, Post(ChatPath, JObject(map["prompt" := JString(ClientIssuePrompt(description))])), net)
  {
    SendToServer(ClientIssuePrompt(description), None, net)
  }

  /**
   * `analyzeVehicleIssue`: strip fences from the reply text and parse it;
   * anything that throws (a non-string reply, a parse failure) gives the fallback.
   */
  function AnalyzeVehicleIssue(description: string, net: Network, parse: string -> Option<Json>): (r: Json)
    ensures !IssueReply(description, net).JString? ==> r == ClientIssueFallback
    ensures IssueReply(description, net).JString? ==>
      var parsed := parse(StripFences(IssueReply(description, net).s));
      r == (if parsed.Some? then parsed.value else ClientIssueFallback)
  {
    var text := IssueReply(description, net);
    if text.JString? then
      match parse(StripFences(text.s))
      case Some(v) => v
      case None => ClientIssueFallback
    else ClientIssueFallback
  }

  /** The client fallback lacks `recommendation` and `estimatedCost`, so it is not a diagnostic result. */
  lemma ClientFallbackNotDiagnostic()
    ensures ClientIssueFallback.fields.Keys == {"issue", "explanation", "severity"}
    ensures !IsDiagnosticResult(ClientIssueFallback)
  {
    assert "recommendation" !in ClientIssueFallback.fields;
  }

  /** The two fixed reply strings contain no fence and no surrounding whitespace. */
  lemma FixedRepliesPlain()
    ensures StripFences(ServerCommError) == ServerCommError
    ensures StripFences(NoReply) == NoReply
  {
    ServerCommErrorPlain();
    NoReplyPlain();
  }

  lemma ServerCommErrorPlain()
    ensures StripFences(ServerCommError) == ServerCommError
  {
    assert ServerCommError[0] == '서' && ServerCommError[|ServerCommError| - 1] == '류';
    PlainText(ServerCommError);
  }

  lemma NoReplyPlain()
    ensures StripFences(NoReply) == NoReply
  {
    assert NoReply[0] == '응' && NoReply[|NoReply| - 1] == '음';
    PlainText(NoReply);
  }

  /** A backtick-free text with non-whitespace ends passes the fence strip unchanged. */
  lemma PlainText(t: string)
    requires t != [] && !IsWhitespace(t[0]) && !IsWhitespace(t[|t| - 1])
    requires '`' !in t
    ensures StripFences(t) == t
  {
    assert NoFence(t) by {
      forall i ensures !FenceAt(t, i) {
        if 0 <= i < |t| {
          assert t[i] in t;
        }
      }
    }
    StripFencesPlain(t);
    TrimUnchanged(t);
  }

  /**
   * When the request throws, the issue analysis does not throw: it parses
   * "서버 통신 오류", and since that is not JSON it returns the fallback.
   */
  lemma TransportFailureGivesFallback(description: string, net: Network, parse: string -> Option<Json>)
    requires net(ChatRequest(ClientIssuePrompt(description), None)).TransportThrew?
    requires parse(ServerCommError) == None
    ensures AnalyzeVehicleIssue(description, net, parse) == ClientIssueFallback
  {
    FixedRepliesPlain();
  }

  /** A reply without usable text (such as the server's 500 body) also ends in the fallback. */
  lemma NoTextGivesFallback(description: string, net: Network, parse: string -> Option<Json>)
    requires net(ChatRequest(ClientIssuePrompt(description), None)).Delivered?
    requires var data := net(ChatRequest(ClientIssuePrompt(description), None)).data;
      !data.JNull? && (Field(data, "text").None? || !Truthy(Field(data, "text").value))
    requires parse(NoReply) == None
    ensures AnalyzeVehicleIssue(description, net, parse) == ClientIssueFallback
  {
    FixedRepliesPlain();
  }

  /** A truthy `text` that is not a string makes `text.replace` throw: fallback, with no parse at all. */
  lemma NonStringTextGivesFallback(description: string, net: Network, p1: string -> Option<Json>, p2: string -> Option<Json>)
    requires net(ChatRequest(ClientIssuePrompt(description), None)).Delivered?
    requires var data := net(ChatRequest(ClientIssuePrompt(description), None)).data;
      !data.JNull? && Field(data, "text").Some? && Truthy(Field(data, "text").value) && !Field(data, "text").value.JString?
    ensures AnalyzeVehicleIssue(description, net, p1) == AnalyzeVehicleIssue(description, net, p2) == ClientIssueFallback
  {
  }

  /** A reply wrapped in a "```json" block is parsed from its trimmed body, and the result is not validated. */
  lemma FencedReplyParsed(description: string, net: Network, parse: string -> Option<Json>, block: string, v: Json)
    requires IssueReply(description, net) == JString(JsonFence + block + Fence)
    requires NoFence(block)
    requires parse(Trim(block)) == Some(v)
    ensures AnalyzeVehicleIssue(description, net, parse) == v
  {
    StripJsonBlock(block);
  }
}

/**
 * The service variant that calls the generative-AI SDK straight from the
 * browser: the request each call builds, how the issue analysis treats the
 * response text, and the `decodeBase64` byte loop. The SDK and `JSON.parse`
 * are parameters.
 */
module DirectClient {
  import opened Optional
  import opened Json
  import opened DataUri

  const FlashModel: string := "gemini-3-flash-preview"
  const ProModel: string := "gemini-3-pro-preview"
  const Jpeg: string := "image/jpeg"

  /**
   * The `contents` of a request: a bare text, or an inline image part followed
   * by a text part. The inline data is whatever the caller passed, undefined included.
   */
  datatype Contents = TextContents(text: string) | ImageAndText(imageData: Option<string>, mimeType: string, text: string)

  /** The `config` of a request: an optional system instruction and an optional required-field schema for JSON output. */
  datatype Config = Config(systemInstruction: Option<string>, jsonSchemaRequired: Option<seq<string>>)

  /** A `generateContent` request. */
  datatype SdkRequest = SdkRequest(model: string, contents: Contents, config: Config)

  /** A resolved response with its optional `text`, or a rejection. */
  datatype SdkResponse = Responded(text: Option<string>) | SdkThrew

  /** The SDK as the service sees it. */
  type Sdk = SdkRequest -> SdkResponse

  /** What an exported call does: resolve with a value, or reject. */
  datatype Call<T> = Returned(value: T) | Threw

  const RulesInstruction: string :=
    "당신은 신성오토텍(주)의 전문 인사/행정 상담 AI입니다. 사용자의 질문에 대해 신성오토텍의 사내 규정과 절차를 기반으로 친절하고 명확하게 한국어로 답변하세요. 규정 내용을 모를 경우 인사팀에 문의하도록 안내하세요."
  const SafetyImageText: string :=
    "이 이미지에서 안전 위험 요소나 개선이 필요한 부분을 분석해주세요. 신성오토텍 공장 환경이라고 가정하고 전문가적인 소견을 한국어로 작성해주세요."
  const IssueInstruction: string :=
    "당신은 신성오토텍(주)의 설비 유지보수 및 사내 기술 규정 전문가입니다. 사용자의 이슈 설명에 따라 문제 현상, 상세 원인 및 규정 설명, 권장 조치 사항, 심각도(low/medium/high 중 하나를 소문자로 선택), 예상 소요 비용/자원을 JSON 형식으로 분석하여 답변하세요. 모든 답변은 한국어로 작성하세요."
  const IssueFields: seq<string> := ["issue", "explanation", "recommendation", "severity", "estimatedCost"]

  /** The text of a response, passed on as it is (possibly undefined); a rejection propagates. */
  function TextOf(resp: SdkResponse): (r: Call<Option<string>>)
    ensures r.Threw? <==> resp.SdkThrew?
    ensures r.Returned? ==> r.value == resp.text
  {
    match resp
    case SdkThrew => Threw
    case Responded(text) => Returned(text)
  }

  /** The request `askCompanyRules` makes. */
  function RulesRequest(prompt: string): (r: SdkRequest)
    ensures r.model == FlashModel && r.contents == TextContents(prompt)
    ensures r.config.systemInstruction == Some(RulesInstruction) && r.config.jsonSchemaRequired.None?
  {
    SdkRequest(FlashModel, TextContents(prompt), Config(Some(RulesInstruction), None))
  }

  /** `askCompanyRules`: the response text of the rules request. */
  function AskCompanyRules(prompt: string, sdk: Sdk): (r: Call<Option<string>>)
    ensures r.Threw? <==> sdk(RulesRequest(prompt)).SdkThrew?
    ensures r.Returned? ==> r.value == sdk(RulesRequest(prompt)).text
  {
    TextOf(sdk(RulesRequest(prompt)))
  }

  /** The request `analyzeSafetyImage` makes: the image as given, labelled JPEG, with no prefix strip. */
  function SafetyImageRequest(base64Image: Option<string>): (r: SdkRequest)
    ensures r.model == FlashModel
    ensures r.contents == ImageAndText(base64Image, Jpeg, SafetyImageText)
    ensures r.config == Config(None, None)
  {
    SdkRequest(FlashModel, ImageAndText(base64Image, Jpeg, SafetyImageText), Config(None, None))
  }

  /** `analyzeSafetyImage`. */
  function AnalyzeSafetyImage(base64Image: Option<string>, sdk: Sdk): (r: Call<Option<string>>)
    ensures r.Threw? <==> sdk(SafetyImageRequest(base64Image)).SdkThrew?
    ensures r.Returned? ==> r.value == sdk(SafetyImageRequest(base64Image)).text
  {
    TextOf(sdk(SafetyImageRequest(base64Image)))
  }

  /** `analyzeVehicleImage`: the safety analysis reused. */
  function AnalyzeVehicleImage(base64Image: Option<string>, sdk: Sdk): (r: Call<Option<string>>)
    ensures r.Threw? <==> sdk(SafetyImageRequest(base64Image)).SdkThrew?
    ensures r.Returned? ==> r.value == sdk(SafetyImageRequest(base64Image)).text
  {
    AnalyzeSafetyImage(base64Image, sdk)
  }

  /** The vehicle image analysis is the safety image analysis, for every image and every SDK behaviour. */
  lemma VehicleImageIsSafetyImage(base64Image: Option<string>, sdk: Sdk)
    ensures AnalyzeVehicleImage(base64Image, sdk) == AnalyzeSafetyImage(base64Image, sdk)
  {
  }

  /**
   * Unlike the relay client, the direct calls substitute no reply of their
   * own: a missing text reaches the caller as undefined, an empty one as it
   * is, and a rejected SDK call rejects the call.
   */
  lemma NoReplySubstituted(prompt: string, image: Option<string>, sdk: Sdk, text: Option<string>)
    ensures sdk(RulesRequest(prompt)) == Responded(text) ==> AskCompanyRules(prompt, sdk) == Returned(text)
    ensures sdk(SafetyImageRequest(image)) == Responded(text) ==> AnalyzeSafetyImage(image, sdk) == Returned(text)
    ensures sdk(RulesRequest(prompt)) == SdkThrew ==> AskCompanyRules(prompt, sdk) == Threw
    ensures sdk(SafetyImageRequest(image)) == SdkThrew ==> AnalyzeSafetyImage(image, sdk) == Threw
  {
  }

  /**
   * The image goes to the SDK as it was passed: a whole data URL would keep
   * its `data:image/...;base64,` header, which the relay server strips.
   */
  lemma ImageSentUnstripped(subtype: string, payload: string)
    requires IsSubtype(subtype)
    ensures SafetyImageRequest(Some(DataUrl(subtype, payload))).contents.imageData == Some(DataUrl(subtype, payload))
    ensures SafetyImageRequest(Some(DataUrl(subtype, payload))).contents.imageData != Some(StripDataUriPrefix(DataUrl(subtype, payload)))
  {
    StripDataUrl(subtype, payload);
    assert |DataUrl(subtype, payload)| > |payload|;
  }

  /** The request `analyzeVehicleIssue` makes: the description alone, with the five-field schema. */
  function IssueRequest(description: string): (r: SdkRequest)
    ensures r.model == ProModel && r.contents == TextContents(description)
    ensures r.config == Config(Some(IssueInstruction), Some(IssueFields))
  {
    SdkRequest(ProModel, TextContents(description), Config(Some(IssueInstruction), Some(IssueFields)))
  }

  /** What the response schema demands: every required key present, each a string. */
  predicate MeetsIssueSchema(v: Json) {
    v.JObject? && forall k :: k in IssueFields ==> k in v.fields && v.fields[k].JString?
  }

  /**
   * Every declared `DiagnosticResult` meets the schema, but not conversely:
   * the schema types `severity` as any string, so a reply the schema admits
   * can carry a severity outside low/medium/high.
   */
  lemma SchemaAdmitsAnySeverity(v: Json)
    ensures IsDiagnosticResult(v) ==> MeetsIssueSchema(v)
    ensures var w := JObject(map[
        "issue" := JString(""), "explanation" := JString(""), "recommendation" := JString(""),
        "severity" := JString("urgent"), "estimatedCost" := JString("")]);
      MeetsIssueSchema(w) && !IsDiagnosticResult(w)
  {
    var w := JObject(map[
        "issue" := JString(""), "explanation" := JString(""), "recommendation" := JString(""),
        "severity" := JString("urgent"), "estimatedCost" := JString("")]);
    assert "urgent" != "low" && "urgent" != "medium" && "urgent" != "high";
    assert w.fields["severity"].s !in ["low", "medium", "high"];
  }

  /** The five-key object returned when the response text does not parse. */
  const DirectIssueFallback: Json := JObject(map[
    "issue" := JString("분석 처리 중 오류"),
    "explanation" := JString("AI의 응답을 파싱하는 과정에서 오류가 발생했습니다."),
    "recommendation" := JString("요청 내용을 다시 한 번 명확하게 입력해주세요."),
    "severity" := JString("medium"),
    "estimatedCost" := JString("N/A")])

  /** `response.text || "{}"`. */
  function TextOrEmptyObject(text: Option<string>): (r: string)
    ensures text.Some? && text.value != "" ==> r == text.value
    ensures text.None? || text.value == "" ==> r == "{}"
  {
    if text.Some? && text.value != "" then text.value else "{}"
  }

  /**
   * `analyzeVehicleIssue`: a rejected SDK call propagates; otherwise the text
   * (or "{}") is parsed and returned unchecked, and a parse failure gives the fallback.
   */
  function AnalyzeVehicleIssue(description: string, sdk: Sdk, parse: string -> Option<Json>): (r: Call<Json>)
    ensures r.Threw? <==> sdk(IssueRequest(description)).SdkThrew?
    ensures r.Returned? ==>
      var parsed := parse(TextOrEmptyObject(sdk(IssueRequest(description)).text));
      r.value == (if parsed.Some? then parsed.value else DirectIssueFallback)
  {
    match sdk(IssueRequest(description))
    case SdkThrew => Threw
    case Responded(text) =>
      match parse(TextOrEmptyObject(text))
      case Some(v) => Returned(v)
      case None => Returned(DirectIssueFallback)
  }

  /** The direct fallback has the full diagnostic shape, with severity 'medium'. */
  lemma DirectFallbackIsDiagnostic()
    ensures IsDiagnosticResult(DirectIssueFallback)
    ensures DirectIssueFallback.fields["severity"] == JString("medium")
    ensures DirectIssueFallback.fields["estimatedCost"] == JString("N/A")
  {
  }

  /** Missing or empty response text yields the empty object, not the fallback, and that is no diagnostic result. */
  lemma EmptyTextGivesEmptyObject(description: string, sdk: Sdk, parse: string -> Option<Json>)
    requires sdk(IssueRequest(description)) == Responded(None) || sdk(IssueRequest(description)) == Responded(Some(""))
    requires parse("{}") == Some(JObject(map[]))
    ensures AnalyzeVehicleIssue(description, sdk, parse) == Returned(JObject(map[]))
    ensures !IsDiagnosticResult(AnalyzeVehicleIssue(description, sdk, parse).value)
  {
    assert "issue" in ["issue", "explanation", "recommendation", "severity", "estimatedCost"];
  }

  /** Whatever parses is returned as it is: the schema's required keys and the severity levels are not checked. */
  lemma ParsedReturnedUnchecked(description: string, sdk: Sdk, parse: string -> Option<Json>, text: string, v: Json)
    requires sdk(IssueRequest(description)) == Responded(Some(text)) && text != ""
    requires parse(text) == Some(v)
    ensures AnalyzeVehicleIssue(description, sdk, parse) == Returned(v)
  {
  }

  // ------------------------------------------------------------ decodeBase64

  /** An element of a `Uint8Array`. */
  newtype byte = x: int | 0 <= x < 256

  /** What a `Uint8Array` stores for a character code: the code reduced mod 256. */
  function ByteOf(c: char): (b: byte)
    ensures b as int == (c as int) % 256
    ensures (c as int) < 256 ==> b as int == c as int
  {
    ((c as int) % 256) as byte
  }

  /** The bytes of a binary string, one per character. */
  function Bytes(s: string): (r: seq<byte>)
    ensures |r| == |s|
    ensures forall i :: 0 <= i < |s| ==> r[i] == ByteOf(s[i])
  {
    seq(|s|, i requires 0 <= i < |s| => ByteOf(s[i]))
  }

  /** The Latin-1 string of a byte sequence. */
  function Latin1(bytes: seq<byte>): (r: string)
    ensures |r| == |bytes|
    ensures forall i :: 0 <= i < |bytes| ==> r[i] as int == bytes[i] as int
  {
    seq(|bytes|, i requires 0 <= i < |bytes| => (bytes[i] as int) as char)
  }

  /** A binary string in the sense of `atob`'s output: every character code below 256. */
  predicate IsBinaryString(s: string) {
    forall i :: 0 <= i < |s| ==> (s[i] as int) < 256
  }

  /**
   * `decodeBase64` after `atob`: a new array as long as the binary string,
   * filled in place with one byte per character.
   */
  method DecodeBase64(binaryString: string) returns (bytes: array<byte>)
    ensures fresh(bytes)
    ensures bytes[..] == Bytes(binaryString)
  {
    bytes := new byte[|binaryString|];
    var i := 0;
    while i < |binaryString|
      invariant 0 <= i <= |binaryString|
      invariant forall k :: 0 <= k < i ==> bytes[k] == ByteOf(binaryString[k])
    {
      bytes[i] := ByteOf(binaryString[i]);
      i := i + 1;
    }
  }

  /** On a binary string the bytes read back as the same string: nothing is lost. */
  lemma Latin1RoundTrip(s: string)
    requires IsBinaryString(s)
    ensures Latin1(Bytes(s)) == s
  {
    var t := Latin1(Bytes(s));
    forall i | 0 <= i < |s| ensures t[i] == s[i] {
      assert t[i] as int == s[i] as int;
    }
  }

  /** Every byte sequence is the decoding of its Latin-1 string. */
  lemma BytesLatin1(bytes: seq<byte>)
    ensures IsBinaryString(Latin1(bytes))
    ensures Bytes(Latin1(bytes)) == bytes
  {
  }

  /** A character code of 256 or more keeps only its low eight bits: decoding is not injective beyond Latin-1. */
  lemma WideCharWraps()
    ensures Bytes("\U{0100}") == Bytes("\U{0000}")
  {
  }
}

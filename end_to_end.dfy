/**
 * The browser relay client wired to the relay server: every call of the
 * client reaches the chat endpoint, whose JSON body the client reads without
 * looking at the status.
 */
module EndToEnd {
  import opened Optional
  import opened Json
  import RelayServer
  import opened RelayClient

  /** The network in front of the relay server: a post to `/api/chat` is answered by the chat endpoint. */
  function RelayNetwork(model: RelayServer.Model): (net: Network)
    ensures forall p: Post :: p.path == ChatPath ==> net(p) == Delivered(RelayServer.Chat(p.body, model).body)
  {
    (p: Post) => if p.path == ChatPath then Delivered(RelayServer.Chat(p.body, model).body) else TransportThrew
  }

  /** The model input a client prompt turns into at the server. */
  function Relayed(prompt: string): RelayServer.ModelInput {
    RelayServer.TextPrompt(Some(JString(prompt)))
  }

  /** What the server hands the model for any client request: the prompt alone. */
  lemma ServerSeesPromptOnly(prompt: string, image: Option<string>)
    ensures RelayServer.ChatInput(ChatRequest(prompt, image).body) == Relayed(prompt)
  {
  }

  /**
   * The picture sent by an image analysis never reaches the model: through
   * the relay the call answers exactly as asking its fixed prompt with no image.
   */
  lemma ImageNeverReachesModel(image: string, model: RelayServer.Model)
    ensures AnalyzeSafetyImage(image, RelayNetwork(model)) == AskCompanyRules(RelayClient.SafetyImagePrompt, RelayNetwork(model))
    ensures AnalyzeVehicleImage(image, RelayNetwork(model)) == AskCompanyRules(RelayClient.VehicleImagePrompt, RelayNetwork(model))
  {
    ServerSeesPromptOnly(RelayClient.SafetyImagePrompt, Some(image));
    ServerSeesPromptOnly(RelayClient.SafetyImagePrompt, None);
    ServerSeesPromptOnly(RelayClient.VehicleImagePrompt, Some(image));
    ServerSeesPromptOnly(RelayClient.VehicleImagePrompt, None);
  }

  /** A model reply reaches the client as its text; an empty reply becomes "응답 없음". */
  lemma GeneratedTextRelayed(prompt: string, image: Option<string>, model: RelayServer.Model, text: string)
    requires model(Relayed(prompt)) == RelayServer.Generated(text)
    ensures SendToServer(prompt, image, RelayNetwork(model)) == JString(if text != "" then text else NoReply)
  {
    ServerSeesPromptOnly(prompt, image);
    var body := RelayServer.Chat(ChatRequest(prompt, image).body, model).body;
    assert Field(body, "text") == Some(JString(text));
  }

  /** An upstream failure answers 500 `{error}`, which the client, not checking the status, shows as "응답 없음". */
  lemma UpstreamFailureGivesNoReply(prompt: string, image: Option<string>, model: RelayServer.Model)
    requires model(Relayed(prompt)).GenerationFailed?
    ensures SendToServer(prompt, image, RelayNetwork(model)) == JString(NoReply)
  {
    ServerSeesPromptOnly(prompt, image);
    var body := RelayServer.Chat(ChatRequest(prompt, image).body, model).body;
    assert body == RelayServer.AiError.body;
    assert Field(body, "text") == None;
  }

  /** Through the relay an upstream failure in the issue analysis ends in the client's three-key fallback. */
  lemma IssueUpstreamFailureGivesFallback(description: string, model: RelayServer.Model, parse: string -> Option<Json>)
    requires model(Relayed(ClientIssuePrompt(description))).GenerationFailed?
    requires parse(NoReply) == None
    ensures AnalyzeVehicleIssue(description, RelayNetwork(model), parse) == ClientIssueFallback
  {
    UpstreamFailureGivesNoReply(ClientIssuePrompt(description), None, model);
    FixedRepliesPlain();
  }
}

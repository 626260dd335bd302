/** `requestOpenAI2Ollama`: the unified chat request as an Ollama generate request. */
module RequestMapping {
  import opened Wrappers
  import opened OllamaTypes

  /** The content of the last message of `messages` whose role is `role`, if any. */
  function LastContent(messages: seq<Message>, role: string): Option<string>
  {
    if messages == [] then None
    else if messages[|messages| - 1].role == role then Some(messages[|messages| - 1].content)
    else LastContent(messages[..|messages| - 1], role)
  }

  /** There is no match exactly when no message has the role. */
  lemma {:induction false} LastContentNone(messages: seq<Message>, role: string)
    ensures LastContent(messages, role).None? <==> forall i | 0 <= i < |messages| :: messages[i].role != role
  {
    if messages != [] {
      var init := messages[..|messages| - 1];
      LastContentNone(init, role);
      assert forall i | 0 <= i < |init| :: init[i] == messages[i];
    }
  }

  /** A message with the role, followed only by messages of other roles, is the match. */
  lemma {:induction false} LastContentAt(messages: seq<Message>, role: string, k: nat)
    requires k < |messages| && messages[k].role == role
    requires forall j | k < j < |messages| :: messages[j].role != role
    ensures LastContent(messages, role) == Some(messages[k].content)
  {
    if k < |messages| - 1 {
      var init := messages[..|messages| - 1];
      assert forall j | k < j < |init| :: init[j] == messages[j];
      LastContentAt(init, role, k);
    }
  }

  /** A message of any other role can be removed without changing the match. */
  lemma {:induction false} LastContentSkip(before: seq<Message>, m: Message, after: seq<Message>, role: string)
    requires m.role != role
    ensures LastContent(before + [m] + after, role) == LastContent(before + after, role)
  {
    if after == [] {
      assert (before + [m] + after)[..|before|] == before;
      assert before + after == before;
    } else {
      var init := after[..|after| - 1];
      assert (before + [m] + after)[..|before| + 1 + |init|] == before + [m] + init;
      assert (before + after)[..|before| + |init|] == before + init;
      LastContentSkip(before, m, init, role);
    }
  }

  /**
   * One pass over the messages: the last system message becomes `system`,
   * the last user message becomes `prompt`, and without a user message the
   * prompt stays the request's own rendered prompt.
   */
  method RequestOpenAI2Ollama(request: GeneralOpenAIRequest) returns (req: OllamaChatRequest)
    ensures req.model == request.model && req.stream == request.stream && req.template == ""
    ensures req.system == LastContent(request.messages, "system").GetOr("")
    ensures req.prompt == LastContent(request.messages, "user").GetOr(request.prompt)
  {
    var messages := request.messages;
    req := OllamaChatRequest(request.model, request.prompt, "", "", request.stream);
    var i := 0;
    while i < |messages|
      invariant 0 <= i <= |messages|
      invariant req.model == request.model && req.stream == request.stream && req.template == ""
      invariant req.system == LastContent(messages[..i], "system").GetOr("")
      invariant req.prompt == LastContent(messages[..i], "user").GetOr(request.prompt)
    {
      var message := messages[i];
      if message.role == "system" {
        req := req.(system := message.content);
      } else if message.role == "user" {
        req := req.(prompt := message.content);
      }
      assert messages[..i + 1][..i] == messages[..i];
      i := i + 1;
    }
    assert messages[..i] == messages;
  }
}

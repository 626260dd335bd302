/** `responseOllama2OpenAI` and `streamResponseOllama2OpenAI`. */
module ResponseMapping {
  import opened Wrappers
  import opened OllamaTypes

  /**
   * A whole Ollama reply as a chat completion with one assistant choice.
   * `created` is the clock reading the source takes at this point.
   */
  function ResponseOllama2OpenAI(response: OllamaChatResponse, created: int): (r: OpenAITextResponse)
    ensures r.objectType == "chat.completion" && r.created == created
    ensures |r.choices| == 1
    ensures r.choices[0].index == 0
    ensures r.choices[0].message.role == "assistant"
    ensures r.choices[0].message.content == response.response
    ensures r.choices[0].finishReason == StopFinishReason <==> response.done
    ensures !response.done ==> r.choices[0].finishReason == ""
    ensures r.usage == NoUsage
  {
    var finishReason := if response.done then StopFinishReason else "";
    var choice := OpenAITextResponseChoice(0, Message("assistant", response.response), finishReason);
    OpenAITextResponse("chat.completion", created, [] + [choice], NoUsage)
  }

  /**
   * One Ollama stream line as one chunk; the id is left empty and later
   * set by the relay.
   */
  function StreamResponseOllama2OpenAI(response: OllamaChatResponse, created: int): (r: ChatCompletionsStreamResponse)
    ensures r.id == "" && r.objectType == "chat.completion.chunk" && r.created == created
    ensures r.model == response.model
    ensures |r.choices| == 1
    ensures r.choices[0].index == 0
    ensures r.choices[0].deltaContent == response.response
    ensures r.choices[0].finishReason.Some? <==> response.done
    ensures r.choices[0].finishReason.Some? ==> r.choices[0].finishReason.value == StopFinishReason
  {
    var finishReason := if response.done then Some(StopFinishReason) else None;
    var choice := ChatCompletionsStreamResponseChoice(0, response.response, finishReason);
    ChatCompletionsStreamResponse("", "chat.completion.chunk", created, response.model, [choice])
  }

  /**
   * The two mappers agree: the single-shot content is the chunk's delta, and
   * the single-shot finish reason is "stop" exactly when the chunk has one.
   */
  lemma MappersAgree(response: OllamaChatResponse, created: int)
    ensures ResponseOllama2OpenAI(response, created).choices[0].message.content
         == StreamResponseOllama2OpenAI(response, created).choices[0].deltaContent
    ensures (ResponseOllama2OpenAI(response, created).choices[0].finishReason == StopFinishReason)
        <==> StreamResponseOllama2OpenAI(response, created).choices[0].finishReason.Some?
  {
  }
}

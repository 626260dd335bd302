/**
 * The records exchanged by the Ollama relay: the unified (OpenAI-shaped)
 * request and responses, and the Ollama generate request and response.
 * Only the fields the relay reads or writes are kept.
 */
module OllamaTypes {
  import opened Wrappers

  /** One byte of an HTTP body. */
  newtype byte = x: int | 0 <= x < 256

  type bytes = seq<byte>

  /** The line terminator searched for by the stream's split function. */
  const NL: byte := 10

  /** HTTP 500, the status of every error this relay wraps. */
  const StatusInternalServerError: int := 500

  /** The value of the shared `stopFinishReason` string. */
  const StopFinishReason: string := "stop"

  datatype Message = Message(role: string, content: string)

  /**
   * The unified chat request. `prompt` stands for the `%s` rendering of the
   * request's free-form prompt, which is taken as an opaque string.
   */
  datatype GeneralOpenAIRequest = GeneralOpenAIRequest(
    model: string,
    messages: seq<Message>,
    prompt: string,
    stream: bool)

  /** The Ollama generate request (context and options are never set here). */
  datatype OllamaChatRequest = OllamaChatRequest(
    model: string,
    prompt: string,
    system: string,
    template: string,
    stream: bool)

  /** One Ollama response unit: a whole reply, or one line of a stream. */
  datatype OllamaChatResponse = OllamaChatResponse(
    model: string,
    response: string,
    done: bool)

  datatype Usage = Usage(promptTokens: int, completionTokens: int, totalTokens: int)

  /** The zero `Usage` value. */
  const NoUsage: Usage := Usage(0, 0, 0)

  datatype OpenAITextResponseChoice = OpenAITextResponseChoice(
    index: int,
    message: Message,
    finishReason: string)

  /** `objectType` is the `object` field of the JSON document. */
  datatype OpenAITextResponse = OpenAITextResponse(
    objectType: string,
    created: int,
    choices: seq<OpenAITextResponseChoice>,
    usage: Usage)

  /** A stream choice; `finishReason` is a nullable pointer in the source. */
  datatype ChatCompletionsStreamResponseChoice = ChatCompletionsStreamResponseChoice(
    index: int,
    deltaContent: string,
    finishReason: Option<string>)

  datatype ChatCompletionsStreamResponse = ChatCompletionsStreamResponse(
    id: string,
    objectType: string,
    created: int,
    model: string,
    choices: seq<ChatCompletionsStreamResponseChoice>)

  /** The (message, code, status) triple that `errorWrapper` builds. */
  datatype OpenAIErrorWithStatusCode = OpenAIErrorWithStatusCode(
    message: string,
    code: string,
    statusCode: int)
}

/** `ollamaHandler`: relaying one complete Ollama reply as one JSON document. */
module SingleShot {
  import opened Wrappers
  import opened OllamaTypes
  import opened ResponseMapping

  /** `json.Unmarshal` of the whole body. */
  type Decoder = bytes -> Result<OllamaChatResponse, string>

  /** `json.Marshal` of the chat completion. */
  type TextEncoder = OpenAITextResponse -> Result<bytes, string>

  /** What is written to the client: status line, content type and body. */
  datatype HttpWrite = HttpWrite(statusCode: int, contentType: string, body: bytes)

  function Wrap(message: string, code: string): OpenAIErrorWithStatusCode
  {
    OpenAIErrorWithStatusCode(message, code, StatusInternalServerError)
  }

  /**
   * Read the body, close it, decode it, map it, encode it and write it,
   * returning at the first step that fails. `readAll` and `closeError` are
   * the outcomes of the two body operations; `upstreamStatus` is the
   * upstream response's status code. `closeCalls` counts calls of Close.
   */
  method OllamaHandler(readAll: Result<bytes, string>, closeError: Option<string>, decode: Decoder,
                       encode: TextEncoder, created: int, upstreamStatus: int)
    returns (err: Option<OpenAIErrorWithStatusCode>, usage: Option<Usage>, written: Option<HttpWrite>,
             closeCalls: nat)
    ensures err.Some? <==> usage.None?
    ensures err.Some? ==> written.None?
    ensures closeCalls == if readAll.Success? then 1 else 0
    ensures readAll.Failure? ==> err == Some(Wrap(readAll.error, "read_response_body_failed"))
    ensures readAll.Success? && closeError.Some? ==>
      err == Some(Wrap(closeError.value, "close_response_body_failed"))
    ensures readAll.Success? && closeError.None? && decode(readAll.value).Failure? ==>
      err == Some(Wrap(decode(readAll.value).error, "unmarshal_response_body_failed"))
    ensures readAll.Success? && closeError.None? && decode(readAll.value).Success? ==>
      var full := ResponseOllama2OpenAI(decode(readAll.value).value, created);
      (encode(full).Failure? ==> err == Some(Wrap(encode(full).error, "marshal_response_body_failed"))) &&
      (encode(full).Success? ==>
        err.None? && usage == Some(full.usage) &&
        written == Some(HttpWrite(upstreamStatus, "application/json", encode(full).value)))
  {
    closeCalls := 0;
    written := None;
    if readAll.Failure? {
      return Some(Wrap(readAll.error, "read_response_body_failed")), None, None, closeCalls;
    }
    var responseBody := readAll.value;
    closeCalls := closeCalls + 1;
    if closeError.Some? {
      return Some(Wrap(closeError.value, "close_response_body_failed")), None, None, closeCalls;
    }
    var ollamaResponse := decode(responseBody);
    if ollamaResponse.Failure? {
      return Some(Wrap(ollamaResponse.error, "unmarshal_response_body_failed")), None, None, closeCalls;
    }
    var fullTextResponse := ResponseOllama2OpenAI(ollamaResponse.value, created);
    var jsonResponse := encode(fullTextResponse);
    if jsonResponse.Failure? {
      return Some(Wrap(jsonResponse.error, "marshal_response_body_failed")), None, None, closeCalls;
    }
    written := Some(HttpWrite(upstreamStatus, "application/json", jsonResponse.value));
    err, usage := None, Some(fullTextResponse.usage);
  }
}

# Ollama relay translation layer, in Dafny

This project models the translation layer of one-api's Ollama channel
(`controller/relay-ollama.go`). That layer turns a unified, OpenAI-shaped
chat request into an Ollama generate request. On the way back it turns
Ollama replies into OpenAI chat completions, in two forms:

- a single JSON document, for `ollamaHandler`;
- a server-sent event stream, for `ollamaStreamHandler`.

In the event stream, each newline-delimited Ollama line becomes one
`data: <chunk>` event, and a final `data: [DONE]` event follows.

Modules, one per component of the file:

- `OllamaTypes`: the records. `byte`/`bytes` are the wire data (body, lines, events).
- `RequestMapping`: `requestOpenAI2Ollama`.
- `ResponseMapping`: `responseOllama2OpenAI` and `streamResponseOllama2OpenAI`.
- `LineFraming`: the scanner's split function, the scan over the body, and the reading task that drops short lines.
- `StreamRelay`: the `c.Stream` callback, as class `EventStream` with its captured `responseText` and rendered events. It also holds the streaming handler and the lemmas about the event sequence.
- `SingleShot`: `ollamaHandler`'s cascade of early returns.
- `Seqs`, `Wrappers`: helpers (`FlatMap`, `Option`, `Result`).

The model replaces several things with parameters of the handlers:

- JSON: `json.Unmarshal` and `json.Marshal` are function parameters that may fail (`Result`). JSON syntax is not modelled.
- The clock: a `created` timestamp.
- The UUID: a stream `id`.
- The body's I/O: the read result and the close result.

The reading goroutine and the emitting callback talk over unbuffered
channels. The model runs them in sequence instead:

- `ProduceLines` computes the lines the goroutine sends.
- The handler's loop feeds them to `EventStream.Step` in order, then the stop signal, until `Step` returns false.

The stop signal is only sent after the last line has been received, so this
gives the same event sequence.

## Model

| member | source | states |
|---|---|---|
| RequestMapping.RequestOpenAI2Ollama | controller/relay-ollama.go:45-61 | Model and Stream are copied, Template is empty. System is the content of the last "system" message, or "" if there is none. Prompt is the content of the last "user" message, or the rendered request prompt if there is none. |
| RequestMapping.LastContentNone | controller/relay-ollama.go:51-58 | No message is picked for a role exactly when no message has that role. |
| RequestMapping.LastContentAt | controller/relay-ollama.go:51-58 | The picked content is that of the last message with the role (last one wins). |
| RequestMapping.LastContentSkip | controller/relay-ollama.go:51-57 | Inserting a message of another role anywhere does not change what is picked for a role. |
| ResponseMapping.ResponseOllama2OpenAI | controller/relay-ollama.go:63-83 | Exactly one choice: index 0, role "assistant", content equal to the reply's `response`. Finish reason is "stop" if and only if `done`, otherwise "". Object is "chat.completion", the timestamp is the given one, usage is zero. |
| ResponseMapping.StreamResponseOllama2OpenAI | controller/relay-ollama.go:85-98 | Exactly one choice: index 0, delta content equal to `response`. A finish reason is present if and only if `done`, and then it is "stop". Model is copied, object is "chat.completion.chunk", id is still empty. |
| ResponseMapping.MappersAgree | controller/relay-ollama.go:68-90 | The single-shot and stream mappers agree on the content and on whether the reply finished. |
| LineFraming.IndexOf | controller/relay-ollama.go:109 | A non-negative result is a position that holds the byte, and no earlier position holds it. A result of -1 means no position holds it. |
| LineFraming.Split | controller/relay-ollama.go:105-116 | A token never contains a newline. When the data holds a newline, the token is everything before the first one and the split advances just past it. With no newline at end of input, the token is the whole remainder. With no newline before end of input, or empty data at end of input, there is no token and no advance. |
| LineFraming.IndexOfAbsent | controller/relay-ollama.go:109 | The search returns -1 exactly when the body chunk holds no newline, so the `i >= 0` test means a newline is present. |
| LineFraming.SplitChunking | controller/relay-ollama.go:105-116 | Before end of input no token is yielded while the data holds no newline. Once it holds one, the result is the same as at end of input with more bytes appended, so buffering does not change the tokens. |
| LineFraming.LinesUnfold | controller/relay-ollama.go:105-120 | Scanning at end of input yields the token `Split` returns, followed by the scan of what lies past its advance. When `Split` returns no token, the scan ends. |
| LineFraming.LinesEmpty | controller/relay-ollama.go:106-107 | The scan yields no token exactly for an empty body. |
| LineFraming.LinesHaveNoNewline | controller/relay-ollama.go:105-116 | No scanned token holds a newline. |
| LineFraming.LinesJoin | controller/relay-ollama.go:105-116 | Joining the scanned tokens with newlines restores the body. A trailing newline ends the last line and does not add an empty token. |
| LineFraming.LinesOfTerminated | controller/relay-ollama.go:105-116 | Scanning newline-terminated lines that contain no newline gives exactly those lines back. |
| LineFraming.KeptMembers | controller/relay-ollama.go:120-128 | A token is passed on if and only if it was scanned and is at least 5 bytes long. |
| LineFraming.KeptAppend | controller/relay-ollama.go:120-128 | Filtering distributes over concatenation, so surviving tokens keep their input order and are unchanged. |
| LineFraming.ProduceLines | controller/relay-ollama.go:119-131 | The lines sent to the emitter are the scanned tokens of at least 5 bytes, in scan order. |
| StreamRelay.ChunkOf | controller/relay-ollama.go:143-147 | Every emitted chunk carries the stream's id. It keeps the line's model and text, and has a finish reason exactly when the line is done. |
| StreamRelay.EventStream.Step | controller/relay-ollama.go:134-158 | A line that fails to decode changes nothing. A decoded line appends its `response` to the text. It then appends one `data: ` event if its chunk encodes, and none otherwise. The stop signal appends `data: [DONE]` and ends the loop. |
| StreamRelay.OllamaStreamHandler | controller/relay-ollama.go:100-165 | The events are the chunk events of the surviving lines, in order, followed by exactly one `data: [DONE]`. On a successful close, the text is the in-order concatenation of the decoded lines' `response` fields. On a failed close, the result is `close_response_body_failed`/500 with empty text. |
| StreamRelay.ChunkEventsFromLines | controller/relay-ollama.go:136-153 | Each chunk event is `data: ` followed by the encoding of the chunk of some decoded line, and that chunk carries the stream id. |
| StreamRelay.ChunkEventsAllValid | controller/relay-ollama.go:136-154 | When every line decodes and encodes, there is exactly one event per line, and event k comes from line k. |
| StreamRelay.UndecodableLineDropped | controller/relay-ollama.go:137-142 | A line that does not decode adds no event and no text, and the lines around it still relay. |
| StreamRelay.UnencodableLineKeepsText | controller/relay-ollama.go:144-152 | A decoded line whose chunk fails to encode adds no event, but its text is still accumulated. |
| StreamRelay.SingleDoneEvent | controller/relay-ollama.go:153-157 | When the encoder produces JSON objects, no chunk event equals the terminal event, so `data: [DONE]` occurs exactly once in the stream. |
| StreamRelay.MalformedLineResilience | controller/relay-ollama.go:119-158 | For lines valid, not-JSON, valid, the stream is two chunk events and then `data: [DONE]`. |
| SingleShot.OllamaHandler | controller/relay-ollama.go:167-200 | The first failing step decides the error, in this order: read, close, unmarshal, marshal. The codes are `read_response_body_failed`, `close_response_body_failed`, `unmarshal_response_body_failed` and `marshal_response_body_failed`, each with status 500 and the failure's message. On success the mapped reply is written with the upstream status and `application/json`, and its usage is returned. Close is called once, except after a failed read. |

## Behaviour of note

- After a failed close (controller/relay-ollama.go:160-163), the streaming handler returns an empty string and drops the accumulated text.
- The streaming handler closes the body only after `data: [DONE]` has been rendered (controller/relay-ollama.go:155-160). A failed close therefore comes after a complete event stream.
- `ollamaHandler` returns on a failed read without closing the body (controller/relay-ollama.go:170-172).
- `responseOllama2OpenAI` never fills `Usage` (controller/relay-ollama.go:63-83), so `ollamaHandler` always returns zero usage.
- A stream line whose chunk fails to encode emits no event, but its text is still accumulated. The text is added before marshalling (controller/relay-ollama.go:144-152).
- The scanner's error is never checked (controller/relay-ollama.go:120-130). A read error in mid-stream ends the scan the same way end of input does: the partial remainder becomes the last token, and `data: [DONE]` still follows with no error.

## Left out

- Goroutines, channels and `select`: the loop runs sequentially. Client disconnection (gin stopping the stream early) is not modelled.
- Gin rendering: events stay as their `Data` strings. `CustomEvent` framing, `setEventStreamHeaders` and the header writes are not modelled.
- The write error: the single-shot handler ignores the error of its final `Write`, so the model has no failure path after the write.
- `bufio.Scanner` buffering: `body` stands for the bytes delivered before end of input or a read error, wholly buffered, and `Split` is applied with `atEOF` true. `LineFraming.SplitChunking` shows why the tokens do not depend on how reads are chunked. Before end of input, the split function yields no token until a newline has arrived. Once one has, it yields the same token and advance as it would at end of input with any further bytes appended.
- The scanner's 64 KiB token limit: the early stop on an over-long line is not modelled.
- JSON: `encoding/json` is taken as parameters. `StreamRelay.SingleDoneEvent` assumes that every encoding starts with `{`, because `json.Marshal` of a struct does.
- `StreamRelay.OllamaStreamHandler`: the source reads `common.GetTimestamp` once per chunk, and the model uses one `created` value for the whole stream. `common.GetUUID` becomes the `id` parameter. `common.SysError` logging is dropped.
- Pass-through data: the time and duration counters, `CreatedAt`, `Context` and `Options` are never inspected, so they are left out. `Template` stays empty. The `Stream` pointer is a plain bool.
- The fallback prompt: its `fmt.Sprintf("%s", ...)` rendering is taken as an opaque string field of the request.
- The commented-out backend error check in `ollamaHandler`: it is not live code.
- Definitions outside this file: `errorWrapper`, `GeneralOpenAIRequest`, `Message`, `OpenAITextResponse`, the stream response types and `stopFinishReason` are not part of this model. They are represented by records with the fields this file uses: the error as a message/code/status triple, and `stopFinishReason` as "stop". There is one exception: the choices' `index` field is never set in this file. It stands for the zero value that the external choice types carry.

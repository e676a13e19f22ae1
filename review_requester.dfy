/** `askAi` (main.go:115-175): builds the chat-completion request for a diff and
    reads the reply out of the response. The HTTP POST (headers, JSON encoding
    and decoding) is a parameter: a function from the request to either a
    transport failure or the decoded list of choices. */
module ReviewRequester {
  import opened Wrappers

  /** The fixed system instruction of main.go:146. */
  const SystemPrompt: string := "Ты — эксперт по ревью кода. Сначала дай краткое общее представление о том, какие изменения произошли в коде. Далее дай представление по каждому файлу, какие изменения произошли там [Название файла][Путь к файлу][Код изменений]. Далее проверь внесенные изменения на: 1. Читаемость кода. 2. Нет ли повторяющегося кода, 3. соответствует ли код лучшим практикам написания кода. В конце заключение"

  datatype Message = Message(role: string, content: string)

  datatype Request = Request(model: string, messages: seq<Message>)

  datatype Choice = Choice(message: Message)

  /** What the POST gives back: an error from the transport, or the response
      decoded into its `choices`. */
  datatype PostResult = TransportFailed | Decoded(choices: seq<Choice>)

  datatype AiError = TransportError | NoChoices

  /** `askAi`'s two return values; `err` is `None` for a nil error. */
  datatype Reply = Reply(text: string, err: Option<AiError>)

  /** main.go:141-153: the model name and exactly two messages, the fixed system
      instruction and then the diff text as the user's message, verbatim. */
  function BuildRequest(model: string, body: string): (req: Request)
    ensures req.model == model && |req.messages| == 2
    ensures req.messages[0].role == "system" && req.messages[0].content == SystemPrompt
    ensures req.messages[1].role == "user" && req.messages[1].content == body
  {
    Request(model, [Message("system", SystemPrompt), Message("user", body)])
  }

  /** The request determines the diff text and the model: both are carried
      unchanged (the empty text included), so different inputs give different
      requests. */
  lemma RequestCarriesBody(model: string, body: string, model2: string, body2: string)
    ensures BuildRequest(model, body) == BuildRequest(model2, body2) <==> model == model2 && body == body2
  {
  }

  /** main.go:166-174: a transport failure, or a response without choices, is
      an error with ""; otherwise the first choice's content with no error. */
  function ExtractReply(post: PostResult): (r: Reply)
    ensures r.err.None? <==> post.Decoded? && |post.choices| > 0
    ensures r.err.None? ==> r.text == post.choices[0].message.content
    ensures r.err.Some? ==> r.text == ""
    ensures r.err == Some(NoChoices) <==> post == Decoded([])
  {
    match post
    case TransportFailed => Reply("", Some(TransportError))
    case Decoded(choices) =>
      if |choices| > 0 then Reply(choices[0].message.content, None)
      else Reply("", Some(NoChoices))
  }

  /** `askAi` with the POST as `complete`: the reply is the first choice the
      endpoint gives for the request `BuildRequest` makes from the diff text. */
  function AskAi(model: string, body: string, complete: Request -> PostResult): (r: Reply)
    ensures var post := complete(BuildRequest(model, body));
      && (r.err.None? <==> post.Decoded? && |post.choices| > 0)
      && (r.err.None? ==> r.text == post.choices[0].message.content)
      && (r.err.Some? ==> r.text == "")
      && (r.err == Some(NoChoices) <==> post == Decoded([]))
  {
    ExtractReply(complete(BuildRequest(model, body)))
  }

  /** Only the first choice matters; any further ones are ignored. */
  lemma LaterChoicesIgnored(first: Choice, rest1: seq<Choice>, rest2: seq<Choice>)
    ensures ExtractReply(Decoded([first] + rest1)) == ExtractReply(Decoded([first] + rest2))
    ensures ExtractReply(Decoded([first] + rest1)) == Reply(first.message.content, None)
  {
  }

  /** The two response examples: no choices is an error, one choice "ok" is "ok". */
  lemma ReplyExamples()
    ensures ExtractReply(Decoded([])) == Reply("", Some(NoChoices))
    ensures ExtractReply(Decoded([Choice(Message("assistant", "ok"))])) == Reply("ok", None)
  {
  }
}

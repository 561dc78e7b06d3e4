/** Decoding the language model's answer (server-ubuntu/services/geminiService.js). The model
    is asked for a JSON object that follows a response schema; its text is trimmed and parsed,
    and text that does not parse to an object is kept as a plain chat answer. `JSON.parse` is
    a parameter: any partial function from text to a parsed value. */
module ModelReply {
  import opened Wrappers
  import opened Text

  /** The ten values the response schema allows for `action`. */
  datatype Action =
    | Chat | CreateArticle | UpdateArticle | ListArticles | OpenBrowser
    | EnableTts | DisableTts | GetWeather | GeneratePlot | GenerateSchematic

  function ActionName(a: Action): (r: string) {
    match a
    case Chat => "CHAT"
    case CreateArticle => "CREATE_ARTICLE"
    case UpdateArticle => "UPDATE_ARTICLE"
    case ListArticles => "LIST_ARTICLES"
    case OpenBrowser => "OPEN_BROWSER"
    case EnableTts => "ENABLE_TTS"
    case DisableTts => "DISABLE_TTS"
    case GetWeather => "GET_WEATHER"
    case GeneratePlot => "GENERATE_PLOT"
    case GenerateSchematic => "GENERATE_SCHEMATIC"
  }

  /** The schema value a string names, if any. */
  function ActionOf(name: string): (r: Option<Action>)
    ensures r.Some? ==> ActionName(r.value) == name
  {
    if name == "CHAT" then Some(Chat)
    else if name == "CREATE_ARTICLE" then Some(CreateArticle)
    else if name == "UPDATE_ARTICLE" then Some(UpdateArticle)
    else if name == "LIST_ARTICLES" then Some(ListArticles)
    else if name == "OPEN_BROWSER" then Some(OpenBrowser)
    else if name == "ENABLE_TTS" then Some(EnableTts)
    else if name == "DISABLE_TTS" then Some(DisableTts)
    else if name == "GET_WEATHER" then Some(GetWeather)
    else if name == "GENERATE_PLOT" then Some(GeneratePlot)
    else if name == "GENERATE_SCHEMATIC" then Some(GenerateSchematic)
    else None
  }

  /** Each action has its own name, and reading the name back gives the action. */
  lemma ActionNameRoundTrip(a: Action, b: Action)
    ensures ActionOf(ActionName(a)) == Some(a)
    ensures ActionName(a) == ActionName(b) ==> a == b
  {
    assert ActionOf(ActionName(b)) == Some(b);
  }

  /** The fields of a decoded answer that the server reads; an absent field is `None`.
      `text` is not in the schema but is read as a fallback for `responseText`. */
  datatype Reply = Reply(
    action: Option<string>,
    responseText: Option<string>,
    text: Option<string>,
    filename: Option<string>,
    content: Option<string>)

  /** What `JSON.parse` yields: `null`, or a value whose fields are read as a `Reply`. */
  datatype Parsed = JsonNull | JsonValue(reply: Reply)

  /** What the chat call delivered: the answer's text, or the error it threw. */
  datatype ModelOutcome = Answered(text: string) | Threw(message: string)

  const EmptyResponseError: string := "Invalid or empty response from AI."

  /** The reply built when the text is not JSON: a chat answer carrying the text itself. */
  function ChatReply(text: string): (r: Reply) {
    Reply(Some(ActionName(Chat)), Some(text), None, None, None)
  }

  /** What the response schema requires: a known action and a response text. */
  predicate Conforms(r: Reply) {
    r.action.Some? && ActionOf(r.action.value).Some? && r.responseText.Some?
  }

  /** The decoding block of `sendMessage`. The text is trimmed and parsed. A parsed value is
      returned as it is, without checking it against the schema, except that `null` fails when
      its `action` is read and so takes the fallback. On the fallback, a non-empty text becomes
      a chat answer and an empty one is an error. */
  function DecodeReply(raw: string, parse: string -> Option<Parsed>): (r: Result<Reply, string>)
    ensures parse(Trim(raw)).Some? && parse(Trim(raw)).value.JsonValue? ==> r == Success(parse(Trim(raw)).value.reply)
    ensures r.Failure? <==> (parse(Trim(raw)).None? || parse(Trim(raw)).value.JsonNull?) && Trim(raw) == []
    ensures r.Failure? ==> r.error == EmptyResponseError
  {
    var jsonText := Trim(raw);
    match parse(jsonText)
    case Some(JsonValue(reply)) => Success(reply)
    case _ =>
      if jsonText != [] then Success(ChatReply(jsonText)) else Failure(EmptyResponseError)
  }

  /** `sendMessage(chat, message, imageFile)`: an error thrown by the chat call propagates;
      otherwise the answer is decoded. */
  function SendMessage(outcome: ModelOutcome, parse: string -> Option<Parsed>): (r: Result<Reply, string>)
    ensures outcome.Threw? ==> r == Failure(outcome.message)
    ensures outcome.Answered? ==> r == DecodeReply(outcome.text, parse)
  {
    match outcome
    case Threw(message) => Failure(message)
    case Answered(text) => DecodeReply(text, parse)
  }

  /** White space around the model's text never changes the outcome of decoding. */
  lemma DecodeIgnoresPadding(pre: string, s: string, post: string, parse: string -> Option<Parsed>)
    requires AllSpace(pre) && AllSpace(post)
    ensures DecodeReply(pre + s + post, parse) == DecodeReply(s, parse)
  {
    TrimOfPadded(pre, s, post);
  }

  /** The fallback: when the trimmed text does not parse to an object, a non-empty text
      becomes exactly a chat answer carrying it, which conforms to the schema. */
  lemma FallbackIsChat(raw: string, parse: string -> Option<Parsed>)
    requires parse(Trim(raw)).None? || parse(Trim(raw)).value.JsonNull?
    requires Trim(raw) != []
    ensures DecodeReply(raw, parse) == Success(ChatReply(Trim(raw)))
    ensures DecodeReply(raw, parse).value.action == Some("CHAT")
    ensures Conforms(DecodeReply(raw, parse).value)
  {
    assert ActionOf("CHAT") == Some(Chat);
  }

  /** A text made only of white space cannot be decoded, since `JSON.parse` rejects the empty
      text. */
  lemma BlankAnswerFails(raw: string, parse: string -> Option<Parsed>)
    requires AllSpace(raw) && parse([]).None?
    ensures DecodeReply(raw, parse) == Failure(EmptyResponseError)
  {
    TrimOfPadded(raw, [], []);
    assert raw + [] + [] == raw;
  }

  /** Any action other than a chat answer can only come from the parsed object itself. */
  lemma NonChatActionWasParsed(raw: string, parse: string -> Option<Parsed>)
    requires DecodeReply(raw, parse).Success? && DecodeReply(raw, parse).value.action != Some("CHAT")
    ensures parse(Trim(raw)) == Some(JsonValue(DecodeReply(raw, parse).value))
  {
  }
}

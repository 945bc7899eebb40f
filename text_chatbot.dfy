/**
 * The plain chatbot of lesson 01: a topic-specific developer prompt put in
 * front of the client's conversation, and a streamed reply made of the
 * upstream text fragments, ended by an `[ERROR]` line when the upstream
 * call fails.
 */
module TextChatbot {
  import opened Wrappers
  import opened Text
  import opened Requests
  import opened Upstream

  const MaxSpecialization: nat := 400
  const MaxMessages: nat := 40
  const MaxContent: nat := 10000

  /** The request body as received. */
  datatype RawChatRequest = RawChatRequest(specialization: string, messages: seq<RawMessage>)

  /** A validated `ChatRequest`. */
  datatype ChatRequest = ChatRequest(specialization: string, messages: seq<Message>)

  /**
   * The `ChatRequest` model: a specialization of 1 to 400 characters and
   * at most 40 messages, each from `user` or `assistant` with 1 to 10000
   * characters of content.
   */
  function ValidateRequest(raw: RawChatRequest): (r: Option<ChatRequest>)
    ensures r.Some? <==>
      1 <= |raw.specialization| <= MaxSpecialization && |raw.messages| <= MaxMessages &&
      forall i :: 0 <= i < |raw.messages| ==> ValidMessage(raw.messages[i], MaxContent)
    ensures r.Some? ==> r.value.specialization == raw.specialization && |r.value.messages| == |raw.messages|
    ensures r.Some? ==> forall i :: 0 <= i < |raw.messages| ==>
      RoleName(r.value.messages[i].role) == raw.messages[i].role && r.value.messages[i].content == raw.messages[i].content
  {
    if 1 <= |raw.specialization| <= MaxSpecialization then
      match ValidateMessages(raw.messages, MaxMessages, MaxContent)
      case None => None
      case Some(ms) => Some(ChatRequest(raw.specialization, ms))
    else None
  }

  const Intro: string := "You are a helpful chatbot specialized in the following topic:"

  /** The lines of the developer prompt that follow the topic line. */
  const RuleLines: seq<string> := [
    "",
    "Rules:",
    "- Be friendly and clear.",
    "- If the user asks something outside the TOPIC, politely say it's out of scope and steer back.",
    "- When you provide code, keep it minimal and runnable."
  ]

  /** The developer prompt: the introduction, the topic line, then the rules, one per line. */
  function DeveloperPrompt(specialization: string): string
  {
    Join([Intro, "TOPIC: " + specialization] + RuleLines, "\n")
  }

  /** Joining two lines in front of a non-empty list: each of them, then the separator. */
  lemma JoinTwoFront(a: string, b: string, rest: seq<string>, sep: string)
    requires rest != []
    ensures Join([a, b] + rest, sep) == a + sep + b + sep + Join(rest, sep)
  {
    var xs := [a, b] + rest;
    assert xs[1..] == [b] + rest;
    assert xs[1..][1..] == rest;
    Assoc(a + sep, b + sep, Join(rest, sep));
  }

  /** The prompt's first line is the introduction and its second is `TOPIC: ` and the specialization. */
  lemma DeveloperPromptTopic(specialization: string)
    ensures DeveloperPrompt(specialization) ==
      Intro + "\n" + ("TOPIC: " + specialization) + "\n" + Join(RuleLines, "\n")
  {
    JoinTwoFront(Intro, "TOPIC: " + specialization, RuleLines, "\n");
  }

  /**
   * `_build_messages`: the developer prompt, then the client's messages in
   * order with role and content unchanged.
   */
  function BuildMessages(req: ChatRequest): (r: seq<Message>)
    ensures |r| == 1 + |req.messages|
    ensures r[0] == Message(Developer, DeveloperPrompt(req.specialization))
    ensures r[1..] == req.messages
  {
    [Message(Developer, DeveloperPrompt(req.specialization))] +
    seq(|req.messages|, i requires 0 <= i < |req.messages| => Message(req.messages[i].role, req.messages[i].content))
  }

  /** The text appended when the upstream call raises. */
  function ErrorLine(message: string): string
  {
    "\n\n[ERROR] " + message + "\n"
  }

  /**
   * The pieces `generate` yields: every forwarded fragment, then the
   * error line if the upstream stream ended in an exception.
   */
  function StreamBody(u: Stream): seq<string>
  {
    Fragments(u) + (if u.failure.Some? then [ErrorLine(u.failure.value)] else [])
  }

  /**
   * Without an exception the body is the fragments, none of them empty;
   * with one, the fragments already forwarded are kept and the error line
   * comes last, once.
   */
  lemma StreamBodyShape(u: Stream)
    ensures var body := StreamBody(u);
      (u.failure.None? ==> body == Fragments(u) && forall i :: 0 <= i < |body| ==> body[i] != []) &&
      (u.failure.Some? ==>
        |body| == |Fragments(u)| + 1 && body[..|body| - 1] == Fragments(u) &&
        body[|body| - 1] == ErrorLine(u.failure.value))
  {
    FragmentsNonEmpty(u);
    if u.failure.None? {
      assert Fragments(u) + [] == Fragments(u);
    }
  }

  /** What `chat_stream` answers: the model input it sends upstream, and the pieces of the streamed body. */
  datatype Reply = Reply(input: seq<Message>, body: seq<string>)

  /**
   * `POST /api/chat/stream`: a body that fails validation gets 422, a
   * missing key 500; otherwise the developer prompt for the topic and the
   * client's messages go upstream, and the reply streams from the
   * upstream stream `u` opened with them.
   */
  function ChatStream(apiKey: string, raw: RawChatRequest, u: Stream): (r: Result<Reply, HttpError>)
    ensures r.Success? <==> ValidateRequest(raw).Some? && RequireKey(apiKey).None?
    ensures ValidateRequest(raw).None? ==> r == Failure(ValidationFailed)
    ensures ValidateRequest(raw).Some? && RequireKey(apiKey).Some? ==> r == Failure(HttpError(500, MissingKeyDetail))
    ensures r.Success? ==>
      |r.value.input| == 1 + |raw.messages| &&
      r.value.input[0] == Message(Developer, DeveloperPrompt(raw.specialization)) &&
      (forall i :: 0 <= i < |raw.messages| ==>
        RoleName(r.value.input[i + 1].role) == raw.messages[i].role &&
        r.value.input[i + 1].content == raw.messages[i].content) &&
      r.value.body == StreamBody(u)
  {
    match ValidateRequest(raw)
    case None => Failure(ValidationFailed)
    case Some(req) =>
      match RequireKey(apiKey)
      case Some(e) => Failure(e)
      case None => Success(Reply(BuildMessages(req), StreamBody(u)))
  }
}

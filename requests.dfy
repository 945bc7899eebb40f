/**
 * The request bodies both backends accept, as the pydantic models check
 * them before a handler runs, and the HTTP errors the handlers raise.
 */
module Requests {
  import opened Wrappers
  import opened Text

  /** A message author: the client may send `user` and `assistant`; the backends add `developer`. */
  datatype Role = Developer | User | Assistant

  function RoleName(r: Role): string
  {
    match r
    case Developer => "developer"
    case User => "user"
    case Assistant => "assistant"
  }

  /** The `Literal["user", "assistant"]` field: the roles a client may send. */
  function ParseRole(s: string): Option<Role>
  {
    if s == "user" then Some(User) else if s == "assistant" then Some(Assistant) else None
  }

  /** A client role parses back to itself, and only client role names parse. */
  lemma ParseRoleName(r: Role, s: string)
    ensures r != Developer ==> ParseRole(RoleName(r)) == Some(r)
    ensures ParseRole(s) == Some(r) ==> r != Developer && RoleName(r) == s
  {
  }

  /** A message as the JSON body carries it. */
  datatype RawMessage = RawMessage(role: string, content: string)

  /** A message with a known role; also the entries of the model input. */
  datatype Message = Message(role: Role, content: string)

  /** The `ChatMessage` model: a client role and a content of 1 to `maxContent` characters. */
  predicate ValidMessage(m: RawMessage, maxContent: nat)
  {
    ParseRole(m.role).Some? && 1 <= |m.content| <= maxContent
  }

  /** A list of `ChatMessage`: at most `maxCount` of them, each valid, kept in order. */
  function ValidateMessages(raw: seq<RawMessage>, maxCount: nat, maxContent: nat): (r: Option<seq<Message>>)
    ensures r.Some? <==> |raw| <= maxCount && forall i :: 0 <= i < |raw| ==> ValidMessage(raw[i], maxContent)
    ensures r.Some? ==> |r.value| == |raw|
    ensures r.Some? ==>
      forall i :: 0 <= i < |raw| ==> RoleName(r.value[i].role) == raw[i].role && r.value[i].content == raw[i].content
  {
    if |raw| <= maxCount && forall i :: 0 <= i < |raw| ==> ValidMessage(raw[i], maxContent) then
      Some(seq(|raw|, i requires 0 <= i < |raw| && ValidMessage(raw[i], maxContent) =>
        Message(ParseRole(raw[i].role).value, raw[i].content)))
    else None
  }

  /** An HTTP error response: status code and `detail`. */
  datatype HttpError = HttpError(status: nat, detail: string)

  /** The 422 FastAPI sends when the body fails validation; pydantic's list of errors is not modelled. */
  const ValidationFailed: HttpError := HttpError(422, "")

  /** What FastAPI answers when an exception escapes a handler. */
  const InternalError: HttpError := HttpError(500, "Internal Server Error")

  const MissingKeyDetail: string := "Missing OPENAI_API_KEY. Create .env from .env.example and set it."

  /**
   * The `if not OPENAI_API_KEY` guard: the key is read from the
   * environment and stripped, and an empty key fails with 500.
   */
  function RequireKey(apiKey: string): (r: Option<HttpError>)
    ensures r.None? <==> exists i :: 0 <= i < |apiKey| && !IsSpace(apiKey[i])
    ensures r.Some? ==> r.value == HttpError(500, MissingKeyDetail)
  {
    StripEnds(apiKey);
    if Strip(apiKey) == [] then Some(HttpError(500, MissingKeyDetail)) else None
  }
}

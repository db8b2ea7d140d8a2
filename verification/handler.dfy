/** `lambda_handler` and `create_error_response`: the HTTP envelope around a
    chat turn, with the request validation that precedes it. */
module Handler {
  import opened Maybe
  import opened Text
  import opened Json
  import Chat

  /** The request body as the handler reads it: `Unreadable` when it cannot
      be read as an object (JSON syntax error, `null`, an array, ...), which
      makes the `.get` calls raise; otherwise its `message` and `sessionId`
      entries. An event without a body reads as the empty object. */
  datatype RequestBody = Unreadable | Fields(message: Option<JsonValue>, sessionId: Option<JsonValue>)

  datatype Event = Event(httpMethod: Option<string>, body: RequestBody)

  datatype ResponseBody = EmptyBody | ErrorBody(error: string, success: bool) | ChatBody(result: Chat.ChatResult)

  /** An HTTP response; the CORS headers every response carries are left out. */
  datatype Response = Response(statusCode: int, body: ResponseBody)

  const MissingFieldsText: string := "Message/Session ID is missing"
  const InternalErrorPrefix: string := "Internal server error: "

  /** `create_error_response`: the status code with a body that reports the
      message as the error and `success: false`. */
  function CreateErrorResponse(statusCode: int, message: string): (r: Response)
    ensures r.statusCode == statusCode
    ensures r.body.ErrorBody? && r.body.error == message && !r.body.success
  {
    Response(statusCode, ErrorBody(message, false))
  }

  /** `body.get('message', '').strip()`: the stripped text, or `None` when the
      entry is not a string and `strip` raises. */
  function MessageText(field: Option<JsonValue>): (r: Option<string>)
    ensures r.Some? <==> MessageReadable(field)
    ensures r == Some("") <==> MessageBlank(field)
    ensures r.Some? && field.Some? ==> r.value == Strip(field.value.s)
  {
    match field
    case None => Some("")
    case Some(JString(s)) => Some(Strip(s))
    case Some(_) => None
  }

  /** The message entry can be stripped: absent or a string. */
  predicate MessageReadable(field: Option<JsonValue>) {
    field.None? || field.value.JString?
  }

  /** The message entry is absent or nothing but whitespace. */
  predicate MessageBlank(field: Option<JsonValue>) {
    field.None? || (field.value.JString? && AllSpace(field.value.s))
  }

  predicate IsOptions(event: Event) {
    event.httpMethod == Some("OPTIONS")
  }

  /** `lambda_handler`. `freshSessionId` stands for `str(uuid.uuid4())`,
      `clientsReady` for whether the AWS clients could be created, and
      `exceptionText` for the text of whichever exception is caught.
      A preflight gets 200 and an empty body. An unreadable body or a
      non-string message is a 500. A blank message, or a `sessionId` that is
      present but empty or null, is a 400; a missing `sessionId` takes the
      fresh one. A valid request is a 500 if the clients cannot be created,
      and otherwise a 200 carrying the chat turn's result for the stripped
      message. */
  function LambdaHandler(
    event: Event, freshSessionId: string, clientsReady: bool, exceptionText: string,
    env: Chat.Services): (r: Response)
    ensures IsOptions(event) ==> r == Response(200, EmptyBody)
    ensures r.statusCode == 200 || r.statusCode == 400 || r.statusCode == 500
    ensures r.statusCode != 200 ==> r.body.ErrorBody? && !r.body.success
    ensures r.statusCode == 400 <==>
              && !IsOptions(event)
              && event.body.Fields?
              && MessageReadable(event.body.message)
              && (MessageBlank(event.body.message)
                  || !Truthy(event.body.sessionId.GetOr(JString(freshSessionId))))
    ensures r.statusCode == 400 ==> r.body.error == MissingFieldsText
    ensures r.statusCode == 500 ==> InternalErrorPrefix <= r.body.error
    ensures r.statusCode == 500 <==>
              && !IsOptions(event)
              && (event.body.Unreadable?
                  || !MessageReadable(event.body.message)
                  || (!MessageBlank(event.body.message)
                      && Truthy(event.body.sessionId.GetOr(JString(freshSessionId)))
                      && !clientsReady))
    ensures r.statusCode == 200 && !IsOptions(event) ==>
              && event.body.Fields?
              && event.body.message.Some? && event.body.message.value.JString?
              && var sessionId := event.body.sessionId.GetOr(JString(freshSessionId));
                 r.body == ChatBody(Chat.ProcessChatRequest(Strip(event.body.message.value.s), sessionId, env).result)
  {
    if IsOptions(event) then Response(200, EmptyBody)
    else
      match event.body
      case Unreadable => CreateErrorResponse(500, InternalErrorPrefix + exceptionText)
      case Fields(messageField, sessionField) =>
        match MessageText(messageField)
        case None => CreateErrorResponse(500, InternalErrorPrefix + exceptionText)
        case Some(message) =>
          var sessionId := sessionField.GetOr(JString(freshSessionId));
          if message == "" || !Truthy(sessionId) then CreateErrorResponse(400, MissingFieldsText)
          else if !clientsReady then CreateErrorResponse(500, InternalErrorPrefix + exceptionText)
          else
            var result := Chat.ProcessChatRequest(message, sessionId, env).result;
            Response(200, ChatBody(result))
  }

  /** A request without a `sessionId` is served under the fresh id rather
      than refused. */
  lemma MissingSessionIdDefaults(
    event: Event, freshSessionId: string, exceptionText: string, env: Chat.Services)
    requires !IsOptions(event)
    requires event.body.Fields? && event.body.sessionId.None?
    requires event.body.message.Some? && event.body.message.value.JString?
    requires !AllSpace(event.body.message.value.s)
    requires freshSessionId != ""
    ensures var r := LambdaHandler(event, freshSessionId, true, exceptionText, env);
            && r.statusCode == 200
            && r.body.ChatBody?
            && r.body.result.sessionId == JString(freshSessionId)
  {
  }
}

/** `OrcuttChatbot.process_chat_request`: one chat turn, from the user's
    message to the result returned to the client and the exchange written
    to the conversation table. Every AWS call is an input: its answer (or
    its failure) is a field of `Services`. */
module Chat {
  import opened Maybe
  import Json
  import opened History
  import opened Persistence
  import opened Classification
  import Guardrail
  import opened KnowledgeBase
  import S3Uri

  /** The answer model, given the question, the knowledge-base context and
      the conversation context (the prompt built from them is left out):
      its text, or `None` when the call or the decoding raises. */
  type AnswerModel = (string, string, string) -> Option<string>

  /** What the AWS services and the environment answer during one turn. */
  datatype Services = Services(
    history: HistoryQuery,
    classifierText: Option<string>,
    guardrailId: Option<string>,
    guardrail: Guardrail.GuardrailCall,
    knowledgeBaseId: Option<string>,
    retrieval: Option<seq<RetrievalResult>>,
    signer: S3Uri.Signer,
    answerModel: AnswerModel,
    count: CountQuery,
    clockSeconds: nat,
    now: string)

  datatype ChatResult = ChatResult(
    success: bool,
    response: string,
    sessionId: Json.JsonValue,
    queryType: string,
    sources: seq<Source>)

  /** The result and the exchange saved for it (the save's own failures are
      swallowed, so this is the item the turn attempts to write). */
  datatype ChatOutcome = ChatOutcome(result: ChatResult, saved: SavedExchange)

  const BlockedText: string := "Please keep your questions appropriate and school-related."
  const ErrorText: string :=
    "I'm sorry, I encountered an error while processing your request. Please try again."
  const AnswerFailedText: string :=
    "I'm sorry, I encountered an error while processing your request. Please try again or contact the school directly for assistance."
  const GreetingText: string :=
    "Hello! I'm here to help you with information about our schools. Ask me about:\n\n"
    + "- Academic programs and curriculum\n"
    + "- School hours and schedules  \n"
    + "- Contact information and staff directory\n"
    + "- Sports and extracurricular activities\n"
    + "- Transportation and bus routes\n"
    + "- Lunch menus and nutrition\n"
    + "- School calendar and events\n"
    + "- Enrollment and registration\n"
    + "- School policies and procedures\n\n"
    + "What would you like to know about Orcutt Schools?"
  const FarewellText: string :=
    "Thank you for using the Orcutt Schools Assistant! If you have any more questions about our schools, feel free to ask anytime. Have a great day!"

  const BlockedLabel: string := "blocked"
  const ErrorLabel: string := "error"

  /** `generate_response`: a fixed text per greeting and farewell; otherwise
      the answer model's text, or a fixed apology when it fails. */
  function GenerateResponse(
    query: string, context: string, queryType: QueryType, conversationContext: string,
    model: AnswerModel): (text: string)
    ensures queryType == Greeting ==> text == GreetingText
    ensures queryType == Farewell ==> text == FarewellText
    ensures queryType == KnowledgeBase ==>
              text == model(query, context, conversationContext).GetOr(AnswerFailedText)
  {
    match queryType
    case Greeting => GreetingText
    case Farewell => FarewellText
    case KnowledgeBase => model(query, context, conversationContext).GetOr(AnswerFailedText)
  }

  /** The guardrail blocks the message. */
  predicate Blocked(env: Services) {
    !Guardrail.Truthy(Guardrail.ApplyBedrockGuardrails(env.guardrailId, env.guardrail))
  }

  /** The turn consults the knowledge base: not blocked, classified as a
      knowledge-base question, and `KNOWLEDGE_BASE_ID` is set. */
  predicate ConsultsKnowledgeBase(env: Services) {
    && !Blocked(env)
    && ClassifyQuery(env.classifierText) == KnowledgeBase
    && EnvSet(env.knowledgeBaseId)
  }

  function Turn(
    success: bool, response: string, sessionId: Json.JsonValue, queryType: string,
    sources: seq<Source>, message: string, env: Services): ChatOutcome
  {
    ChatOutcome(
      ChatResult(success, response, sessionId, queryType, sources),
      SaveConversation(message, response, queryType, env.count, env.clockSeconds, env.now))
  }

  /** `process_chat_request`. A blocked message gets the fixed refusal; a
      knowledge-base result that raises gets the fixed apology; both report
      failure with no sources. Otherwise the turn succeeds with the
      classified category, the knowledge-base sources when it consulted the
      knowledge base (none otherwise) and the generated answer, which for a
      question is the answer model's reply to the message, the knowledge-base
      context and the last six messages of history. Every turn saves the
      user's message with the reply and category returned. */
  function ProcessChatRequest(message: string, sessionId: Json.JsonValue, env: Services): (out: ChatOutcome)
    ensures out.result.sessionId == sessionId
    ensures Blocked(env) <==> env.guardrailId.Some? && env.guardrailId.value != ""
                               && env.guardrail == Guardrail.Answered(Some(Guardrail.Intervened))
    ensures out.result.success <==>
              !Blocked(env)
              && !(ConsultsKnowledgeBase(env)
                   && ProcessKnowledgeBaseResponse(env.retrieval, env.signer).MissingMetadata?)
    ensures !out.result.success ==> out.result.sources == []
    ensures Blocked(env) ==> out.result.response == BlockedText && out.result.queryType == BlockedLabel
    ensures !Blocked(env) && !out.result.success ==>
              out.result.response == ErrorText && out.result.queryType == ErrorLabel
    ensures out.result.success ==>
              && out.result.queryType == Name(ClassifyQuery(env.classifierText))
              && out.result.queryType != BlockedLabel && out.result.queryType != ErrorLabel
    ensures out.result.success && !ConsultsKnowledgeBase(env) ==> out.result.sources == []
    ensures out.result.success && ConsultsKnowledgeBase(env) ==>
              out.result.sources == ProcessKnowledgeBaseResponse(env.retrieval, env.signer).sources
    ensures out.result.success && ClassifyQuery(env.classifierText) == Greeting ==>
              out.result.response == GreetingText
    ensures out.result.success && ClassifyQuery(env.classifierText) == Farewell ==>
              out.result.response == FarewellText
    ensures out.result.success && ClassifyQuery(env.classifierText) == KnowledgeBase ==>
              var kbContext := if ConsultsKnowledgeBase(env)
                               then ProcessKnowledgeBaseResponse(env.retrieval, env.signer).context else "";
              var conversation := FormatConversationContext(GetConversationHistory(env.history));
              out.result.response == env.answerModel(message, kbContext, conversation).GetOr(AnswerFailedText)
    ensures out.saved.userMessage == message
    ensures out.saved.assistantResponse == out.result.response
    ensures out.saved.queryType == out.result.queryType
    ensures out.saved.messageId == NextMessageId(env.count, env.clockSeconds)
    ensures out.saved.timestamp == env.now
  {
    var history := GetConversationHistory(env.history);
    var queryType := ClassifyQuery(env.classifierText);
    var inputAllowed := Guardrail.ApplyBedrockGuardrails(env.guardrailId, env.guardrail);
    if !Guardrail.Truthy(inputAllowed) then
      Turn(false, BlockedText, sessionId, BlockedLabel, [], message, env)
    else
      var kb :=
        if queryType == KnowledgeBase && EnvSet(env.knowledgeBaseId)
        then ProcessKnowledgeBaseResponse(env.retrieval, env.signer)
        else Processed("", []);
      match kb
      case MissingMetadata(_) =>
        Turn(false, ErrorText, sessionId, ErrorLabel, [], message, env)
      case Processed(context, sources) =>
        var conversationContext := FormatConversationContext(history);
        var responseText := GenerateResponse(message, context, queryType, conversationContext, env.answerModel);
        Turn(true, responseText, sessionId, Name(queryType), sources, message, env)
  }
}

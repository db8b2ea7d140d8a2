# Orcutt Schools chat backend, modelled in Dafny

This project models the AWS Lambda behind the Orcutt Schools chatbot
(`src/backend/lambda_function.py`). One request runs through these steps:

- `lambda_handler` validates the HTTP event and wraps the result in a
  response.
- `process_chat_request` runs one chat turn:
  1. it reads the session's recent exchanges from the conversation table;
  2. a classifier model sorts the message into greeting, farewell or
     knowledge-base question;
  3. a Bedrock guardrail may block the message;
  4. for a question, it retrieves passages from the knowledge base and
     turns them into prompt context and cited sources (with presigned S3
     links);
  5. it produces the answer (a canned text, or the answer model's reply);
  6. it writes the exchange back under a `conv{n}` message id.

Every AWS call is an input to the model. A call that answers with data
becomes a value: the history query's items, the classifier's text, the
guardrail's action, the retrieval results and the count query's `Count`.
A call that takes arguments from the turn becomes a total function: the
S3 signer `(bucket, key) -> link` and the answer model
`(question, kb context, conversation context) -> text`. A call that raises
becomes `None` or a dedicated constructor. Environment variables are
`Option<string>` inputs, and Python's "set and non-empty" test is
`Maybe.EnvSet`.

Modules, leaves first:

- `Maybe`: `Option` and the environment-variable test.
- `Text`: the Python string built-ins the lambda relies on. These are
  `str.strip()` (the full `str.isspace` set), `str.lower()`,
  `split('/')`, `'/'.join`, `split('/')[-1]`, and `str(n)`/`int(s)` for
  natural numbers.
- `Json`: request-body values and their truthiness.
- `S3Uri`: splitting `s3://bucket/key` and asking the signer for a link.
- `History`: `get_conversation_history` and `format_conversation_context`.
- `Persistence`: `get_next_message_id` and the item
  `save_conversation_to_dynamodb` writes.
- `Classification`: `classify_query_with_nova`.
- `Guardrail`: `apply_bedrock_guardrails`, including the tuple `(True, [])`
  it returns when no guardrail is configured.
- `KnowledgeBase`: `process_knowledge_base_response`.
- `Chat`: `generate_response` and `process_chat_request`.
- `Handler`: `lambda_handler` and `create_error_response`.

Two behaviours of the code shape the result type:

- A blocked turn (lines 131-141) and a failed turn (lines 173-183) both
  come back inside a 200 response, with `success: false` in the body.
  Only `lambda_handler` itself answers 400 or 500.
- Line 425 reads `result['metadata']` without a guard, so a retrieval
  result that has text but no `metadata` raises `KeyError`. The
  `except` at line 173 catches it and returns the error turn. The model
  keeps this behaviour as `KbOutcome.MissingMetadata`.

## Model

| member | source | states |
|---|---|---|
| Handler.LambdaHandler | src/backend/lambda_function.py:18-55 | A preflight OPTIONS request gets 200 with an empty body. The only statuses are 200, 400 and 500. Every non-200 status carries an error body with `success: false`. The status is 400 exactly when the body is readable and the message is a string or absent, and then the message is blank or the `sessionId` is falsy. The status is 500 exactly when the body is unreadable, the message is not a string, or the request is valid but the AWS clients cannot be created. A 200 carries the chat turn for the stripped message under the given or freshly generated session id. |
| Handler.CreateErrorResponse | src/backend/lambda_function.py:72-81 | The response has the given status and a body whose `error` is the message and whose `success` is false. |
| Handler.MessageText | src/backend/lambda_function.py:36 | The message can be read exactly when it is absent or a string. It reads as empty exactly when it is absent or all whitespace. A string reads as its stripped text. |
| Handler.MissingSessionIdDefaults | src/backend/lambda_function.py:36-46 | A request with a non-blank message and no `sessionId` is served, not refused, under the fresh session id. |
| Chat.ProcessChatRequest | src/backend/lambda_function.py:117-183 | The session id is echoed. The turn fails exactly when the guardrail blocks the message, or when the knowledge base is consulted and a leading result with text has no metadata. A failed turn has no sources. A blocked turn returns the fixed refusal labelled `blocked`. Any other failure returns the fixed apology labelled `error`. A successful turn is labelled with the classified category. Its sources are the knowledge-base sources when the knowledge base was consulted and empty otherwise. A greeting gets the greeting text and a farewell the farewell text. A question gets the answer model's reply to the message, the knowledge-base context and the formatted history, or the model-failure apology. The saved item holds the user's message, the reply and category returned, the next message id and the clock's timestamp. |
| Chat.GenerateResponse | src/backend/lambda_function.py:492-573 | A greeting gets the fixed list of topics and a farewell the fixed thanks. A knowledge-base question gets the answer model's text, or the fixed apology when the call fails. |
| Guardrail.ApplyBedrockGuardrails | src/backend/lambda_function.py:338-362 | The value is falsy exactly when `GUARDRAIL_ID` is set and the call answered `GUARDRAIL_INTERVENED`, and a falsy value is the plain `False`. An unset guardrail, a raised call, a missing action or any other action lets the message through. |
| Classification.ClassifyQuery | src/backend/lambda_function.py:324-336 | The result is always one of the three valid categories. It is `greeting` or `farewell` exactly when the stripped, lower-cased model text equals that name. A failed call gives `knowledge_base`. |
| Classification.FromName | src/backend/lambda_function.py:328-332 | A category is found exactly when the text is in the valid list, and the name of the category found is that text. |
| Classification.ClassifyName | src/backend/lambda_function.py:325-330 | A model that answers with a category's exact name gets that category. |
| Classification.ClassifyNormalised | src/backend/lambda_function.py:325 | Stripping the model's text, or lower-casing it, first does not change the classification. |
| History.GetConversationHistory | src/backend/lambda_function.py:185-215 | A raised query, or an item missing an attribute, gives the empty history. Otherwise there are two messages per stored item, in chronological order (the reverse of the newest-first query order). Message 2j is the user message and message 2j+1 the assistant response of the j-th oldest item, each stamped with that item's timestamp. |
| History.HistoryAlternates | src/backend/lambda_function.py:197-210 | The history has even length, roles alternate user then assistant, and each pair shares its timestamp. |
| History.HistoryBounded | src/backend/lambda_function.py:188-191 | With the query's limit of six items, the history holds at most twelve messages. |
| History.StoredItemsOrigin | src/backend/lambda_function.py:195 | A raised query, or an answer without `Items`, reads as no items. Any items read come from an answer that carried exactly them. |
| History.ReverseAppend | src/backend/lambda_function.py:195 | Reversing a concatenation reverses both parts and swaps them, so the older items end up before the newer ones. |
| History.ReverseReverse | src/backend/lambda_function.py:195 | Reversing twice gives the list back. |
| History.Turns | src/backend/lambda_function.py:197-210 | The loop over the chronological items yields two messages per item. |
| History.TurnsAt | src/backend/lambda_function.py:197-210 | Item j becomes message 2j, its user message, and message 2j+1, its assistant response, both under the item's timestamp. |
| History.Recent | src/backend/lambda_function.py:266 | The window is the whole history when it has at most six messages, and otherwise its last six messages. |
| History.FormatConversationContext | src/backend/lambda_function.py:260-274 | The context is empty exactly when the history is. |
| History.Render | src/backend/lambda_function.py:268-272 | Rendering a non-empty list of messages gives non-empty text. |
| History.RenderSplitsIntoLines | src/backend/lambda_function.py:268-272 | When no content holds a newline, the rendered text splits at newlines into exactly one line per message, in order, followed by the empty piece after the final newline. Each line is `Human: ` for a user message or `Assistant: ` for any other role, then the content. |
| History.FormatContextLines | src/backend/lambda_function.py:260-274 | When no content holds a newline, the context splits at newlines into the lines of the last six messages (all of them when there are fewer), in order, then the empty piece after the final newline. |
| History.RenderAppend | src/backend/lambda_function.py:268-272 | Rendering a concatenation of messages renders the parts one after the other. |
| History.FormatContextIgnoresOlder | src/backend/lambda_function.py:265-266 | Messages older than the last six never reach the prompt. |
| History.ContextShowsNewestExchanges | src/backend/lambda_function.py:185-274 | A six-item query window and a six-message prompt window together mean the prompt shows exactly the newest three exchanges, oldest first, as `Human:`/`Assistant:` lines. When there are fewer than three, it shows all of them. |
| History.NewestExchangeLast | src/backend/lambda_function.py:194-210 | The newest stored exchange ends the history: its user message, then its response. |
| History.ContextEndsWithNewest | src/backend/lambda_function.py:260-274 | The newest stored exchange's two lines end the prompt's conversation context. |
| Persistence.NextMessageId | src/backend/lambda_function.py:243-258 | A counted id is `conv` followed by decimal digits that read back as the stored count plus one, with a missing count read as zero. When the count query raises, the id is `msg` followed by digits that read back as the clock's seconds. |
| Persistence.MessageIdsDistinct | src/backend/lambda_function.py:252-258 | Different counts give different ids, and a counted id never equals a clock-based fallback id. |
| Persistence.SaveConversation | src/backend/lambda_function.py:217-238 | The saved item holds the user's message, the reply, the category and the timestamp passed in. |
| Persistence.ReadBack | src/backend/lambda_function.py:227-236 | A saved item has every attribute the history query reads. It reads back as the user message and the assistant response under the saved timestamp. |
| Persistence.SavedExchangeEndsHistory | src/backend/lambda_function.py:217-238 | Once an exchange is saved and becomes the session's newest item, the next turn's history ends with its user message and reply. The next prompt's conversation context ends with the matching `Human:` and `Assistant:` lines. |
| KnowledgeBase.ProcessKnowledgeBaseResponse | src/backend/lambda_function.py:412-469 | A response without `retrievalResults` gives no context and no sources. Otherwise the leading results that have text each give one context paragraph and one source, in order. The loop stops at the first result without text. It raises exactly when one of those leading results has no metadata, and it reports the first such result. |
| KnowledgeBase.Gather | src/backend/lambda_function.py:421-466 | From position i on, the loop finishes exactly when every remaining leading result with text has metadata. The sources are position-wise the source records of those results, and the context is their paragraphs concatenated. When the loop fails, the failing position is the first one without metadata. |
| KnowledgeBase.ValidPrefix | src/backend/lambda_function.py:421-466 | Every result before the cut has text, and the result at the cut has none. |
| KnowledgeBase.SourceOf | src/backend/lambda_function.py:437-462 | A result without an S3 location gives only the label `Source {i+1}`. Otherwise the source is named after the URI's last `/`-piece. It carries the URI and the metadata's `source` link. Its presigned link is the signer's link, pointed at the page. |
| KnowledgeBase.SourceLabelNumber | src/backend/lambda_function.py:433-438 | A label is `Source ` followed by decimal digits that read back as the result's one-based position. |
| KnowledgeBase.SourceLabelsDistinct | src/backend/lambda_function.py:433-438 | Results at different positions get different labels. |
| KnowledgeBase.ContextEntryFields | src/backend/lambda_function.py:425-433 | Read back field by field, a context paragraph is: `[`, the result's label and `]: Meeting Date: `; then the metadata's `meeting_date`, or `NA` when it has none; then a space; then the passage; then a blank line (`\n\n`). |
| KnowledgeBase.PageUrl | src/backend/lambda_function.py:453-458 | The link is present exactly when the signed link is. It gains `#page=n` exactly when the page number is non-zero and the link non-empty, and otherwise it is unchanged. |
| S3Uri.SplitS3Uri | src/backend/lambda_function.py:474-479 | There is no address exactly when the URI lacks `s3://`. The bucket never holds `/`. A path with no `/` is all bucket with an empty key. Otherwise the URI is `s3://` followed by the bucket, `/` and the key. |
| S3Uri.SplitS3UriRoundTrip | src/backend/lambda_function.py:477-479 | Splitting `s3://bucket/key` recovers the bucket and the key, whatever `/`s the key holds. |
| S3Uri.GeneratePresignedUrl | src/backend/lambda_function.py:471-490 | A URI without `s3://` gets no link. |
| S3Uri.PresignedUrlSignsObject | src/backend/lambda_function.py:477-487 | The link for `s3://bucket/key` is the signer's link for exactly that bucket and key. |
| Text.Strip | src/backend/lambda_function.py:36 | The result is empty exactly when the input is all whitespace. Otherwise it starts and ends with a non-space. It is the slice of the input that follows the leading whitespace and precedes all-whitespace. |
| Text.StripPadded | src/backend/lambda_function.py:36 | Stripping whitespace padding from around a core with non-space ends gives the core back. |
| Text.StripIdempotent | src/backend/lambda_function.py:325 | Stripping twice is stripping once. |
| Text.Lower | src/backend/lambda_function.py:325 | Lower-casing keeps the length and the whitespace positions, and leaves no ASCII capital. Every character that is neither an ASCII capital nor the Kelvin sign stays as it was. |
| Text.LowerChar | src/backend/lambda_function.py:325 | The result is never an ASCII capital, and it is whitespace exactly when the input is. |
| Text.StripLower | src/backend/lambda_function.py:325 | Stripping and lower-casing commute. |
| Text.LowerIdempotent | src/backend/lambda_function.py:325 | Lower-casing twice is lower-casing once. |
| Text.Split | src/backend/lambda_function.py:478 | There is at least one piece, and no piece holds the separator. |
| Text.JoinShape | src/backend/lambda_function.py:479 | An empty list joins to the empty string. Otherwise the join starts with the first piece and ends with the last. When there is a second piece, a separator directly follows the first. |
| Text.JoinSplit | src/backend/lambda_function.py:479 | Joining the pieces of a split with the separator gives the string back. |
| Text.SplitJoin | src/backend/lambda_function.py:479 | Splitting a join of separator-free pieces gives the pieces back. |
| Text.SplitSingle | src/backend/lambda_function.py:478 | A string splits into one piece exactly when it holds no separator. |
| Text.SplitCount | src/backend/lambda_function.py:478 | There is one more piece than there are separators. |
| Text.LastSegment | src/backend/lambda_function.py:448 | The last piece is a separator-free suffix of the string, preceded by a separator whenever it is shorter than the string. |
| Text.NatToString | src/backend/lambda_function.py:254 | The rendering is non-empty and all decimal digits, with no leading zero except for zero itself. |
| Text.ParseNatToString | src/backend/lambda_function.py:254 | Reading the rendered digits back gives the number. |
| Text.NatToStringInjective | src/backend/lambda_function.py:254 | Distinct numbers render differently. |

## Left out

- `query_knowledge_base_semantic` (lines 364-410) is not modelled as a computation. Its answer is the `retrieval` input: `None` stands for the `{}` it returns on failure, and the results are passed on in their original order. The z-score computation (`calculate_zscores`, lines 83-91) needs floating point. Its filtered list is also never used, because line 403 is commented out.
- The 8000-character context budget (lines 418-419, 434) is never applied in the source, so it is left out.
- Response times (`responseTime`, `response_time_seconds`, `round`, `Decimal`, `decimal_default`) are clock readings and are left out of results and saved items. The saved item's `created_at` equals its `timestamp`.
- The session id under which an item is saved and queried is not part of the model. `save_conversation_to_dynamodb` is modelled by what it attempts to write. Its swallowed failure and `put_item` itself are left out.
- The `sources` argument to `save_conversation_to_dynamodb` is never stored, so it is left out.
- `uuid.uuid4()`, `time.time()`, `datetime.now()` and `date.today()` are inputs (`freshSessionId`, `clockSeconds`, `now`) or are left out.
- The prompt texts sent to the classifier and to the answer model, the model ids, and the inference parameters are left out. The answer model is a function of the question, the knowledge-base context and the conversation context.
- `json.loads`/`json.dumps`, the CORS headers, the `AWS_REGION` default and the `print` logging are left out. A body that does not decode to an object is `RequestBody.Unreadable`.
- `GUARDRAIL_VERSION` and the `source='INPUT'` argument only shape the guardrail call, which is an input.
- The presigned link's 3600-second expiry belongs to the signer input.
- Text.LowerChar: lower-cases only ASCII capitals and the Kelvin sign U+212A, not the full Unicode mapping of `str.lower()`. For every other character, the lower case still contains a non-ASCII character: for example, U+0130 becomes `i` followed by U+0307. So membership in the three ASCII category names is decided exactly.
- KnowledgeBase.PageUrl: the page number is a natural number rendered as plain decimal digits. The source never fixes its type, and `f"{page_number}"` at line 456 renders any other value differently. A float page such as `1.0` becomes `#page=1.0`, and a string page is copied as it is. Those renderings, and the truthiness of such values, are not modelled.
- S3Uri.GeneratePresignedUrl: states only the non-S3 case in its own contract. The signed case is stated by `S3Uri.PresignedUrlSignsObject` for every well-formed URI.
- History.GetConversationHistory: an item missing an attribute raises `KeyError`, which the method catches and turns into the empty history. The model checks every item for completeness first, which gives the same result.
- The front-end web client (session hook, gateway client, views) is not part of this model.

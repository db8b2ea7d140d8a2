/** What `save_conversation_to_dynamodb` writes for one exchange, and the
    `conv{n}` message ids of `get_next_message_id`. */
module Persistence {
  import opened Maybe
  import opened Text
  import History

  /** Outcome of the `Select='COUNT'` query on the session: it raised, or it
      answered with or without a `Count` entry. */
  datatype CountQuery = CountRaised | Counted(count: Option<nat>)

  const CountedPrefix: string := "conv"
  const FallbackPrefix: string := "msg"

  predicate AllDigits(s: string) {
    forall k :: 0 <= k < |s| ==> IsDigit(s[k])
  }

  /** `get_next_message_id`: `conv` and one more than the stored count (a
      missing count reads as zero); when the query raises, `msg` and the
      clock's whole seconds. */
  function NextMessageId(query: CountQuery, clockSeconds: nat): (id: string)
    ensures query.Counted? ==>
              && |id| > |CountedPrefix| && id[..|CountedPrefix|] == CountedPrefix
              && AllDigits(id[|CountedPrefix|..])
              && ParseNat(id[|CountedPrefix|..]) == query.count.GetOr(0) + 1
    ensures query.CountRaised? ==>
              && |id| > |FallbackPrefix| && id[..|FallbackPrefix|] == FallbackPrefix
              && AllDigits(id[|FallbackPrefix|..])
              && ParseNat(id[|FallbackPrefix|..]) == clockSeconds
  {
    match query
    case Counted(count) =>
      var n := count.GetOr(0) + 1;
      var id := CountedPrefix + NatToString(n);
      assert id[|CountedPrefix|..] == NatToString(n);
      ParseNatToString(n);
      id
    case CountRaised =>
      var id := FallbackPrefix + NatToString(clockSeconds);
      assert id[|FallbackPrefix|..] == NatToString(clockSeconds);
      ParseNatToString(clockSeconds);
      id
  }

  /** Counted ids differ whenever the counts differ, and never look like a
      clock-based fallback id. */
  lemma MessageIdsDistinct(a: CountQuery, b: CountQuery, clockA: nat, clockB: nat)
    requires a.Counted? && b.Counted?
    requires a.count.GetOr(0) != b.count.GetOr(0)
    ensures NextMessageId(a, clockA) != NextMessageId(b, clockB)
    ensures NextMessageId(a, clockA) != NextMessageId(CountRaised, clockB)
  {
    var fallback := NextMessageId(CountRaised, clockB);
    assert fallback[2] == 'g';
    assert NextMessageId(a, clockA)[2] == 'n';
  }

  /** The item `save_conversation_to_dynamodb` puts for one exchange, keyed
      by the request's session id (response time and creation time are
      left out). The sources it is handed are not stored. */
  datatype SavedExchange = SavedExchange(
    messageId: string,
    userMessage: string,
    assistantResponse: string,
    queryType: string,
    timestamp: string)

  function SaveConversation(
    userMessage: string, assistantResponse: string, queryType: string,
    count: CountQuery, clockSeconds: nat, now: string): (e: SavedExchange)
    ensures e.userMessage == userMessage && e.assistantResponse == assistantResponse
    ensures e.queryType == queryType && e.timestamp == now
  {
    SavedExchange(NextMessageId(count, clockSeconds), userMessage, assistantResponse, queryType, now)
  }

  /** The saved exchange as a later history query returns it. */
  function ReadBack(e: SavedExchange): (item: History.StoredItem)
    ensures History.Complete(item)
    ensures History.UserTurn(item) == History.Message(History.User, e.userMessage, e.timestamp)
    ensures History.AssistantTurn(item) == History.Message(History.Assistant, e.assistantResponse, e.timestamp)
  {
    History.StoredItem(Some(e.userMessage), Some(e.assistantResponse), Some(e.timestamp))
  }

  /** A saved exchange, read back as the session's newest item, ends the next
      history (user message, then reply) and the next prompt's context. */
  lemma SavedExchangeEndsHistory(e: SavedExchange, older: seq<History.StoredItem>)
    requires History.AllComplete(older)
    ensures var next := History.GetConversationHistory(History.QueryAnswered(Some([ReadBack(e)] + older)));
            && |next| >= 2
            && next[|next| - 2] == History.Message(History.User, e.userMessage, e.timestamp)
            && next[|next| - 1] == History.Message(History.Assistant, e.assistantResponse, e.timestamp)
    ensures var shown := History.FormatConversationContext(
              History.GetConversationHistory(History.QueryAnswered(Some([ReadBack(e)] + older))));
            var tail := "Human: " + e.userMessage + "\n" + "Assistant: " + e.assistantResponse + "\n";
            |tail| <= |shown| && shown[|shown| - |tail|..] == tail
  {
    History.NewestExchangeLast(ReadBack(e), older);
    SavedExchangeEndsContext(e, older);
  }

  lemma SavedExchangeEndsContext(e: SavedExchange, older: seq<History.StoredItem>)
    requires History.AllComplete(older)
    ensures var shown := History.FormatConversationContext(
              History.GetConversationHistory(History.QueryAnswered(Some([ReadBack(e)] + older))));
            var tail := "Human: " + e.userMessage + "\n" + "Assistant: " + e.assistantResponse + "\n";
            |tail| <= |shown| && shown[|shown| - |tail|..] == tail
  {
    var item := ReadBack(e);
    History.ContextEndsWithNewest(item, older);
    assert History.ExchangeText(item)
             == "Human: " + e.userMessage + "\n" + "Assistant: " + e.assistantResponse + "\n";
  }
}

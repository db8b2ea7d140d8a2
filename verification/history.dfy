/** Conversation history: the stored exchanges of a session, read back from
    the table newest first, expanded into a chronological list of user and
    assistant messages, and rendered as `Human:`/`Assistant:` lines for the
    answer prompt. */
module History {
  import opened Maybe
  import opened Text

  /** The table query asks for at most this many exchanges. */
  const QueryLimit: nat := 6

  /** The prompt shows at most this many messages. */
  const ContextWindow: nat := 6

  datatype Role = User | Assistant

  datatype Message = Message(role: Role, content: string, timestamp: string)

  /** One stored exchange as the query returns it; a field is `None` when
      the item lacks that attribute (reading it raises `KeyError`). */
  datatype StoredItem = StoredItem(
    userMessage: Option<string>,
    assistantResponse: Option<string>,
    timestamp: Option<string>)

  /** Outcome of the session query (newest first, at most `QueryLimit`
      items): it raised, or it answered with or without an `Items` entry. */
  datatype HistoryQuery = QueryRaised | QueryAnswered(items: Option<seq<StoredItem>>)

  predicate Complete(item: StoredItem) {
    item.userMessage.Some? && item.assistantResponse.Some? && item.timestamp.Some?
  }

  predicate AllComplete(items: seq<StoredItem>) {
    forall j :: 0 <= j < |items| ==> Complete(items[j])
  }

  /** `response.get('Items', [])`, with a raised query reading as no items. */
  function StoredItems(query: HistoryQuery): seq<StoredItem> {
    match query
    case QueryRaised => []
    case QueryAnswered(items) => items.GetOr([])
  }

  /** A raised query, or an answer without `Items`, reads as no items; any
      items read come from an answer that carried exactly them. */
  lemma StoredItemsOrigin(query: HistoryQuery)
    ensures query.QueryRaised? || query.items.None? ==> StoredItems(query) == []
    ensures StoredItems(query) != [] ==> query == QueryAnswered(Some(StoredItems(query)))
  {
  }

  function Reverse<T>(s: seq<T>): (r: seq<T>)
    ensures |r| == |s|
    ensures forall i :: 0 <= i < |s| ==> r[i] == s[|s| - 1 - i]
  {
    seq(|s|, i requires 0 <= i < |s| => s[|s| - 1 - i])
  }

  /** Reversing a concatenation reverses the parts and swaps them. */
  lemma ReverseAppend<T>(a: seq<T>, b: seq<T>)
    ensures Reverse(a + b) == Reverse(b) + Reverse(a)
  {
    var r, l := Reverse(a + b), Reverse(b) + Reverse(a);
    assert |r| == |l|;
    forall i | 0 <= i < |r| ensures r[i] == l[i] {
      if i < |b| {
        assert r[i] == (a + b)[|a| + |b| - 1 - i] == b[|b| - 1 - i];
      } else {
        assert r[i] == (a + b)[|a| + |b| - 1 - i] == a[|a| - 1 - (i - |b|)];
      }
    }
  }

  /** Reversing twice gives the list back. */
  lemma ReverseReverse<T>(s: seq<T>)
    ensures Reverse(Reverse(s)) == s
  {
    var r := Reverse(Reverse(s));
    forall i | 0 <= i < |s| ensures r[i] == s[i] {
      assert r[i] == Reverse(s)[|s| - 1 - i];
    }
  }

  function UserTurn(item: StoredItem): Message
    requires Complete(item)
  {
    Message(User, item.userMessage.value, item.timestamp.value)
  }

  function AssistantTurn(item: StoredItem): Message
    requires Complete(item)
  {
    Message(Assistant, item.assistantResponse.value, item.timestamp.value)
  }

  /** The loop of `get_conversation_history` over items in chronological
      order: each item contributes its user message, then its assistant
      response, both stamped with the item's timestamp. */
  function Turns(chron: seq<StoredItem>): (h: seq<Message>)
    requires AllComplete(chron)
    ensures |h| == 2 * |chron|
  {
    if |chron| == 0 then []
    else
      var last := chron[|chron| - 1];
      Turns(chron[..|chron| - 1]) + [UserTurn(last), AssistantTurn(last)]
  }

  /** Item `j` becomes messages `2j` (its user message) and `2j+1` (its
      response). */
  lemma {:induction false} TurnsAt(chron: seq<StoredItem>, j: nat)
    requires AllComplete(chron) && j < |chron|
    ensures Turns(chron)[2 * j] == UserTurn(chron[j])
    ensures Turns(chron)[2 * j + 1] == AssistantTurn(chron[j])
    decreases |chron|
  {
    var init := chron[..|chron| - 1];
    if j < |init| {
      TurnsAt(init, j);
      assert init[j] == chron[j];
    }
  }

  /** `get_conversation_history`: the stored exchanges, oldest first, two
      messages each; a raised query or an item missing an attribute gives
      the empty history. */
  function GetConversationHistory(query: HistoryQuery): (h: seq<Message>)
    ensures query.QueryRaised? ==> h == []
    ensures !AllComplete(StoredItems(query)) ==> h == []
    ensures AllComplete(StoredItems(query)) ==>
              var items := StoredItems(query);
              && |h| == 2 * |items|
              && forall j :: 0 <= j < |items| ==>
                   && h[2 * j] == UserTurn(items[|items| - 1 - j])
                   && h[2 * j + 1] == AssistantTurn(items[|items| - 1 - j])
  {
    var items := StoredItems(query);
    if AllComplete(items) then
      var chron := Reverse(items);
      assert AllComplete(chron) by {
        forall j | 0 <= j < |chron| ensures Complete(chron[j]) {
          assert chron[j] == items[|items| - 1 - j];
        }
      }
      var h := Turns(chron);
      assert forall j :: 0 <= j < |items| ==>
               h[2 * j] == UserTurn(items[|items| - 1 - j]) && h[2 * j + 1] == AssistantTurn(items[|items| - 1 - j]) by {
        forall j | 0 <= j < |items|
          ensures h[2 * j] == UserTurn(items[|items| - 1 - j])
          ensures h[2 * j + 1] == AssistantTurn(items[|items| - 1 - j])
        {
          TurnsAt(chron, j);
        }
      }
      h
    else []
  }

  /** Messages alternate user, assistant, user, ... and each pair shares the
      timestamp of the exchange it came from. */
  lemma HistoryAlternates(query: HistoryQuery)
    ensures var h := GetConversationHistory(query);
            && |h| % 2 == 0
            && (forall k :: 0 <= k < |h| ==> h[k].role == (if k % 2 == 0 then User else Assistant))
            && (forall j :: 0 <= j < |h| / 2 ==> h[2 * j].timestamp == h[2 * j + 1].timestamp)
  {
    var h := GetConversationHistory(query);
    var items := StoredItems(query);
    if AllComplete(items) {
      forall k | 0 <= k < |h| ensures h[k].role == (if k % 2 == 0 then User else Assistant) {
        var j := k / 2;
        assert k == 2 * j || k == 2 * j + 1;
      }
    }
  }

  /** With the query's limit, the history holds at most twelve messages. */
  lemma HistoryBounded(query: HistoryQuery)
    requires |StoredItems(query)| <= QueryLimit
    ensures |GetConversationHistory(query)| <= 2 * QueryLimit
  {
  }

  // ---------------------------------------------------------------------
  // Rendering for the prompt: `format_conversation_context`.

  /** `"Human"` for a user message and `"Assistant"` for any other, then `": "`. */
  function RolePrefix(role: Role): string {
    if role == User then "Human: " else "Assistant: "
  }

  function Line(m: Message): string {
    RolePrefix(m.role) + m.content + "\n"
  }

  /** The lines of `ms` in order, as the `context +=` loop builds them. */
  function Render(ms: seq<Message>): (r: string)
    ensures |ms| > 0 ==> |r| > 0
  {
    if |ms| == 0 then "" else Render(ms[..|ms| - 1]) + Line(ms[|ms| - 1])
  }

  /** `conversation_history[-6:]`. */
  function Recent(history: seq<Message>): (r: seq<Message>)
    ensures |r| == if |history| <= ContextWindow then |history| else ContextWindow
    ensures r == history[|history| - |r|..]
  {
    if |history| <= ContextWindow then history else history[|history| - ContextWindow..]
  }

  /** `format_conversation_context`: nothing for an empty history, otherwise
      one line per message of the last six. */
  function FormatConversationContext(history: seq<Message>): (r: string)
    ensures r == "" <==> history == []
  {
    if |history| == 0 then "" else Render(Recent(history))
  }

  /** Each message's line without its newline: the role's prefix, then the
      content. */
  function LineTexts(ms: seq<Message>): (t: seq<string>)
    ensures |t| == |ms|
  {
    seq(|ms|, k requires 0 <= k < |ms| => RolePrefix(ms[k].role) + ms[k].content)
  }

  lemma {:induction false} RenderJoin(ms: seq<Message>)
    requires |ms| >= 1
    ensures Render(ms) == Join(LineTexts(ms), '\n') + "\n"
    decreases |ms|
  {
    var init := ms[..|ms| - 1];
    var m := ms[|ms| - 1];
    var t := RolePrefix(m.role) + m.content;
    assert Render(ms) == Render(init) + (t + "\n");
    if |init| == 0 {
      assert LineTexts(ms) == [t];
    } else {
      RenderJoin(init);
      assert LineTexts(ms) == LineTexts(init) + [t];
      JoinSnoc(LineTexts(init), t, '\n');
    }
  }

  /** The rendered messages read back line by line: splitting at newlines
      gives one `Human: `/`Assistant: ` line per message, in order, and the
      empty piece after the final newline (when no content holds a newline
      of its own). */
  lemma RenderSplitsIntoLines(ms: seq<Message>)
    requires forall k :: 0 <= k < |ms| ==> Free(ms[k].content, '\n')
    ensures Split(Render(ms), '\n') == LineTexts(ms) + [""]
  {
    if |ms| > 0 {
      var lines := LineTexts(ms) + [""];
      RenderJoin(ms);
      JoinSnoc(LineTexts(ms), "", '\n');
      assert Render(ms) == Join(lines, '\n');
      LinesFree(ms);
      SplitJoin(lines, '\n');
    }
  }

  lemma LinesFree(ms: seq<Message>)
    requires forall k :: 0 <= k < |ms| ==> Free(ms[k].content, '\n')
    ensures forall i :: 0 <= i < |LineTexts(ms) + [""]| ==> Free((LineTexts(ms) + [""])[i], '\n')
  {
    var lines := LineTexts(ms) + [""];
    forall i | 0 <= i < |lines| ensures Free(lines[i], '\n') {
      if i < |ms| {
        PrefixFree(ms[i].role);
        assert lines[i] == RolePrefix(ms[i].role) + ms[i].content;
      }
    }
  }

  lemma PrefixFree(role: Role)
    ensures Free(RolePrefix(role), '\n')
  {
    if role == User {
      assert RolePrefix(role) == "Human: ";
    } else {
      assert RolePrefix(role) == "Assistant: ";
    }
  }

  /** `format_conversation_context` line by line: the lines of the last six
      messages (all of them when there are fewer), in order. */
  lemma FormatContextLines(history: seq<Message>)
    requires forall k :: 0 <= k < |history| ==> Free(history[k].content, '\n')
    ensures var shown := if |history| <= ContextWindow then history else history[|history| - ContextWindow..];
            Split(FormatConversationContext(history), '\n') == LineTexts(shown) + [""]
  {
    if |history| > 0 {
      var recent := Recent(history);
      forall k | 0 <= k < |recent| ensures Free(recent[k].content, '\n') {
        assert recent[k] == history[|history| - |recent| + k];
      }
      RenderSplitsIntoLines(recent);
    }
  }

  lemma {:induction false} RenderAppend(a: seq<Message>, b: seq<Message>)
    ensures Render(a + b) == Render(a) + Render(b)
    decreases |b|
  {
    if |b| == 0 {
      assert a + b == a;
    } else {
      var b', x := b[..|b| - 1], b[|b| - 1];
      assert b == b' + [x];
      assert a + b == (a + b') + [x];
      RenderSnoc(a + b', x);
      RenderSnoc(b', x);
      RenderAppend(a, b');
      StringAssoc(Render(a), Render(b'), Line(x));
    }
  }

  lemma RenderSnoc(ms: seq<Message>, x: Message)
    ensures Render(ms + [x]) == Render(ms) + Line(x)
  {
    assert (ms + [x])[..|ms|] == ms;
  }

  lemma StringAssoc(a: string, b: string, c: string)
    ensures a + b + c == a + (b + c)
  {
  }

  /** Messages older than the last six never reach the prompt. */
  lemma FormatContextIgnoresOlder(older: seq<Message>, history: seq<Message>)
    requires |history| >= ContextWindow
    ensures FormatConversationContext(older + history) == FormatConversationContext(history)
  {
    var all := older + history;
    assert |all| >= ContextWindow > 0;
    assert Recent(all) == all[|all| - ContextWindow..];
    assert Recent(history) == history[|history| - ContextWindow..];
    assert all[|all| - ContextWindow..] == history[|history| - ContextWindow..];
  }

  /** One exchange as the prompt shows it. */
  function ExchangeText(item: StoredItem): string
    requires Complete(item)
  {
    "Human: " + item.userMessage.value + "\n" + "Assistant: " + item.assistantResponse.value + "\n"
  }

  /** The exchanges of `chron`, oldest first. */
  function Dialogue(chron: seq<StoredItem>): string
    requires AllComplete(chron)
  {
    if |chron| == 0 then "" else Dialogue(chron[..|chron| - 1]) + ExchangeText(chron[|chron| - 1])
  }

  lemma {:induction false} TurnsAppend(a: seq<StoredItem>, b: seq<StoredItem>)
    requires AllComplete(a) && AllComplete(b)
    ensures AllComplete(a + b)
    ensures Turns(a + b) == Turns(a) + Turns(b)
    decreases |b|
  {
    if |b| == 0 {
      assert a + b == a;
    } else {
      var b' := b[..|b| - 1];
      assert (a + b)[..|a + b| - 1] == a + b';
      TurnsAppend(a, b');
    }
  }

  lemma {:induction false} RenderTurns(chron: seq<StoredItem>)
    requires AllComplete(chron)
    ensures Render(Turns(chron)) == Dialogue(chron)
    decreases |chron|
  {
    if |chron| > 0 {
      var init := chron[..|chron| - 1];
      var last := chron[|chron| - 1];
      RenderTurns(init);
      var pair := [UserTurn(last), AssistantTurn(last)];
      assert Turns(chron) == Turns(init) + pair;
      RenderAppend(Turns(init), pair);
      RenderExchange(last);
    }
  }

  lemma RenderExchange(item: StoredItem)
    requires Complete(item)
    ensures Render([UserTurn(item), AssistantTurn(item)]) == ExchangeText(item)
  {
    var u := UserTurn(item);
    var a := AssistantTurn(item);
    var pair := [u, a];
    assert pair[..1] == [u];
    assert [u][..0] == [];
    assert Render([u]) == Render([]) + Line(u);
    assert Render(pair) == Render([u]) + Line(a);
    assert Line(u) == "Human: " + item.userMessage.value + "\n";
    assert Line(a) == "Assistant: " + item.assistantResponse.value + "\n";
  }

  /** The query fetches six exchanges (twelve messages) and the prompt keeps
      six messages, so the prompt shows exactly the newest three exchanges
      (all of them when there are fewer), oldest first. */
  lemma ContextShowsNewestExchanges(items: seq<StoredItem>)
    requires AllComplete(items)
    ensures var shown := if |items| <= 3 then items else items[..3];
            FormatConversationContext(GetConversationHistory(QueryAnswered(Some(items))))
              == Dialogue(Reverse(shown))
  {
    var h := GetConversationHistory(QueryAnswered(Some(items)));
    var chron := Reverse(items);
    assert AllComplete(chron) by {
      forall j | 0 <= j < |chron| ensures Complete(chron[j]) {
        assert chron[j] == items[|items| - 1 - j];
      }
    }
    assert h == Turns(chron);
    if |items| == 0 {
    } else if |items| <= 3 {
      RenderTurns(chron);
    } else {
      var older := Reverse(items[3..]);
      var newest := Reverse(items[..3]);
      assert items == items[..3] + items[3..];
      ReverseAppend(items[..3], items[3..]);
      assert AllComplete(older) by {
        forall j | 0 <= j < |older| ensures Complete(older[j]) {
          assert older[j] == chron[j];
        }
      }
      assert AllComplete(newest) by {
        forall j | 0 <= j < |newest| ensures Complete(newest[j]) {
          assert newest[j] == chron[|older| + j];
        }
      }
      TurnsAppend(older, newest);
      assert Recent(h) == Turns(newest);
      RenderTurns(newest);
    }
  }

  /** The newest stored exchange ends the history: its user message, then
      its assistant response. */
  lemma NewestExchangeLast(newest: StoredItem, older: seq<StoredItem>)
    requires Complete(newest) && AllComplete(older)
    ensures var h := GetConversationHistory(QueryAnswered(Some([newest] + older)));
            && |h| >= 2
            && h[|h| - 2] == UserTurn(newest)
            && h[|h| - 1] == AssistantTurn(newest)
  {
    var items := [newest] + older;
    assert AllComplete(items) by {
      forall j | 0 <= j < |items| ensures Complete(items[j]) {
        if j > 0 { assert items[j] == older[j - 1]; }
      }
    }
    var h := GetConversationHistory(QueryAnswered(Some(items)));
    var j := |items| - 1;
    assert h[2 * j] == UserTurn(items[0]);
  }

  /** The newest stored exchange also ends the prompt's conversation context. */
  lemma ContextEndsWithNewest(newest: StoredItem, older: seq<StoredItem>)
    requires Complete(newest) && AllComplete(older)
    ensures var shown := FormatConversationContext(GetConversationHistory(QueryAnswered(Some([newest] + older))));
            var tail := ExchangeText(newest);
            |tail| <= |shown| && shown[|shown| - |tail|..] == tail
  {
    NewestExchangeLast(newest, older);
    var next := GetConversationHistory(QueryAnswered(Some([newest] + older)));
    var recent := Recent(next);
    var n := |recent|;
    assert recent[n - 2..] == [UserTurn(newest), AssistantTurn(newest)];
    assert recent[..n - 2] + recent[n - 2..] == recent;
    RenderAppend(recent[..n - 2], recent[n - 2..]);
    RenderExchange(newest);
  }
}

/** The stylist chat (components/ChatView.tsx): which conversation is
    active, what one send hands to the conversation store, and the outfit
    scheduling dialog. The reply service is an input: the advice it gives,
    or nothing when its call fails. */
module Chat {
  import opened Wrappers
  import opened Types
  import opened Seqs
  import opened Strings

  /** The assistant's text when the reply carries none. */
  const Apology := "I'm sorry, I couldn't process that request."

  /** A new conversation is titled with this many leading characters of its first query. */
  const TitleLength := 30

  /** `conversations.find(c => c.id === activeConversationId)`: no
      conversation is active when no id is selected. */
  function ActiveConversation(conversations: seq<Conversation>, activeId: Option<string>): (r: Option<Conversation>)
    ensures activeId.None? ==> r.None?
    ensures r.Some? ==> r.value in conversations && activeId == Some(r.value.id)
    ensures activeId.Some? ==> (r.None? <==> forall i :: 0 <= i < |conversations| ==> conversations[i].id != activeId.value)
  {
    match activeId
    case None => None
    case Some(id) => Find(conversations, (c: Conversation) => c.id == id)
  }

  /** When a conversation is the only one listed under its id, selecting
      that id shows it. */
  lemma ActiveIsOnlyMatch(conversations: seq<Conversation>, conv: Conversation)
    requires conv in conversations
    requires forall i :: 0 <= i < |conversations| && ConversationKey(conversations[i]) == ConversationKey(conv) ==> conversations[i] == conv
    ensures ActiveConversation(conversations, Some(conv.id)) == Some(conv)
  {
    var a := ActiveConversation(conversations, Some(conv.id));
    var j :| 0 <= j < |conversations| && conversations[j] == conv;
    assert a.Some?;
    var i :| 0 <= i < |conversations| && conversations[i] == a.value;
  }

  /** `textOverride || input`: an absent or empty override falls back to the input box. */
  function Query(input: string, textOverride: Option<string>): (q: string)
    ensures textOverride.Some? && textOverride.value != "" ==> q == textOverride.value
    ensures q != input ==> textOverride.Some? && q == textOverride.value
    ensures !(textOverride.Some? && textOverride.value != "") ==> q == input
  {
    if textOverride.Some? && textOverride.value != "" then textOverride.value else input
  }

  /** `query.substring(0, 30)` */
  function Title(query: string): (t: string)
    ensures t <= query
    ensures |t| == if |query| < TitleLength then |query| else TitleLength
  {
    if |query| <= TitleLength then query else query[..TitleLength]
  }

  /** The reply service's answer: its text (possibly empty) and any outfits. */
  datatype Advice = Advice(text: string, outfits: Option<seq<OutfitSuggestion>>)

  /** The fresh ids and clock readings one send draws, in the order the
      handler draws them. */
  datatype Fresh = Fresh(
    userMsgId: string, userAt: int,
    convId: string, convAt: int,
    replyId: string, replyAt: int, replyConvAt: int)

  /** The outcome of a send: the id selected before anything is saved (a
      new conversation), the conversations handed to the store in order,
      and the input box afterwards. */
  datatype SendResult = SendResult(select: Option<string>, saves: seq<Conversation>, input: string)

  function UserMessage(query: string, draws: Fresh): ChatMessage
  {
    ChatMessage(draws.userMsgId, User, query, None, draws.userAt)
  }

  function AssistantMessage(advice: Advice, draws: Fresh): ChatMessage
  {
    ChatMessage(draws.replyId, Assistant, if advice.text == "" then Apology else advice.text, advice.outfits, draws.replyAt)
  }

  /** The conversation after the user's turn: the active one extended, or a
      new one titled by the query. */
  function UserTurn(active: Option<Conversation>, query: string, draws: Fresh): (c: Conversation)
    ensures active.Some? ==> c.id == active.value.id && c.title == active.value.title
    ensures active.Some? ==> c.messages == active.value.messages + [UserMessage(query, draws)]
    ensures active.None? ==> c.id == draws.convId && c.title == Title(query) && c.messages == [UserMessage(query, draws)]
    ensures c.lastUpdatedAt == draws.convAt
  {
    match active
    case None => Conversation(draws.convId, Title(query), [UserMessage(query, draws)], draws.convAt)
    case Some(a) => a.(messages := a.messages + [UserMessage(query, draws)], lastUpdatedAt := draws.convAt)
  }

  /** `handleSend`: a blank query, or one sent while a reply is pending,
      does nothing. Otherwise the user's turn is saved at once, the input
      is cleared, and, when the reply service answers, the conversation
      is saved again with the assistant's message appended. */
  function HandleSend(
    conversations: seq<Conversation>, activeId: Option<string>,
    input: string, textOverride: Option<string>, isLoading: bool,
    draws: Fresh, advice: Option<Advice>): (r: SendResult)
    ensures IsBlank(Query(input, textOverride)) || isLoading ==> r == SendResult(None, [], input)
    ensures !IsBlank(Query(input, textOverride)) && !isLoading ==>
      && r.input == ""
      && |r.saves| == (if advice.Some? then 2 else 1)
      && (r.select.Some? <==> ActiveConversation(conversations, activeId).None?)
      && (r.select.Some? ==> r.select.value == r.saves[0].id)
  {
    var query := Query(input, textOverride);
    TrimEmptyIffBlank(query);
    if Trim(query) == [] || isLoading then SendResult(None, [], input)
    else
      var active := ActiveConversation(conversations, activeId);
      var updated := UserTurn(active, query, draws);
      var select := if active.None? then Some(updated.id) else None;
      match advice
      case None => SendResult(select, [updated], "")
      case Some(a) =>
        var replied := updated.(messages := updated.messages + [AssistantMessage(a, draws)], lastUpdatedAt := draws.replyConvAt);
        SendResult(select, [updated, replied], "")
  }

  /** A send only ever appends: every save keeps the active conversation's
      id, title and earlier messages, the first adds the user's query and
      the second the assistant's reply. */
  lemma SendAppendsTurn(
    conversations: seq<Conversation>, activeId: Option<string>,
    input: string, textOverride: Option<string>, draws: Fresh, advice: Option<Advice>)
    requires !IsBlank(Query(input, textOverride))
    requires ActiveConversation(conversations, activeId).Some?
    ensures var a := ActiveConversation(conversations, activeId).value;
      var r := HandleSend(conversations, activeId, input, textOverride, false, draws, advice);
      && (forall k :: 0 <= k < |r.saves| ==> r.saves[k].id == a.id && r.saves[k].title == a.title && a.messages <= r.saves[k].messages)
      && r.saves[0].messages == a.messages + [ChatMessage(draws.userMsgId, User, Query(input, textOverride), None, draws.userAt)]
      && (advice.Some? ==> r.saves[1].messages == r.saves[0].messages + [AssistantMessage(advice.value, draws)])
  {
    var a := ActiveConversation(conversations, activeId).value;
    var r := HandleSend(conversations, activeId, input, textOverride, false, draws, advice);
    assert a.messages <= r.saves[0].messages;
    if advice.Some? {
      assert r.saves[0].messages <= r.saves[1].messages;
    }
  }

  /** The messages one send adds: the query, then the reply if one came. */
  function Turn(query: string, draws: Fresh, advice: Option<Advice>): seq<ChatMessage>
  {
    [UserMessage(query, draws)] + (if advice.Some? then [AssistantMessage(advice.value, draws)] else [])
  }

  /** The last save of a send is the conversation with the whole turn
      appended: the active one, or a new one titled by the query. */
  lemma SendLastSave(
    conversations: seq<Conversation>, activeId: Option<string>,
    input: string, textOverride: Option<string>, draws: Fresh, advice: Option<Advice>)
    requires !IsBlank(Query(input, textOverride))
    ensures var q := Query(input, textOverride);
      var before := ActiveConversation(conversations, activeId);
      var r := HandleSend(conversations, activeId, input, textOverride, false, draws, advice);
      && |r.saves| > 0
      && var last := r.saves[|r.saves| - 1];
      && last.lastUpdatedAt == (if advice.Some? then draws.replyConvAt else draws.convAt)
      && (before.Some? ==>
            && last.id == before.value.id && last.title == before.value.title
            && last.messages == before.value.messages + Turn(q, draws, advice))
      && (before.None? ==>
            && last.id == draws.convId && last.title == Title(q)
            && last.messages == Turn(q, draws, advice))
  {
    var q := Query(input, textOverride);
    var before := ActiveConversation(conversations, activeId);
    var updated := UserTurn(before, q, draws);
    if advice.Some? {
      if before.Some? {
        assert updated.messages + [AssistantMessage(advice.value, draws)] == before.value.messages + Turn(q, draws, advice);
      }
    }
  }

  /** With no active conversation a send starts one: titled by the query's
      first characters and holding the query alone (then the reply). */
  lemma SendStartsConversation(
    conversations: seq<Conversation>, activeId: Option<string>,
    input: string, textOverride: Option<string>, draws: Fresh, advice: Option<Advice>)
    requires !IsBlank(Query(input, textOverride))
    requires ActiveConversation(conversations, activeId).None?
    ensures var r := HandleSend(conversations, activeId, input, textOverride, false, draws, advice);
      && r.select == Some(draws.convId)
      && (forall k :: 0 <= k < |r.saves| ==> r.saves[k].id == draws.convId && r.saves[k].title <= Query(input, textOverride))
      && |r.saves[|r.saves| - 1].messages| == |r.saves|
      && r.saves[0].messages[0].content == Query(input, textOverride)
  {
  }

  /** The assistant's message always has text. */
  lemma ReplyNeverEmpty(advice: Advice, draws: Fresh)
    ensures AssistantMessage(advice, draws).content != ""
    ensures advice.text != "" ==> AssistantMessage(advice, draws).content == advice.text
  {
  }

  /** The dialog state the chat keeps besides the input box. */
  datatype Scheduling = Scheduling(outfit: Option<OutfitSuggestion>, date: string)

  /** An outfit card's "schedule" action opens the dialog for that outfit. */
  function PickOutfit(s: Scheduling, outfit: OutfitSuggestion): (r: Scheduling)
    ensures r.outfit == Some(outfit) && r.date == s.date
    ensures ConfirmSchedule(r).1 == Some((outfit, s.date))
  {
    s.(outfit := Some(outfit))
  }

  /** `handleScheduleConfirm`: with an outfit in the dialog, ask for it to be
      planned on the chosen date and close the dialog; otherwise do nothing. */
  function ConfirmSchedule(s: Scheduling): (r: (Scheduling, Option<(OutfitSuggestion, string)>))
    ensures r.0.outfit.None? && r.0.date == s.date
    ensures r.1.Some? <==> s.outfit.Some?
    ensures r.1.Some? ==> r.1.value == (s.outfit.value, s.date)
  {
    match s.outfit
    case None => (s, None)
    case Some(o) => (s.(outfit := None), Some((o, s.date)))
  }
}

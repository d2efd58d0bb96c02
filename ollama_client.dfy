/** The chat-endpoint client of the blueprints: the last ten stored
    messages and the new prompt form the conversation sent to the model,
    a failed request is reported once, and a successful one is streamed
    line by line. The HTTP exchange itself is an input: its status and the
    lines of its body. */
module OllamaClient {
  import opened Wrappers
  import opened Text
  import opened StreamRelay
  import opened LineStream

  /** Stored messages sent as context. */
  const ContextLimit: nat := 10

  const OkStatus: nat := 200

  /** A message of `chat_history`, as far as `msg.get` sees it. */
  datatype HistoryEntry = HistoryEntry(role: Option<string>, content: Option<string>)

  /** An element of the `messages` list of the request; the role is `None`
      when the stored message had none. */
  datatype ChatMessage = ChatMessage(role: Option<string>, content: string)

  /** `chat_history[-10:]`. */
  function Recent(history: seq<HistoryEntry>): (r: seq<HistoryEntry>)
    ensures |r| == (if |history| > ContextLimit then ContextLimit else |history|)
    ensures r == history[|history| - |r|..]
  {
    if |history| > ContextLimit then history[|history| - ContextLimit..] else history
  }

  /** The request form of one stored message: its role as is, its content
      or `""`. */
  function ToChat(e: HistoryEntry): ChatMessage {
    ChatMessage(e.role, e.content.GetOr(""))
  }

  function ToChats(es: seq<HistoryEntry>): (cs: seq<ChatMessage>)
    ensures |cs| == |es|
  {
    if es == [] then [] else ToChats(es[..|es| - 1]) + [ToChat(es[|es| - 1])]
  }

  /** The conversation sent to the model. */
  function Conversation(history: seq<HistoryEntry>, prompt: string): seq<ChatMessage>
  {
    ToChats(Recent(history)) + [ChatMessage(Some("user"), prompt)]
  }

  /** Each request message comes from the stored message at the same
      place. */
  lemma {:induction false} ToChatsAt(es: seq<HistoryEntry>, k: nat)
    requires k < |es|
    ensures ToChats(es)[k] == ToChat(es[k])
    decreases |es|
  {
    if k < |es| - 1 {
      ToChatsAt(es[..|es| - 1], k);
    }
  }

  /** The conversation holds at most eleven messages: the newest stored
      messages (at most ten, in order, each with its role and its content or
      `""`, see `ToChat`) and then the prompt as the user's. */
  lemma ConversationShape(history: seq<HistoryEntry>, prompt: string)
    ensures var c := Conversation(history, prompt); var n := |c| - 1;
      && n == (if |history| > ContextLimit then ContextLimit else |history|)
      && c[n] == ChatMessage(Some("user"), prompt)
      && forall k :: 0 <= k < n ==> c[k] == ToChat(history[|history| - n + k])
  {
    var r := Recent(history);
    var cs := ToChats(r);
    var c := cs + [ChatMessage(Some("user"), prompt)];
    forall k | 0 <= k < |r| ensures c[k] == ToChat(history[|history| - |r| + k]) {
      ToChatsAt(r, k);
      assert c[k] == cs[k];
      assert r[k] == history[|history| - |r| + k];
    }
  }

  /** The conversation building loop. */
  method BuildConversation(history: seq<HistoryEntry>, prompt: string) returns (conversation: seq<ChatMessage>)
    ensures conversation == Conversation(history, prompt)
  {
    conversation := [];
    var recent := if |history| > 10 then history[|history| - 10..] else history;
    for i := 0 to |recent|
      invariant conversation == ToChats(recent[..i])
    {
      assert recent[..i + 1][..i] == recent[..i];
      conversation := conversation + [ChatMessage(recent[i].role, recent[i].content.GetOr(""))];
    }
    assert recent[..|recent|] == recent;
    conversation := conversation + [ChatMessage(Some("user"), prompt)];
  }

  /** The message sent when the service answers with another status. */
  function HttpErrorText(status: nat): string {
    "AI service error (HTTP " + NatToString(status) + "). Please try again."
  }

  /** `get_ai_response` of the blueprints. With a status other than 200
      the client gets the typing indicator, one error naming the status and
      the indicator's stop, and the reply is empty; otherwise it gets one
      `stream` message per text up to the line that ends the loop, between
      the indicator's start and stop, and the reply is those texts in order.
      A failure inside the request is the subject of `FailedAsWritten` and
      `FailedHandled` below. */
  method GetAiResponse(prompt: string, history: seq<HistoryEntry>, status: nat,
                       lines: seq<Bytes>, decode: LineDecoder)
    returns (full: string, conversation: seq<ChatMessage>, events: seq<Event>)
    ensures conversation == Conversation(history, prompt)
    ensures status != OkStatus ==>
      full == "" && events == [TypingStart, ErrorMessage(HttpErrorText(status)), TypingStop]
    ensures status == OkStatus ==>
      var texts := Texts(decode, lines[..StopIndex(decode, lines)]);
      full == Concat(texts) && events == [TypingStart] + Streams(texts) + [TypingStop]
  {
    events := [TypingStart];
    conversation := BuildConversation(history, prompt);
    if status != 200 {
      full := "";
      events := events + [ErrorMessage(HttpErrorText(status)), TypingStop];
      return;
    }
    var sent;
    full, sent := Accumulate(lines, decode);
    events := events + Streams(sent) + [TypingStop];
  }

  /** Whatever the service answers, the client's messages open with the
      typing indicator and close with its stop, and an error is reported
      only when nothing was streamed. */
  lemma EventsFramed(status: nat, texts: seq<string>)
    ensures var events := if status != OkStatus then [TypingStart, ErrorMessage(HttpErrorText(status)), TypingStop]
                          else [TypingStart] + Streams(texts) + [TypingStop];
      && |events| >= 2 && events[0] == TypingStart && events[|events| - 1] == TypingStop
      && forall k :: 0 < k < |events| - 1 ==>
           (events[k].ErrorMessage? <==> status != OkStatus) && (events[k].Stream? <==> status == OkStatus)
  {
    if status == OkStatus {
      var events := [TypingStart] + Streams(texts) + [TypingStop];
      forall k | 0 < k < |events| - 1 ensures events[k] == Stream(texts[k - 1]) {
        assert events[k] == Streams(texts)[k - 1];
      }
    }
  }

  // ------------------------------------------------------------ failures

  /** An exception inside the `try` block: the deadline of the client
      session running out, or any other failure of the request (refused
      connection, reset stream). */
  datatype Failure = TimedOut | OtherFailure

  /** How a call that failed ends: the client's messages, and either the
      reply returned or the exception leaving the function. */
  datatype FailedCall = FailedCall(events: seq<Event>, reply: Option<string>, raised: Option<string>)

  /** `MODEL_TIMEOUT` at its default. */
  const ModelTimeout: nat := 300

  /** The message each handler sends. */
  function FailureText(f: Failure): string {
    match f
    case TimedOut => "AI response timeout after " + NatToString(ModelTimeout) + "s. Please try again."
    case OtherFailure => "Failed to get AI response. Please check if the AI service is running."
  }

  /** The call as written, after the texts `streamed` were sent. Its first
      `except` names `aiohttp.ClientTimeout`, the class of the timeout
      settings, which is no exception class: matching the failure against it
      raises `TypeError`, so neither handler runs; the `finally` still sends
      the indicator's stop and the `TypeError` leaves the function. */
  function FailedAsWritten(streamed: seq<string>, f: Failure): FailedCall {
    FailedCall([TypingStart] + Streams(streamed) + [TypingStop], None, Some("TypeError"))
  }

  /** The call with the handlers reached, as the timeout handler and the
      catch-all after it intend: the failure is reported once, after what
      was streamed, and the texts streamed so far are returned. */
  function FailedHandled(streamed: seq<string>, f: Failure): FailedCall {
    FailedCall([TypingStart] + Streams(streamed) + [ErrorMessage(FailureText(f)), TypingStop],
               Some(Concat(streamed)), None)
  }

  /** As written, no failure is ever reported to the client and none is
      caught: the call ends in `TypeError` with only the typing indicator
      and the texts already streamed sent. */
  lemma FailureUncaughtAsWritten(streamed: seq<string>, f: Failure)
    ensures var c := FailedAsWritten(streamed, f);
      && c.raised == Some("TypeError") && c.reply.None?
      && c.events[0] == TypingStart && c.events[|c.events| - 1] == TypingStop
      && forall k :: 0 <= k < |c.events| ==> !c.events[k].ErrorMessage?
  {
    var c := FailedAsWritten(streamed, f);
    forall k | 0 < k < |c.events| - 1 ensures c.events[k] == Stream(streamed[k - 1]) {
      assert c.events[k] == Streams(streamed)[k - 1];
    }
  }

  /** With the handlers reached, every failure is reported exactly once,
      with its own message, right before the indicator's stop; nothing is
      raised and the reply is what was streamed. */
  lemma FailureReported(streamed: seq<string>, f: Failure)
    ensures var c := FailedHandled(streamed, f); var n := |c.events|;
      && c.raised.None? && c.reply == Some(Concat(streamed))
      && n == |streamed| + 3
      && c.events[0] == TypingStart && c.events[n - 1] == TypingStop
      && c.events[n - 2] == ErrorMessage(FailureText(f))
      && forall k :: 0 <= k < n && k != n - 2 ==> !c.events[k].ErrorMessage?
  {
    var c := FailedHandled(streamed, f);
    forall k | 0 < k < |c.events| - 2 ensures c.events[k] == Stream(streamed[k - 1]) {
      assert c.events[k] == Streams(streamed)[k - 1];
    }
  }

  /** A timeout before anything was streamed: the client is told about the
      timeout once the clause names an exception, and told nothing as
      written. */
  lemma TimeoutBeforeStreaming()
    ensures FailedAsWritten([], TimedOut) == FailedCall([TypingStart, TypingStop], None, Some("TypeError"))
    ensures FailedHandled([], TimedOut).events == [TypingStart, ErrorMessage(FailureText(TimedOut)), TypingStop]
  {
    assert Streams([]) == [];
  }
}

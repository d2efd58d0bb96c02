/** The prompt of the web chat: the system prompt, then at most the twenty
    stored messages that precede the newest one, each rendered as
    `User: …` or `Assistant: …`, then the new message and the cue for the
    assistant's turn. */
module ChatPrompt {
  import opened Text

  /** A stored message of the chat, oldest first (`ORDER BY created_at`). */
  datatype StoredMessage = StoredMessage(role: string, content: string)

  const SystemPrompt: string :=
    "You are DeepSeek-Coder, an AI assistant specialized in helping with programming tasks."

  /** Ten exchanges. */
  const HistoryLimit: nat := 20

  /** Only the role `user` is rendered as `User`; every other role is the assistant. */
  function Speaker(role: string): (name: string)
    ensures name == "User" <==> role == "user"
    ensures name == "User" || name == "Assistant"
  {
    if role == "user" then "User" else "Assistant"
  }

  /** The pieces of one rendered message: `{role}: {content}` and a blank line. */
  function TurnPieces(m: StoredMessage): seq<string> {
    [Speaker(m.role), ": ", m.content, "\n\n"]
  }

  /** The pieces of a list of messages, in order, four per message. */
  function Turns(ms: seq<StoredMessage>): (ps: seq<string>)
    ensures |ps| == 4 * |ms|
  {
    if ms == [] then [] else Turns(ms[..|ms| - 1]) + TurnPieces(ms[|ms| - 1])
  }

  /** `previous_messages[:-1]`, then its last twenty entries. */
  function Window(previous: seq<StoredMessage>): (w: seq<StoredMessage>)
  {
    var history := if previous == [] then [] else previous[..|previous| - 1];
    if |history| > HistoryLimit then history[|history| - HistoryLimit..] else history
  }

  /** The pieces of the prompt, in order: the system prompt, a blank line,
      the turns of the window `w`, then the new message and the cue. */
  function PromptPieces(w: seq<StoredMessage>, content: string): seq<string>
  {
    [SystemPrompt, "\n\n"] + Turns(w) + ["User: ", content, "\n\nAssistant:"]
  }

  /** The text the stored history and the new message give. */
  function PromptText(previous: seq<StoredMessage>, content: string): string
  {
    Concat(PromptPieces(Window(previous), content))
  }

  /** Appending a message's pieces appends its rendered turn. */
  lemma TurnStep(pieces: seq<string>, m: StoredMessage)
    ensures Concat(pieces + TurnPieces(m)) == Concat(pieces) + Speaker(m.role) + ": " + m.content + "\n\n"
  {
    var r := Speaker(m.role);
    ConcatSnoc(pieces, r);
    ConcatSnoc(pieces + [r], ": ");
    ConcatSnoc(pieces + [r] + [": "], m.content);
    ConcatSnoc(pieces + [r] + [": "] + [m.content], "\n\n");
    assert pieces + [r] + [": "] + [m.content] + ["\n\n"] == pieces + TurnPieces(m);
  }

  /** Appending the closing pieces appends the new message and the cue. */
  lemma CloseStep(pieces: seq<string>, content: string)
    ensures Concat(pieces + ["User: ", content, "\n\nAssistant:"]) ==
      Concat(pieces) + "User: " + content + "\n\nAssistant:"
  {
    ConcatSnoc(pieces, "User: ");
    ConcatSnoc(pieces + ["User: "], content);
    ConcatSnoc(pieces + ["User: "] + [content], "\n\nAssistant:");
    assert pieces + ["User: "] + [content] + ["\n\nAssistant:"] == pieces + ["User: ", content, "\n\nAssistant:"];
  }

  /** The text of the two opening pieces. */
  lemma OpenStep()
    ensures Concat([SystemPrompt, "\n\n"]) == SystemPrompt + "\n\n"
  {
    ConcatSnoc([], SystemPrompt);
    ConcatSnoc([SystemPrompt], "\n\n");
    assert [] + [SystemPrompt] == [SystemPrompt];
  }

  /** The prompt building loop of the web chat. */
  method BuildPrompt(previous: seq<StoredMessage>, content: string) returns (prompt: string)
    ensures prompt == PromptText(previous, content)
  {
    prompt := SystemPrompt + "\n\n";
    ghost var pieces := [SystemPrompt, "\n\n"];
    OpenStep();
    var history := Window(previous);
    for i := 0 to |history|
      invariant prompt == Concat(pieces)
      invariant pieces == [SystemPrompt, "\n\n"] + Turns(history[..i])
    {
      var role := if history[i].role == "user" then "User" else "Assistant";
      TurnsSnoc(history, i);
      TurnStep(pieces, history[i]);
      pieces := pieces + TurnPieces(history[i]);
      prompt := prompt + role + ": " + history[i].content + "\n\n";
    }
    assert history[..|history|] == history;
    CloseStep(pieces, content);
    assert pieces + ["User: ", content, "\n\nAssistant:"] == PromptPieces(history, content);
    prompt := prompt + "User: " + content + "\n\nAssistant:";
  }

  /** The turns of one more message of `ms`. */
  lemma TurnsSnoc(ms: seq<StoredMessage>, i: nat)
    requires i < |ms|
    ensures [SystemPrompt, "\n\n"] + Turns(ms[..i + 1]) ==
      [SystemPrompt, "\n\n"] + Turns(ms[..i]) + TurnPieces(ms[i])
  {
    assert ms[..i + 1][..i] == ms[..i];
  }

  /** The window is the at most twenty messages just before the newest one,
      in their stored order; the newest message is never part of it. */
  lemma WindowIsRecent(previous: seq<StoredMessage>)
    ensures |Window(previous)| <= HistoryLimit
    ensures previous == [] ==> Window(previous) == []
    ensures previous != [] ==>
      var n := |previous| - 1; var w := Window(previous);
      && |w| == (if n > HistoryLimit then HistoryLimit else n)
      && w == previous[n - |w|..n]
  {
  }

  /** The pieces of message `k` follow those of the messages before it. */
  lemma {:induction false} TurnsAt(ms: seq<StoredMessage>, k: nat)
    requires k < |ms|
    ensures Turns(ms)[4 * k..4 * k + 4] == TurnPieces(ms[k])
    ensures Turns(ms)[..4 * k] == Turns(ms[..k])
    decreases |ms|
  {
    var n := |ms| - 1;
    assert Turns(ms) == Turns(ms[..n]) + TurnPieces(ms[n]);
    if k < n {
      TurnsAt(ms[..n], k);
      assert ms[..n][..k] == ms[..k];
    }
  }

  /** The prompt starts with the system prompt and ends with the new message
      followed by the assistant's cue, whatever the window. */
  lemma PromptFrame(w: seq<StoredMessage>, content: string)
    ensures StartsWith(Concat(PromptPieces(w, content)), SystemPrompt)
    ensures EndsWith(Concat(PromptPieces(w, content)), "User: " + content + "\n\nAssistant:")
  {
    var front := [SystemPrompt, "\n\n"] + Turns(w);
    var rest := ["\n\n"] + Turns(w) + ["User: ", content, "\n\nAssistant:"];
    assert PromptPieces(w, content) == [SystemPrompt] + rest;
    ConcatAppend([SystemPrompt], rest);
    ConcatSnoc([], SystemPrompt);
    assert [] + [SystemPrompt] == [SystemPrompt];
    InfixAt([], SystemPrompt, Concat(rest));
    assert PromptPieces(w, content) == front + ["User: ", content, "\n\nAssistant:"];
    CloseStep(front, content);
    InfixAt(Concat(front), "User: " + content + "\n\nAssistant:", []);
  }

  /** Where the pieces of message `k` sit among the prompt's pieces. */
  lemma PiecesAt(w: seq<StoredMessage>, content: string, k: nat)
    requires k < |w|
    ensures var pieces := PromptPieces(w, content); var j := 2 + 4 * k;
      && j + 4 <= |pieces|
      && pieces[..j] == [SystemPrompt, "\n\n"] + Turns(w[..k])
      && pieces[j..j + 4] == TurnPieces(w[k])
  {
    TurnsAt(w, k);
  }

  /** The text of the opening pieces and the turns of `ms`. */
  lemma HeadLength(ms: seq<StoredMessage>)
    ensures |Concat([SystemPrompt, "\n\n"] + Turns(ms))| == |SystemPrompt| + 2 + |Concat(Turns(ms))|
  {
    ConcatAppend([SystemPrompt, "\n\n"], Turns(ms));
    OpenStep();
  }

  /** Every message of the window appears, as its own turn, in the prompt,
      right after the system prompt and the turns of the messages before it. */
  lemma PromptHoldsTurns(w: seq<StoredMessage>, content: string, k: nat)
    requires k < |w|
    ensures var p := Concat(PromptPieces(w, content));
      var at := |SystemPrompt| + 2 + |Concat(Turns(w[..k]))|;
      var turn := Speaker(w[k].role) + ": " + w[k].content + "\n\n";
      at + |turn| <= |p| && p[at..at + |turn|] == turn
  {
    PiecesAt(w, content, k);
    ConcatInfix(PromptPieces(w, content), 2 + 4 * k, 2 + 4 * k + 4);
    HeadLength(w[..k]);
    TurnText(w[k]);
  }

  /** The text of one message's pieces. */
  lemma TurnText(m: StoredMessage)
    ensures Concat(TurnPieces(m)) == Speaker(m.role) + ": " + m.content + "\n\n"
  {
    TurnStep([], m);
    assert [] + TurnPieces(m) == TurnPieces(m);
  }
}

/** The JSON endpoints of the blueprints under `/api`: the chat history,
    clearing and compressing the chat, its statistics and its export. Each
    handler is a method over the store and is proved against a function on
    the store's value; handlers answer for the signed-in user, whose
    identifier is an input. */
module Api {
  import opened Wrappers
  import opened Text
  import opened RedisModel
  import opened Database

  const OkStatus: nat := 200
  const BadRequest: nat := 400
  /** An exception the handler does not catch. */
  const ServerError: nat := 500

  /** `200` on success, `400` otherwise. */
  function StatusOf(success: bool): (status: nat)
    ensures status == OkStatus <==> success
    ensures status == OkStatus || status == BadRequest
  {
    if success then OkStatus else BadRequest
  }

  // -------------------------------------------------------------- history

  /** An element of `messages` in the history: `id`, `role`, `content` and
      `timestamp` of a stored message. */
  datatype HistoryItem = HistoryItem(id: string, role: string, content: string, timestamp: string)

  /** An element of `messages` in the export: the same without the id. */
  datatype ExportItem = ExportItem(role: string, content: string, timestamp: string)

  datatype HistoryReply = HistoryReply(messages: seq<HistoryItem>, sessionId: string, sessionTitle: string)

  datatype ExportReply = ExportReply(user: string, sessionId: string, sessionTitle: string,
                                     exportedAt: string, messageCount: nat, messages: seq<ExportItem>)

  /** The literal the export writes in place of a time. */
  const ExportedAt: string := "JUNKNOWN"

  function HistoryItems(ms: seq<Message>): (items: seq<HistoryItem>)
    ensures |items| == |ms|
  {
    if ms == [] then []
    else
      var m := ms[|ms| - 1];
      HistoryItems(ms[..|ms| - 1]) + [HistoryItem(m.id, m.role, m.content, m.timestamp)]
  }

  function ExportItems(ms: seq<Message>): (items: seq<ExportItem>)
    ensures |items| == |ms|
  {
    if ms == [] then []
    else
      var m := ms[|ms| - 1];
      ExportItems(ms[..|ms| - 1]) + [ExportItem(m.role, m.content, m.timestamp)]
  }

  /** Item `k` of the history and of the export come from message `k`. */
  lemma {:induction false} ItemsAt(ms: seq<Message>, k: nat)
    requires k < |ms|
    ensures HistoryItems(ms)[k] == HistoryItem(ms[k].id, ms[k].role, ms[k].content, ms[k].timestamp)
    ensures ExportItems(ms)[k] == ExportItem(ms[k].role, ms[k].content, ms[k].timestamp)
    decreases |ms|
  {
    if k < |ms| - 1 {
      ItemsAt(ms[..|ms| - 1], k);
    }
  }

  /** `GET /api/chat/history`: the user's session, created if need be, and
      its newest messages up to the default limit. */
  function HistorySpec(st: Store, userId: string, now: string): (HistoryReply, Store)
  {
    var (s, after) := SessionSpec(st, userId, now);
    (HistoryReply(HistoryItems(SessionMessagesSpec(after, s.id, None)), s.id, s.title), after)
  }

  /** `GET /api/chat/export`. */
  function ExportSpec(st: Store, userId: string, now: string): (ExportReply, Store)
  {
    var (s, after) := SessionSpec(st, userId, now);
    var items := ExportItems(SessionMessagesSpec(after, s.id, None));
    (ExportReply(userId, s.id, s.title, ExportedAt, |items|, items), after)
  }

  /** The history names the user's fixed session, holds at most the
      default limit of messages, and only creates the session: it asks
      nothing else of the store. Asking again gives the same reply. */
  lemma HistoryOfUser(st: Store, userId: string, now: string, later: string)
    requires Wellformed(st)
    ensures var (h, after) := HistorySpec(st, userId, now);
      && h.sessionId == SessionIdOf(userId)
      && |h.messages| <= DefaultHistoryLimit
      && Wellformed(after)
      && after.messages == st.messages && after.sessionMessages == st.sessionMessages
      && HistorySpec(after, userId, later) == (h, after)
  {
    SessionIdempotent(st, userId, now, later);
  }

  /** The export holds the same messages, in the same order, as the
      history would in the same state, without their ids; its count is
      their number and it names the user and the session. */
  lemma ExportMatchesHistory(st: Store, userId: string, now: string)
    ensures var (h, after) := HistorySpec(st, userId, now);
      var (e, after') := ExportSpec(st, userId, now);
      && after' == after
      && e.user == userId && e.sessionId == h.sessionId && e.sessionTitle == h.sessionTitle
      && e.exportedAt == ExportedAt
      && e.messageCount == |e.messages| == |h.messages|
      && forall k :: 0 <= k < |h.messages| ==>
           e.messages[k] == ExportItem(h.messages[k].role, h.messages[k].content, h.messages[k].timestamp)
  {
    var (s, after) := SessionSpec(st, userId, now);
    var ms := SessionMessagesSpec(after, s.id, None);
    forall k | 0 <= k < |ms|
      ensures ExportItems(ms)[k] == ExportItem(HistoryItems(ms)[k].role, HistoryItems(ms)[k].content,
                                               HistoryItems(ms)[k].timestamp)
    {
      ItemsAt(ms, k);
    }
  }

  // ------------------------------------------------------- clear, compress

  /** `POST /api/chat/clear`: the result of `clear_user_chat`, with 400
      when it failed. */
  function ClearChatSpec(st: Store, userId: string, now: string): (r: (nat, ClearResult, Store))
  {
    var (result, after) := ClearSpec(st, userId, now);
    (StatusOf(result.success), result, after)
  }

  /** Clearing answers 200 exactly when the user has a session, and then
      the session's list is gone. */
  lemma ClearChatStatus(st: Store, userId: string, now: string)
    requires Wellformed(st)
    ensures var (status, result, after) := ClearChatSpec(st, userId, now);
      && (status == OkStatus <==> SessionOf(st, userId).Some?)
      && (status != OkStatus ==> status == BadRequest && after == st)
      && (status == OkStatus ==> MessageIds(after, SessionOf(st, userId).value) == [])
  {
    ClearEmpties(st, userId, now);
  }

  /** The `keep_count` member of the request body as JSON reads it. A
      boolean is kept apart because Python counts it as an integer. */
  datatype JsonArg = Absent | IntArg(i: int) | BoolArg(b: bool) | OtherArg

  /** The request body: `NoJson` when `get_json` gives `None`, on which
      `data.get` raises. */
  datatype CompressBody = NoJson | Json(keepCount: JsonArg)

  const DefaultKeep: int := 50
  const MinKeep: int := 10
  const MaxKeep: int := 200

  const KeepRangeError: string := "keep_count must be between 10 and 200"

  /** The accepted `keep_count`, `50` when absent. */
  function KeepCount(arg: JsonArg): (k: Option<int>)
    ensures k.Some? <==> arg.Absent? || (arg.IntArg? && MinKeep <= arg.i <= MaxKeep)
    ensures k.Some? ==> MinKeep <= k.value <= MaxKeep
    ensures arg.Absent? ==> k == Some(DefaultKeep)
    ensures arg.IntArg? && k.Some? ==> k.value == arg.i
  {
    match arg
    case Absent => Some(DefaultKeep)
    case IntArg(i) => if i < MinKeep || i > MaxKeep then None else Some(i)
    case BoolArg(b) =>
      var i := if b then 1 else 0;
      if i < MinKeep || i > MaxKeep then None else Some(i)
    case OtherArg => None
  }

  datatype CompressReply = RangeError(error: string) | Compression(result: CompressResult) | Crashed

  /** `POST /api/chat/compress`. */
  function CompressChatSpec(st: Store, userId: string, body: CompressBody): (r: (nat, CompressReply, Store))
  {
    match body
    case NoJson => (ServerError, Crashed, st)
    case Json(arg) =>
      match KeepCount(arg)
      case None => (BadRequest, RangeError(KeepRangeError), st)
      case Some(k) =>
        var (result, after) := CompressSpec(st, userId, k);
        (StatusOf(result.success), Compression(result), after)
  }

  /** Compression answers 200 exactly when the body is JSON, the count is
      accepted, the user has a session and it holds more messages than the
      count; then exactly the newest `keep` messages stay. Every other answer
      leaves the store as it was. */
  lemma CompressChatOutcome(st: Store, userId: string, body: CompressBody)
    requires Wellformed(st)
    ensures var (status, reply, after) := CompressChatSpec(st, userId, body);
      var keep := if body.Json? then KeepCount(body.keepCount) else None;
      && (status == OkStatus <==>
            keep.Some? && SessionOf(st, userId).Some? &&
            |MessageIds(st, SessionOf(st, userId).value)| > keep.value)
      && (status != OkStatus ==> after == st)
      && (body.Json? && keep.None? ==> status == BadRequest && reply == RangeError(KeepRangeError))
      && (status == OkStatus ==>
            var sid := SessionOf(st, userId).value; var ids := MessageIds(st, sid);
            MessageIds(after, sid) == ids[|ids| - keep.value..])
      && Wellformed(after)
  {
    if body.Json? && KeepCount(body.keepCount).Some? {
      var k := KeepCount(body.keepCount).value;
      CompressWellformed(st, userId, k);
      if SessionOf(st, userId).Some? {
        CompressKeepsNewest(st, userId, k);
      }
    }
  }

  // ------------------------------------------------------------- handlers

  method ChatHistory(store: ChatStore, userId: string, now: string) returns (reply: HistoryReply)
    modifies store
    ensures (reply, store.State()) == HistorySpec(old(store.State()), userId, now)
  {
    var s := store.GetOrCreateUserSession(userId, now);
    var ms := store.GetSessionMessages(s.id, None);
    var items := [];
    for i := 0 to |ms|
      invariant items == HistoryItems(ms[..i])
    {
      assert ms[..i + 1][..i] == ms[..i];
      items := items + [HistoryItem(ms[i].id, ms[i].role, ms[i].content, ms[i].timestamp)];
    }
    assert ms[..|ms|] == ms;
    reply := HistoryReply(items, s.id, s.title);
  }

  method ClearChat(store: ChatStore, userId: string, now: string) returns (status: nat, result: ClearResult)
    modifies store
    ensures (status, result, store.State()) == ClearChatSpec(old(store.State()), userId, now)
  {
    result := store.ClearUserChat(userId, now);
    status := if result.success then 200 else 400;
  }

  method CompressChat(store: ChatStore, userId: string, body: CompressBody)
    returns (status: nat, reply: CompressReply)
    modifies store
    ensures (status, reply, store.State()) == CompressChatSpec(old(store.State()), userId, body)
  {
    if body.NoJson? {
      return 500, Crashed;
    }
    var keep: int;
    match body.keepCount {
      case Absent => keep := 50;
      case IntArg(i) => keep := i;
      case BoolArg(b) => keep := if b then 1 else 0;
      case OtherArg => return 400, RangeError("keep_count must be between 10 and 200");
    }
    if keep < 10 || keep > 200 {
      return 400, RangeError("keep_count must be between 10 and 200");
    }
    var result := store.CompressUserChat(userId, keep);
    status := if result.success then 200 else 400;
    reply := Compression(result);
  }

  /** `GET /api/chat/statistics`. */
  method ChatStatistics(store: ChatStore, userId: string) returns (stats: Stats)
    ensures stats == StatsSpec(store.State(), userId)
  {
    stats := store.GetChatStatistics(userId);
  }

  method ExportChat(store: ChatStore, userId: string, now: string) returns (reply: ExportReply)
    modifies store
    ensures (reply, store.State()) == ExportSpec(old(store.State()), userId, now)
  {
    var s := store.GetOrCreateUserSession(userId, now);
    var ms := store.GetSessionMessages(s.id, None);
    var items := [];
    for i := 0 to |ms|
      invariant items == ExportItems(ms[..i])
    {
      assert ms[..i + 1][..i] == ms[..i];
      items := items + [ExportItem(ms[i].role, ms[i].content, ms[i].timestamp)];
    }
    assert ms[..|ms|] == ms;
    reply := ExportReply(userId, s.id, s.title, "JUNKNOWN", |items|, items);
  }
}

/** The chat store of the quart blueprints: users, one chat session per
    user, the messages of each session, and the request counter, kept in
    Redis. Each key family is a field of `ChatStore`; `Store` is the same
    keyspace as a value, and each operation has a function on `Store` that
    its method is proved against. Times are the texts the handler would
    write, and the random parts of message identifiers are inputs. */
module Database {
  import opened Wrappers
  import opened Text
  import opened UserRecords
  import opened RedisModel

  /** A `session:{id}` hash, as far as the store reads and writes it. */
  datatype ChatSession = ChatSession(id: string, userId: string, title: string,
                                     createdAt: string, updatedAt: string)

  const DefaultTitle: string := "My Chat"

  /** `CHAT_HISTORY_LIMIT`, at its default: the limit when none is given. */
  const DefaultHistoryLimit: nat := 100

  /** The one session of a user: `"{user_id}_session"`. */
  function SessionIdOf(userId: string): string {
    userId + "_session"
  }

  /** The keyspace. */
  datatype Store = Store(
    users: map<string, Hash>,                  // user:{id}
    usernames: map<string, string>,            // username:{name} -> id
    members: set<string>,                      // users
    counter: nat,                              // user_id_counter, 0 when missing
    userSession: map<string, string>,          // user_session:{user} -> session id
    sessions: map<string, ChatSession>,        // session:{id}
    sessionMessages: map<string, seq<string>>, // session_messages:{id}, oldest first
    messages: map<string, Message>,            // message:{id}
    rateLimits: map<string, RateEntry>)        // rate_limit:{user}

  /** What every operation keeps: a user's session reference is the fixed
      identifier, a session hash is stored under its own identifier, and a
      message list never holds an identifier twice. */
  predicate Wellformed(st: Store) {
    && (forall u :: u in st.userSession ==> st.userSession[u] == SessionIdOf(u))
    && (forall s :: s in st.sessions ==> st.sessions[s].id == s)
    && (forall s :: s in st.sessionMessages ==> NoDup(st.sessionMessages[s]))
  }

  const EmptyStore: Store := Store(map[], map[], {}, 0, map[], map[], map[], map[], map[])

  /** `GET user_session:{user}` when it is truthy. */
  function SessionOf(st: Store, userId: string): (sid: Option<string>)
    ensures sid.Some? ==> userId in st.userSession && sid.value == st.userSession[userId]
  {
    if userId in st.userSession && st.userSession[userId] != "" then Some(st.userSession[userId]) else None
  }

  /** `ZRANGE session_messages:{id} 0 -1`. */
  function MessageIds(st: Store, sid: string): seq<string> {
    if sid in st.sessionMessages then st.sessionMessages[sid] else []
  }

  /** The message hashes left after deleting the listed ones. */
  function Without(m: map<string, Message>, ids: seq<string>): (r: map<string, Message>)
  {
    if ids == [] then m else Without(m, ids[..|ids| - 1]) - {ids[|ids| - 1]}
  }

  /** Deleting the listed hashes removes exactly them and changes no other. */
  lemma {:induction false} WithoutKeys(m: map<string, Message>, ids: seq<string>)
    ensures forall k :: k in Without(m, ids) <==> k in m && k !in ids
    ensures forall k :: k in Without(m, ids) ==> Without(m, ids)[k] == m[k]
    decreases |ids|
  {
    if ids != [] {
      WithoutKeys(m, ids[..|ids| - 1]);
      assert forall k :: k in ids <==> k in ids[..|ids| - 1] || k == ids[|ids| - 1];
    }
  }

  lemma WithoutStep(m: map<string, Message>, ids: seq<string>, i: nat)
    requires i < |ids|
    ensures Without(m, ids[..i + 1]) == Without(m, ids[..i]) - {ids[i]}
  {
    assert ids[..i + 1][..i] == ids[..i];
  }

  // ---------------------------------------------------------------- users

  /** `save_user`: a user without an identifier gets the next value of the
      counter; then the hash, the name index and the user set are written. */
  function SaveUserSpec(st: Store, u: User): (r: (User, Store))
  {
    var (saved, counter) :=
      if u.id.None? || u.id.value == "" then (u.(id := Some(NatToString(st.counter + 1))), st.counter + 1)
      else (u, st.counter);
    var id := saved.id.value;
    (saved, st.(users := st.users[id := ToDict(saved)],
                usernames := st.usernames[Str(saved.username) := id],
                members := st.members + {id},
                counter := counter))
  }

  /** An identifier is allocated from the counter only when the user has
      none; afterwards the name index points at the identifier, the
      identifier is in the user set, and its hash is the user's. */
  lemma SaveUserIndexes(st: Store, u: User)
    ensures var (saved, after) := SaveUserSpec(st, u);
      && saved.id.Some? && saved.id.value != ""
      && (u.id.Some? && u.id.value != "" ==> saved == u && after.counter == st.counter)
      && (u.id.None? || u.id.value == "" ==>
            after.counter == st.counter + 1 && saved.id == Some(NatToString(st.counter + 1)))
      && saved.username == u.username && saved.isAdmin == u.isAdmin
      && after.usernames[Str(u.username)] == saved.id.value
      && saved.id.value in after.members
      && after.users[saved.id.value] == ToDict(saved)
      && after.userSession == st.userSession && after.sessionMessages == st.sessionMessages
  {
  }

  // ------------------------------------------------------------- sessions

  /** `get_or_create_user_session`: the stored session when the reference
      and its hash exist, otherwise a new "My Chat" session under the fixed
      identifier, written with its reference. */
  function SessionSpec(st: Store, userId: string, now: string): (r: (ChatSession, Store))
  {
    var sid := SessionOf(st, userId);
    if sid.Some? && sid.value in st.sessions then (st.sessions[sid.value], st)
    else
      var s := ChatSession(SessionIdOf(userId), userId, DefaultTitle, now, now);
      (s, st.(sessions := st.sessions[s.id := s], userSession := st.userSession[userId := s.id]))
  }

  /** The session of a user always has the fixed identifier, asking for it
      a second time changes nothing and returns the same session, and only
      the session hash and the reference may change. */
  lemma SessionIdempotent(st: Store, userId: string, now: string, later: string)
    requires Wellformed(st)
    ensures var (s, after) := SessionSpec(st, userId, now);
      && s.id == SessionIdOf(userId)
      && Wellformed(after)
      && SessionSpec(after, userId, later) == (s, after)
      && after.messages == st.messages && after.sessionMessages == st.sessionMessages
      && after.users == st.users
  {
  }

  // ------------------------------------------------------------- messages

  /** `save_message`: the hash is written, the identifier is added at the
      newest end of the session's list, and the session's activity time is
      updated when the session exists. */
  function SaveMessageSpec(st: Store, userId: string, role: string, content: string, sid: string,
                           stamp: string, token: string, now: string): (r: Store)
  {
    var id := sid + ":" + stamp + ":" + token;
    var m := Message(id, userId, role, content, now, sid);
    st.(messages := st.messages[id := m],
        sessionMessages := st.sessionMessages[sid := ZAdd(MessageIds(st, sid), id)],
        sessions := if sid in st.sessions then st.sessions[sid := st.sessions[sid].(updatedAt := now)]
                    else st.sessions)
  }

  /** A saved message is the newest of its session and is read back first
      among the newest; the store stays well formed. */
  lemma SaveMessageNewest(st: Store, userId: string, role: string, content: string, sid: string,
                          stamp: string, token: string, now: string)
    requires Wellformed(st)
    ensures var after := SaveMessageSpec(st, userId, role, content, sid, stamp, token, now);
      var id := sid + ":" + stamp + ":" + token;
      && Wellformed(after)
      && MessageIds(after, sid)[|MessageIds(after, sid)| - 1] == id
      && after.messages[id] == Message(id, userId, role, content, now, sid)
      && Present(after.messages, Newest(MessageIds(after, sid), 1)) == [after.messages[id]]
  {
    var id := sid + ":" + stamp + ":" + token;
    var after := SaveMessageSpec(st, userId, role, content, sid, stamp, token, now);
    ZAddNoDup(MessageIds(st, sid), id);
    NewestAdded(MessageIds(st, sid), id, after.messages);
  }

  /** `get_session_messages`: the stored messages among the newest `limit`
      identifiers (100 when no limit is given), oldest first. */
  function SessionMessagesSpec(st: Store, sid: string, limit: Option<int>): seq<Message>
  {
    Present(st.messages, Newest(MessageIds(st, sid), limit.GetOr(DefaultHistoryLimit)))
  }

  /** `get_user_messages` of the blueprints: nothing without a session. */
  function UserMessagesSpec(st: Store, userId: string, limit: Option<int>): seq<Message>
  {
    match SessionOf(st, userId)
    case None => []
    case Some(sid) => SessionMessagesSpec(st, sid, limit)
  }

  /** With a positive limit and every hash present, a session read returns
      exactly its newest `limit` messages, in stored order. */
  lemma SessionMessagesNewest(st: Store, sid: string, limit: int)
    requires limit >= 1
    requires forall id :: id in MessageIds(st, sid) ==> id in st.messages
    ensures var z := MessageIds(st, sid); var n := if limit < |z| then limit else |z|;
      var ms := SessionMessagesSpec(st, sid, Some(limit));
      && |ms| == n
      && forall k :: 0 <= k < n ==> ms[k] == st.messages[z[|z| - n + k]]
  {
    var z := MessageIds(st, sid);
    var ids := Newest(z, limit);
    assert forall k :: 0 <= k < |ids| ==> ids[k] == z[|z| - |ids| + k];
    PresentAll(st.messages, ids);
  }

  // --------------------------------------------------------- clear, compress

  datatype ClearResult = ClearResult(success: bool, message: string, deletedCount: nat)

  /** `clear_user_chat`. */
  function ClearSpec(st: Store, userId: string, now: string): (r: (ClearResult, Store))
  {
    match SessionOf(st, userId)
    case None => (ClearResult(false, "No chat session found", 0), st)
    case Some(sid) =>
      var ids := MessageIds(st, sid);
      (ClearResult(true, "Cleared " + NatToString(|ids|) + " messages", |ids|),
       st.(messages := Without(st.messages, ids),
           sessionMessages := st.sessionMessages - {sid},
           sessions := if sid in st.sessions then st.sessions[sid := st.sessions[sid].(updatedAt := now)]
                       else st.sessions))
  }

  /** Without a session nothing changes and the result says so; otherwise
      the count is the number of messages, none of them is left, the list
      is gone and every other message is kept. */
  lemma ClearEmpties(st: Store, userId: string, now: string)
    requires Wellformed(st)
    ensures var (r, after) := ClearSpec(st, userId, now);
      && Wellformed(after)
      && (SessionOf(st, userId).None? ==> !r.success && r.message == "No chat session found" && after == st)
      && (SessionOf(st, userId).Some? ==>
            var sid := SessionOf(st, userId).value; var ids := MessageIds(st, sid);
            && r.success && r.deletedCount == |ids|
            && MessageIds(after, sid) == []
            && (forall id :: id in ids ==> id !in after.messages)
            && (forall id :: id in st.messages && id !in ids ==> id in after.messages && after.messages[id] == st.messages[id]))
  {
    if SessionOf(st, userId).Some? {
      WithoutKeys(st.messages, MessageIds(st, SessionOf(st, userId).value));
    }
  }

  datatype CompressResult = CompressResult(success: bool, message: string, deletedCount: nat, keptCount: int)

  /** `all_message_ids[:-keep_count]`, with Python's slice rules: a zero
      stop keeps nothing and a non-negative stop takes a prefix. */
  function OlderPart(ids: seq<string>, keep: int): (older: seq<string>)
    ensures |older| <= |ids| && older == ids[..|older|]
  {
    var stop := -keep;
    var end := if stop < 0 then (if |ids| + stop < 0 then 0 else |ids| + stop)
               else if stop > |ids| then |ids| else stop;
    ids[..end]
  }

  /** The list after removing each listed member in turn. */
  function RemoveAll(z: seq<string>, ids: seq<string>): seq<string>
  {
    if ids == [] then z else Remove(RemoveAll(z, ids[..|ids| - 1]), ids[|ids| - 1])
  }

  /** `compress_user_chat`. */
  function CompressSpec(st: Store, userId: string, keep: int): (r: (CompressResult, Store))
  {
    match SessionOf(st, userId)
    case None => (CompressResult(false, "No chat session found", 0, 0), st)
    case Some(sid) =>
      var ids := MessageIds(st, sid);
      var total := |ids|;
      if total <= keep then
        (CompressResult(false, "Chat has only " + NatToString(total) + " messages, no compression needed", 0, total), st)
      else
        var older := OlderPart(ids, keep);
        (CompressResult(true, "Compressed chat from " + NatToString(total) + " to " + IntText(keep) + " messages",
                        |older|, keep),
         Compressed(st, sid, older))
  }

  /** The store after deleting the listed messages of session `sid`, both
      their hashes and their entries in the session's list. */
  function Compressed(st: Store, sid: string, gone: seq<string>): Store {
    st.(messages := Without(st.messages, gone),
        sessionMessages := if sid in st.sessionMessages
                           then st.sessionMessages[sid := RemoveAll(MessageIds(st, sid), gone)]
                           else st.sessionMessages)
  }

  /** Deleting one more message of the session. */
  lemma CompressedStep(st: Store, sid: string, older: seq<string>, i: nat)
    requires i < |older| && sid in st.sessionMessages
    ensures var c := Compressed(st, sid, older[..i]);
      Compressed(st, sid, older[..i + 1]) ==
        c.(messages := c.messages - {older[i]},
           sessionMessages := c.sessionMessages[sid := Remove(c.sessionMessages[sid], older[i])])
  {
    WithoutStep(st.messages, older, i);
    assert older[..i + 1][..i] == older[..i];
  }

  /** `str(k)` for an integer. */
  function IntText(k: int): string {
    if k < 0 then "-" + NatToString(-k) else NatToString(k)
  }

  /** Removing the oldest members of a list without repetitions, one by
      one, leaves the newer ones in order. */
  lemma {:induction false} RemovePrefix(z: seq<string>, k: nat)
    requires NoDup(z) && k <= |z|
    ensures RemoveAll(z, z[..k]) == z[k..]
    decreases k
  {
    if k > 0 {
      assert z[..k][..k - 1] == z[..k - 1];
      RemovePrefix(z, k - 1);
      var rest := z[k - 1..];
      assert NoDup(rest) by {
        forall i, j | 0 <= i < j < |rest| ensures rest[i] != rest[j] {
          assert rest[i] == z[k - 1 + i] && rest[j] == z[k - 1 + j];
        }
      }
      RemoveOldest(rest);
      assert rest[1..] == z[k..];
    }
  }

  /** With a list already small enough nothing is deleted, the result is a
      failure and the kept count is the total; with a positive keep count
      below the total, exactly the oldest `total - keep` messages are
      deleted and the newest `keep` remain, in order. */
  lemma CompressKeepsNewest(st: Store, userId: string, keep: int)
    requires Wellformed(st)
    requires SessionOf(st, userId).Some?
    ensures var sid := SessionOf(st, userId).value; var ids := MessageIds(st, sid);
      var (r, after) := CompressSpec(st, userId, keep);
      && (|ids| <= keep ==> !r.success && r.deletedCount == 0 && r.keptCount == |ids| && after == st)
      && (1 <= keep < |ids| ==>
            && r.success && r.deletedCount == |ids| - keep && r.keptCount == keep
            && MessageIds(after, sid) == ids[|ids| - keep..]
            && (forall id :: id in ids[..|ids| - keep] ==> id !in after.messages)
            && (forall id :: id in st.messages && id !in ids[..|ids| - keep] ==>
                  id in after.messages && after.messages[id] == st.messages[id]))
  {
    var sid := SessionOf(st, userId).value;
    var ids := MessageIds(st, sid);
    if 1 <= keep < |ids| {
      var older := OlderPart(ids, keep);
      assert older == ids[..|ids| - keep];
      RemovePrefix(ids, |ids| - keep);
      WithoutKeys(st.messages, older);
    }
  }

  /** A list with members removed keeps no repetitions. */
  lemma {:induction false} RemoveAllNoDup(z: seq<string>, ids: seq<string>)
    requires NoDup(z)
    ensures NoDup(RemoveAll(z, ids))
    decreases |ids|
  {
    if ids != [] {
      RemoveAllNoDup(z, ids[..|ids| - 1]);
      RemoveNoDup(RemoveAll(z, ids[..|ids| - 1]), ids[|ids| - 1]);
    }
  }

  /** Compressing keeps the store well formed. */
  lemma CompressWellformed(st: Store, userId: string, keep: int)
    requires Wellformed(st)
    ensures Wellformed(CompressSpec(st, userId, keep).1)
  {
    var sid := SessionOf(st, userId);
    if sid.Some? {
      var ids := MessageIds(st, sid.value);
      RemoveAllNoDup(ids, OlderPart(ids, keep));
    }
  }

  // ----------------------------------------------------------- statistics

  datatype Stats = Stats(total: nat, userMessages: nat, assistantMessages: nat,
                         oldest: Option<string>, newest: Option<string>, sessionCreated: Option<string>)

  /** How many of the messages have the role. */
  function CountRole(ms: seq<Message>, role: string): (n: nat)
    ensures n <= |ms|
  {
    if ms == [] then 0 else CountRole(ms[..|ms| - 1], role) + (if ms[|ms| - 1].role == role then 1 else 0)
  }

  /** `get_chat_statistics`: counts over the messages a session read with
      no limit returns, and the timestamps of the first and last of them. */
  function StatsSpec(st: Store, userId: string): Stats
  {
    match SessionOf(st, userId)
    case None => Stats(0, 0, 0, None, None, None)
    case Some(sid) =>
      var ms := SessionMessagesSpec(st, sid, None);
      Stats(|ms|, CountRole(ms, "user"), CountRole(ms, "assistant"),
            if ms == [] then None else Some(ms[0].timestamp),
            if ms == [] then None else Some(ms[|ms| - 1].timestamp),
            if sid in st.sessions then Some(st.sessions[sid].createdAt) else None)
  }

  /** No message is counted under both roles. */
  lemma {:induction false} RolesDisjoint(ms: seq<Message>)
    ensures CountRole(ms, "user") + CountRole(ms, "assistant") <= |ms|
    decreases |ms|
  {
    if ms != [] {
      RolesDisjoint(ms[..|ms| - 1]);
    }
  }

  /** User and assistant messages together never exceed the total, which
      is at most the default history limit; the oldest and newest
      timestamps are set exactly when there is a message. */
  lemma StatsBounded(st: Store, userId: string)
    ensures var s := StatsSpec(st, userId);
      && s.userMessages + s.assistantMessages <= s.total <= DefaultHistoryLimit
      && (s.oldest.Some? <==> s.total > 0) && (s.newest.Some? <==> s.total > 0)
  {
    match SessionOf(st, userId)
    case None =>
    case Some(sid) =>
      var ids := Newest(MessageIds(st, sid), DefaultHistoryLimit);
      assert |ids| <= DefaultHistoryLimit;
      var ms := Present(st.messages, ids);
      assert ms == SessionMessagesSpec(st, sid, None);
      RolesDisjoint(ms);
  }

  // ---------------------------------------------------------- rate limit

  /** `check_rate_limit` on the store. */
  function RateLimitSpec(st: Store, userId: string): (r: (bool, Store))
  {
    var (allowed, entry) := RateStep(if userId in st.rateLimits then Some(st.rateLimits[userId]) else None);
    (allowed, st.(rateLimits := st.rateLimits[userId := entry]))
  }

  // ------------------------------------------------------------ deletion

  /** `get_user_by_id`: the user when the hash exists and is not empty. */
  function UserOf(st: Store, userId: string, now: string): (u: Option<User>)
  {
    if userId in st.users && st.users[userId] != map[] then Some(FromDict(st.users[userId], now)) else None
  }

  datatype DeleteResult = DeleteResult(success: bool, message: string, deletedMessages: nat)

  /** The store with a session, its message list and its messages gone. */
  function DropSession(st: Store, userId: string, sid: string): Store
  {
    st.(messages := Without(st.messages, MessageIds(st, sid)),
        sessionMessages := st.sessionMessages - {sid},
        sessions := st.sessions - {sid},
        userSession := st.userSession - {userId})
  }

  /** `delete_user`. */
  function DeleteUserSpec(st: Store, userId: string, now: string): (r: (DeleteResult, Store))
  {
    match UserOf(st, userId, now)
    case None => (DeleteResult(false, "User with ID " + userId + " not found", 0), st)
    case Some(u) =>
      if u.isAdmin then (DeleteResult(false, "Cannot delete admin user", 0), st)
      else
        var sid := SessionOf(st, userId);
        var count := if sid.Some? then |MessageIds(st, sid.value)| else 0;
        var st1 := if sid.Some? then DropSession(st, userId, sid.value) else st;
        (DeleteResult(true, "Successfully deleted user " + Str(u.username) + " (ID: " + userId + ")", count),
         st1.(rateLimits := st1.rateLimits - {userId},
              users := st1.users - {userId},
              usernames := st1.usernames - {Str(u.username)},
              members := st1.members - {userId}))
  }

  /** A missing or admin user is refused and nothing changes. */
  lemma DeleteUserRefused(st: Store, userId: string, now: string)
    ensures var (r, after) := DeleteUserSpec(st, userId, now);
      && (UserOf(st, userId, now).None? ==>
            !r.success && r.message == "User with ID " + userId + " not found" && after == st)
      && (UserOf(st, userId, now).Some? && UserOf(st, userId, now).value.isAdmin ==>
            !r.success && r.message == "Cannot delete admin user" && after == st)
  {
  }

  /** Deleting keeps the store well formed. */
  lemma DeleteUserWellformed(st: Store, userId: string, now: string)
    requires Wellformed(st)
    ensures Wellformed(DeleteUserSpec(st, userId, now).1)
  {
  }

  /** A deleted user loses the hash, the name index entry, the membership,
      the session reference, the session, its message list and messages,
      and the rate counter; every other user is untouched. */
  lemma DeleteUserCascade(st: Store, userId: string, now: string)
    requires Wellformed(st)
    requires UserOf(st, userId, now).Some? && !UserOf(st, userId, now).value.isAdmin
    ensures var (r, after) := DeleteUserSpec(st, userId, now);
      var u := UserOf(st, userId, now).value;
      var ids := MessageIds(st, SessionIdOf(userId));
      && r.success
      && userId !in after.users && Str(u.username) !in after.usernames && userId !in after.members
      && userId !in after.userSession && userId !in after.rateLimits
      && (userId in st.userSession ==>
            && SessionIdOf(userId) !in after.sessions && SessionIdOf(userId) !in after.sessionMessages
            && r.deletedMessages == |ids|
            && forall id :: id in ids ==> id !in after.messages)
      && (forall v :: v in st.users && v != userId ==> v in after.users && after.users[v] == st.users[v])
  {
    var sid := SessionOf(st, userId);
    if sid.Some? {
      assert sid.value == SessionIdOf(userId);
      WithoutKeys(st.messages, MessageIds(st, sid.value));
    }
  }

  /** `delete_user_messages_only`. */
  function DeleteMessagesSpec(st: Store, userId: string, now: string): (r: (ClearResult, Store))
  {
    match UserOf(st, userId, now)
    case None => (ClearResult(false, "User with ID " + userId + " not found", 0), st)
    case Some(u) =>
      match SessionOf(st, userId)
      case None => (ClearResult(false, "No chat session found", 0), st)
      case Some(sid) =>
        var ids := MessageIds(st, sid);
        (ClearResult(true, "Successfully deleted " + NatToString(|ids|) + " messages for user " + Str(u.username), |ids|),
         st.(messages := Without(st.messages, ids), sessionMessages := st.sessionMessages - {sid}))
  }

  /** Deleting only the messages keeps the account and the session: the
      user hash, the indexes and the session hash are unchanged, the
      session's messages are gone. */
  lemma DeleteMessagesKeepsAccount(st: Store, userId: string, now: string)
    requires Wellformed(st)
    ensures var (r, after) := DeleteMessagesSpec(st, userId, now);
      && Wellformed(after)
      && after.users == st.users && after.usernames == st.usernames && after.members == st.members
      && after.sessions == st.sessions && after.userSession == st.userSession
      && (r.success <==> UserOf(st, userId, now).Some? && SessionOf(st, userId).Some?)
      && (r.success ==>
            var ids := MessageIds(st, SessionOf(st, userId).value);
            r.deletedCount == |ids| && MessageIds(after, SessionOf(st, userId).value) == []
            && forall id :: id in ids ==> id !in after.messages)
  {
    var sid := SessionOf(st, userId);
    if UserOf(st, userId, now).Some? && sid.Some? {
      var ids := MessageIds(st, sid.value);
      var after := st.(messages := Without(st.messages, ids), sessionMessages := st.sessionMessages - {sid.value});
      assert DeleteMessagesSpec(st, userId, now).1 == after;
      WithoutKeys(st.messages, ids);
      assert sid.value !in after.sessionMessages;
      assert Wellformed(after);
    }
  }

  // -------------------------------------------------------- key grouping

  /** The group of a key: the part before the first `:`, or the whole key. */
  function KeyType(key: string): (t: string)
    ensures StartsWith(key, t) && ':' !in t
    ensures ':' in key ==> |t| < |key| && key[|t|] == ':'
    ensures ':' !in key ==> t == key
  {
    SplitProperties(key, ':');
    SplitAtLeastTwo(key, ':');
    var parts := Split(key, ':');
    if ':' in key then
      SplitFirst(key, ':');
      parts[0]
    else
      CountZero(key, ':');
      key
  }

  /** Group counts in the order the groups first appear, as the dictionary
      the statistics build keeps them. */
  type Groups = seq<(string, nat)>

  function Lookup(g: Groups, t: string): nat {
    if g == [] then 0 else if g[0].0 == t then g[0].1 else Lookup(g[1..], t)
  }

  function Total(g: Groups): nat {
    if g == [] then 0 else g[0].1 + Total(g[1..])
  }

  /** `key_types[t] = key_types.get(t, 0) + 1`. */
  function Bump(g: Groups, t: string): Groups {
    if g == [] then [(t, 1)]
    else if g[0].0 == t then [(t, g[0].1 + 1)] + g[1..]
    else [g[0]] + Bump(g[1..], t)
  }

  predicate DistinctGroups(g: Groups) {
    forall i, j :: 0 <= i < j < |g| ==> g[i].0 != g[j].0
  }

  /** Counting a key adds one to its group and to the total. */
  lemma {:induction false} BumpCounts(g: Groups, t: string)
    ensures Total(Bump(g, t)) == Total(g) + 1
    ensures forall u :: Lookup(Bump(g, t), u) == Lookup(g, u) + (if u == t then 1 else 0)
    decreases |g|
  {
    if g != [] && g[0].0 != t {
      BumpCounts(g[1..], t);
      assert Bump(g, t)[1..] == Bump(g[1..], t);
    }
  }

  /** The groups of a list of keys. */
  function KeyGroups(keys: seq<string>): Groups {
    if keys == [] then [] else Bump(KeyGroups(keys[..|keys| - 1]), KeyType(keys[|keys| - 1]))
  }

  /** How many keys fall in group `t`. */
  function InGroup(keys: seq<string>, t: string): nat {
    if keys == [] then 0
    else InGroup(keys[..|keys| - 1], t) + (if KeyType(keys[|keys| - 1]) == t then 1 else 0)
  }

  /** The group counts sum to `total_keys`, and each group counts exactly
      the keys whose prefix it is. */
  lemma {:induction false} GroupsAddUp(keys: seq<string>)
    ensures Total(KeyGroups(keys)) == |keys|
    ensures forall t :: Lookup(KeyGroups(keys), t) == InGroup(keys, t)
    decreases |keys|
  {
    if keys != [] {
      GroupsAddUp(keys[..|keys| - 1]);
      BumpCounts(KeyGroups(keys[..|keys| - 1]), KeyType(keys[|keys| - 1]));
    }
  }

  /** The grouping loop of `get_database_stats`. */
  method GroupKeys(keys: seq<string>) returns (total: nat, groups: Groups)
    ensures total == |keys| && groups == KeyGroups(keys)
  {
    total := |keys|;
    groups := [];
    for i := 0 to |keys|
      invariant groups == KeyGroups(keys[..i])
    {
      assert keys[..i + 1][..i] == keys[..i];
      var key := keys[i];
      var keyType := if ':' in key then Split(key, ':')[0] else key;
      groups := Bump(groups, keyType);
    }
    assert keys[..|keys|] == keys;
  }

  // ---------------------------------------------------------- the store

  /** The Redis keyspace the blueprints read and write, one field per key
      family. */
  class ChatStore {
    var users: map<string, Hash>
    var usernames: map<string, string>
    var members: set<string>
    var counter: nat
    var userSession: map<string, string>
    var sessions: map<string, ChatSession>
    var sessionMessages: map<string, seq<string>>
    var messages: map<string, Message>
    var rateLimits: map<string, RateEntry>

    function State(): Store
      reads this
    {
      Store(users, usernames, members, counter, userSession, sessions, sessionMessages, messages, rateLimits)
    }

    constructor()
      ensures State() == EmptyStore
    {
      users, usernames, members, counter := map[], map[], {}, 0;
      userSession, sessions, sessionMessages, messages, rateLimits := map[], map[], map[], map[], map[];
    }

    method SaveUser(u: User) returns (saved: User)
      modifies this
      ensures (saved, State()) == SaveUserSpec(old(State()), u)
    {
      saved := u;
      if u.id.None? || u.id.value == "" {
        counter := counter + 1;
        saved := u.(id := Some(NatToString(counter)));
      }
      var id := saved.id.value;
      users := users[id := ToDict(saved)];
      usernames := usernames[Str(saved.username) := id];
      members := members + {id};
    }

    method GetOrCreateUserSession(userId: string, now: string) returns (session: ChatSession)
      modifies this
      ensures (session, State()) == SessionSpec(old(State()), userId, now)
    {
      if userId in userSession && userSession[userId] != "" {
        var sid := userSession[userId];
        if sid in sessions {
          return sessions[sid];
        }
      }
      session := ChatSession(userId + "_session", userId, "My Chat", now, now);
      sessions := sessions[session.id := session];
      userSession := userSession[userId := session.id];
    }

    method ClearUserChat(userId: string, now: string) returns (result: ClearResult)
      modifies this
      ensures (result, State()) == ClearSpec(old(State()), userId, now)
    {
      if userId !in userSession || userSession[userId] == "" {
        return ClearResult(false, "No chat session found", 0);
      }
      var sid := userSession[userId];
      var ids := if sid in sessionMessages then sessionMessages[sid] else [];
      var deleted := 0;
      for i := 0 to |ids|
        invariant State() == old(State()).(messages := Without(old(messages), ids[..i]))
        invariant deleted == i
      {
        WithoutStep(old(messages), ids, i);
        messages := messages - {ids[i]};
        deleted := deleted + 1;
      }
      assert ids[..|ids|] == ids;
      sessionMessages := sessionMessages - {sid};
      if sid in sessions {
        sessions := sessions[sid := sessions[sid].(updatedAt := now)];
      }
      result := ClearResult(true, "Cleared " + NatToString(deleted) + " messages", deleted);
    }

    method CompressUserChat(userId: string, keep: int) returns (result: CompressResult)
      modifies this
      ensures (result, State()) == CompressSpec(old(State()), userId, keep)
    {
      if userId !in userSession || userSession[userId] == "" {
        return CompressResult(false, "No chat session found", 0, 0);
      }
      var sid := userSession[userId];
      var ids := if sid in sessionMessages then sessionMessages[sid] else [];
      var total := |ids|;
      if total <= keep {
        return CompressResult(false, "Chat has only " + NatToString(total) + " messages, no compression needed",
                              0, total);
      }
      var older := OlderPart(ids, keep);
      var deleted := 0;
      assert older[..0] == [];
      for i := 0 to |older|
        invariant State() == Compressed(old(State()), sid, older[..i])
        invariant deleted == i
      {
        CompressedStep(old(State()), sid, older, i);
        messages := messages - {older[i]};
        sessionMessages := sessionMessages[sid := Remove(sessionMessages[sid], older[i])];
        deleted := deleted + 1;
      }
      assert older[..|older|] == older;
      result := CompressResult(true, "Compressed chat from " + NatToString(total) + " to " + IntText(keep) + " messages",
                               deleted, keep);
    }

    method SaveMessage(userId: string, role: string, content: string, sid: string,
                       stamp: string, token: string, now: string)
      modifies this
      ensures State() == SaveMessageSpec(old(State()), userId, role, content, sid, stamp, token, now)
    {
      var id := sid + ":" + stamp + ":" + token;
      messages := messages[id := Message(id, userId, role, content, now, sid)];
      var z := if sid in sessionMessages then sessionMessages[sid] else [];
      sessionMessages := sessionMessages[sid := ZAdd(z, id)];
      if sid in sessions {
        sessions := sessions[sid := sessions[sid].(updatedAt := now)];
      }
    }

    method GetSessionMessages(sid: string, limit: Option<int>) returns (ms: seq<Message>)
      ensures ms == SessionMessagesSpec(State(), sid, limit)
    {
      var z := if sid in sessionMessages then sessionMessages[sid] else [];
      ms := ReadNewest(z, messages, limit.GetOr(DefaultHistoryLimit));
    }

    method GetUserMessages(userId: string, limit: Option<int>) returns (ms: seq<Message>)
      ensures ms == UserMessagesSpec(State(), userId, limit)
    {
      if userId !in userSession || userSession[userId] == "" {
        return [];
      }
      ms := GetSessionMessages(userSession[userId], limit);
    }

    method GetChatStatistics(userId: string) returns (stats: Stats)
      ensures stats == StatsSpec(State(), userId)
    {
      if userId !in userSession || userSession[userId] == "" {
        return Stats(0, 0, 0, None, None, None);
      }
      var sid := userSession[userId];
      var created := if sid in sessions then Some(sessions[sid].createdAt) else None;
      var ms := GetSessionMessages(sid, None);
      var userCount, assistantCount := CountRoles(ms);
      var oldest, newest := None, None;
      if ms != [] {
        oldest, newest := Some(ms[0].timestamp), Some(ms[|ms| - 1].timestamp);
      }
      stats := Stats(|ms|, userCount, assistantCount, oldest, newest, created);
    }

    /** The counting loop of the statistics. */
    method CountRoles(ms: seq<Message>) returns (userCount: nat, assistantCount: nat)
      ensures userCount == CountRole(ms, "user") && assistantCount == CountRole(ms, "assistant")
    {
      userCount, assistantCount := 0, 0;
      for i := 0 to |ms|
        invariant userCount == CountRole(ms[..i], "user")
        invariant assistantCount == CountRole(ms[..i], "assistant")
      {
        assert ms[..i + 1][..i] == ms[..i];
        if ms[i].role == "user" {
          userCount := userCount + 1;
        } else if ms[i].role == "assistant" {
          assistantCount := assistantCount + 1;
        }
      }
      assert ms[..|ms|] == ms;
    }

    method CheckRateLimit(userId: string) returns (allowed: bool)
      modifies this
      ensures (allowed, State()) == RateLimitSpec(old(State()), userId)
    {
      var current := (if userId in rateLimits then rateLimits[userId].count else 0) + 1;
      var ttl := if userId in rateLimits then rateLimits[userId].ttl else None;
      if current == 1 {
        ttl := Some(RateLimitWindow);
      }
      rateLimits := rateLimits[userId := RateEntry(current, ttl)];
      allowed := current <= RateLimitMax;
    }

    /** The message deletion loop shared by both deletions. */
    method DeleteMessages(ids: seq<string>) returns (deleted: nat)
      modifies this
      ensures State() == old(State()).(messages := Without(old(messages), ids))
      ensures deleted == |ids|
    {
      deleted := 0;
      for i := 0 to |ids|
        invariant State() == old(State()).(messages := Without(old(messages), ids[..i]))
        invariant deleted == i
      {
        WithoutStep(old(messages), ids, i);
        messages := messages - {ids[i]};
        deleted := deleted + 1;
      }
      assert ids[..|ids|] == ids;
    }

    /** The session part of `delete_user`: the messages, the message list,
        the session hash and the reference, when the user has a session. */
    method DeleteSessionOf(userId: string) returns (count: nat)
      modifies this
      ensures var sid := SessionOf(old(State()), userId);
        && State() == (if sid.Some? then DropSession(old(State()), userId, sid.value) else old(State()))
        && count == (if sid.Some? then |MessageIds(old(State()), sid.value)| else 0)
    {
      count := 0;
      if userId in userSession && userSession[userId] != "" {
        var sid := userSession[userId];
        var ids := if sid in sessionMessages then sessionMessages[sid] else [];
        count := DeleteMessages(ids);
        sessionMessages := sessionMessages - {sid};
        sessions := sessions - {sid};
        userSession := userSession - {userId};
      }
    }

    method DeleteUser(userId: string, now: string) returns (result: DeleteResult)
      modifies this
      ensures (result, State()) == DeleteUserSpec(old(State()), userId, now)
    {
      if userId !in users || users[userId] == map[] {
        return DeleteResult(false, "User with ID " + userId + " not found", 0);
      }
      var user := FromDict(users[userId], now);
      if user.isAdmin {
        return DeleteResult(false, "Cannot delete admin user", 0);
      }
      var count := DeleteSessionOf(userId);
      if userId in rateLimits {
        rateLimits := rateLimits - {userId};
      } else {
        assert rateLimits - {userId} == rateLimits;
      }
      users := users - {userId};
      usernames := usernames - {Str(user.username)};
      members := members - {userId};
      result := DeleteResult(true, "Successfully deleted user " + Str(user.username) + " (ID: " + userId + ")", count);
    }

    method DeleteUserMessagesOnly(userId: string, now: string) returns (result: ClearResult)
      modifies this
      ensures (result, State()) == DeleteMessagesSpec(old(State()), userId, now)
    {
      if userId !in users || users[userId] == map[] {
        return ClearResult(false, "User with ID " + userId + " not found", 0);
      }
      var user := FromDict(users[userId], now);
      if userId !in userSession || userSession[userId] == "" {
        return ClearResult(false, "No chat session found", 0);
      }
      var sid := userSession[userId];
      var ids := if sid in sessionMessages then sessionMessages[sid] else [];
      var deleted := DeleteMessages(ids);
      sessionMessages := sessionMessages - {sid};
      result := ClearResult(true, "Successfully deleted " + NatToString(deleted) + " messages for user "
                                  + Str(user.username), deleted);
    }
  }
}

/** The quart application module: its own Redis helpers (users, a sorted
    message list per user, the request counter), registration, the CSRF
    token kept in the session, and the generation client. Password hashing
    and random tokens are outside the model; their results are inputs. */
module QuartApp {
  import opened Wrappers
  import opened Text
  import opened Sanitize
  import opened UserRecords
  import opened RedisModel
  import opened StreamRelay
  import opened LineStream

  /** The keys the application uses. */
  datatype AppState = AppState(
    users: map<string, Hash>,              // user:{id}
    usernames: map<string, string>,        // username:{name} -> id
    members: set<string>,                  // users
    counter: nat,                          // user_id_counter, 0 when missing
    userMessages: map<string, seq<string>>, // user_messages:{user}, oldest first
    messages: map<string, Message>,        // message:{id}
    rateLimits: map<string, RateEntry>)    // rate_limit:{user}

  const MinUsernameLength: nat := 3
  const MinPasswordLength: nat := 6

  /** `save_user`: the hash under `str(user.id)`, the name index and the
      user set; no identifier is allocated here. */
  function SaveUserSpec(st: AppState, u: User): (after: AppState)
    ensures AuthId(u) in after.users && after.users[AuthId(u)] == ToDict(u)
    ensures UserRecords.Str(u.username) in after.usernames
    ensures after.usernames[UserRecords.Str(u.username)] == AuthId(u)
    ensures after.members == st.members + {AuthId(u)}
  {
    st.(users := st.users[AuthId(u) := ToDict(u)],
        usernames := st.usernames[UserRecords.Str(u.username) := AuthId(u)],
        members := st.members + {AuthId(u)})
  }

  /** `get_user_by_id`. */
  function UserById(st: AppState, id: string, now: string): Option<User>
  {
    if id in st.users && st.users[id] != map[] then Some(FromDict(st.users[id], now)) else None
  }

  /** `get_user_by_username`: the index entry, when truthy, then the hash. */
  function UserByName(st: AppState, name: string, now: string): Option<User>
  {
    if name in st.usernames && st.usernames[name] != "" then UserById(st, st.usernames[name], now) else None
  }

  /** How a registration ends. `Crashed` is the `TypeError` of `len(None)`
      for a missing form field. */
  datatype RegisterOutcome =
    | Registered(userId: string)
    | Rejected(error: string)
    | Crashed(error: string)

  /** `POST /register`: the name is escaped before its length is checked,
      the password is not; an existing name is refused; otherwise the
      counter gives the new identifier and the user is saved as a
      non-admin. `passwordHash` is `generate_password_hash(password)`. */
  function RegisterSpec(st: AppState, username: Option<string>, password: Option<string>,
                        passwordHash: string, now: string): (r: (RegisterOutcome, AppState))
  {
    var name := SanitizeHtml(username);
    if name.None? then (Crashed("TypeError"), st)
    else if |name.value| < MinUsernameLength then (Rejected("Username must be at least 3 characters"), st)
    else if password.None? then (Crashed("TypeError"), st)
    else if |password.value| < MinPasswordLength then (Rejected("Password must be at least 6 characters"), st)
    else if UserByName(st, name.value, now).Some? then (Rejected("Username already exists"), st)
    else
      var id := NatToString(st.counter + 1);
      var u := NewUser(Some(id), name, Some(passwordHash), false, None, now);
      (Registered(id), SaveUserSpec(st.(counter := st.counter + 1), u))
  }

  /** A registration succeeds exactly when the escaped name has at least
      three characters, the password at least six, and the name is free;
      the new user then has the next counter value as identifier, is not
      an admin, and is found again by name. */
  lemma RegisterValidation(st: AppState, username: string, password: string, passwordHash: string, now: string)
    ensures var (r, after) := RegisterSpec(st, Some(username), Some(password), passwordHash, now);
      var name := Escape(username);
      && (r.Registered? <==>
            |name| >= MinUsernameLength && |password| >= MinPasswordLength && UserByName(st, name, now).None?)
      && (!r.Registered? ==> after == st)
      && (r.Registered? ==>
            && r.userId == NatToString(st.counter + 1)
            && after.counter == st.counter + 1
            && name in after.usernames && after.usernames[name] == r.userId
            && r.userId in after.members
            && UserByName(after, name, now) == Some(User(Some(r.userId), Some(name), Some(passwordHash), false, now)))
  {
    var name := Escape(username);
    if |name| >= MinUsernameLength && |password| >= MinPasswordLength && UserByName(st, name, now).None? {
      RegisterSaves(st, username, password, passwordHash, now);
    }
  }

  /** The success half: the new user as saved and as read back by name. */
  lemma RegisterSaves(st: AppState, username: string, password: string, passwordHash: string, now: string)
    requires |Escape(username)| >= MinUsernameLength && |password| >= MinPasswordLength
    requires UserByName(st, Escape(username), now).None?
    ensures var (r, after) := RegisterSpec(st, Some(username), Some(password), passwordHash, now);
      var name := Escape(username);
      var id := NatToString(st.counter + 1);
      && r == Registered(id)
      && after.counter == st.counter + 1
      && name in after.usernames && after.usernames[name] == id
      && id in after.members
      && UserByName(after, name, now) == Some(User(Some(id), Some(name), Some(passwordHash), false, now))
  {
    var name := Escape(username);
    var id := NatToString(st.counter + 1);
    var u := User(Some(id), Some(name), Some(passwordHash), false, now);
    assert NewUser(Some(id), Some(name), Some(passwordHash), false, None, now) == u;
    var after := SaveUserSpec(st.(counter := st.counter + 1), u);
    assert RegisterSpec(st, Some(username), Some(password), passwordHash, now) == (Registered(id), after);
    assert AuthId(u) == id && id != "";
    assert after.users[id] == ToDict(u) != map[];
    if now != "" {
      RoundTrip(u, now);
    } else {
      assert FromDict(ToDict(u), now) == u;
    }
    assert UserById(after, id, now) == Some(u);
  }

  /** A missing name or password ends the request with a `TypeError`. */
  lemma RegisterMissingField(st: AppState, username: Option<string>, password: Option<string>,
                             passwordHash: string, now: string)
    requires username.None? || (password.None? && |Escape(username.value)| >= MinUsernameLength)
    ensures RegisterSpec(st, username, password, passwordHash, now) == (Crashed("TypeError"), st)
  {
  }

  // --------------------------------------------------------- the admin user

  /** `ADMIN_USERNAME` at its default, and the fixed identifier `init_admin`
      gives the admin. */
  const AdminUsername: string := "admin"
  const AdminId: string := "1"

  /** The keyspace before anything is stored. */
  const EmptyApp: AppState := AppState(map[], map[], {}, 0, map[], map[], map[])

  /** The admin `init_admin` saves; `adminHash` is
      `generate_password_hash(ADMIN_PASSWORD)`. */
  function AdminUser(adminHash: string, now: string): User {
    NewUser(Some(AdminId), Some(AdminUsername), Some(adminHash), true, None, now)
  }

  /** `init_admin` as written: when no user is found under the admin's
      name, the admin is saved under the fixed identifier `1`, and the
      identifier counter is left as it is. */
  function InitAdminAsWritten(st: AppState, adminHash: string, now: string): AppState {
    if UserByName(st, AdminUsername, now).Some? then st
    else SaveUserSpec(st, AdminUser(adminHash, now))
  }

  /** `init_admin` as intended: the admin keeps the identifier `1`, and the
      counter is moved past it so that registration never hands it out. */
  function InitAdminSpec(st: AppState, adminHash: string, now: string): AppState {
    if UserByName(st, AdminUsername, now).Some? then st
    else SaveUserSpec(st.(counter := if st.counter < 1 then 1 else st.counter), AdminUser(adminHash, now))
  }

  /** No counter value but one is written `1`. */
  lemma NatToStringNotOne(n: nat)
    requires n != 1
    ensures NatToString(n) != AdminId
  {
    if n >= 10 {
      assert |NatToString(n)| == |NatToString(n / 10)| + 1;
    } else {
      assert NatToString(n) == [(48 + n) as char];
    }
  }

  /** As written, on a fresh keyspace the first registration of any other
      name is given the identifier `1` and overwrites the admin: the admin's
      name then leads to the new, non-admin user, and `init_admin` at the
      next start finds that user and restores nothing. */
  lemma AdminOverwrittenAsWritten(adminHash: string, start: string, username: string, password: string,
                                  passwordHash: string, now: string)
    requires |Escape(username)| >= MinUsernameLength && |password| >= MinPasswordLength
    requires Escape(username) != AdminUsername
    ensures var a := InitAdminAsWritten(EmptyApp, adminHash, start);
      var (r, after) := RegisterSpec(a, Some(username), Some(password), passwordHash, now);
      var newUser := User(Some(AdminId), Some(Escape(username)), Some(passwordHash), false, now);
      && a.counter == 0
      && r == Registered(AdminId)
      && after.users[AdminId] == ToDict(newUser)
      && UserByName(after, AdminUsername, now) == Some(newUser)
      && InitAdminAsWritten(after, adminHash, now) == after
  {
    var a := InitAdminAsWritten(EmptyApp, adminHash, start);
    var name := Escape(username);
    assert a.usernames == map[AdminUsername := AdminId];
    assert UserByName(a, name, now).None?;
    assert NatToString(1) == AdminId;
    RegisterSaves(a, username, password, passwordHash, now);
    var after := RegisterSpec(a, Some(username), Some(password), passwordHash, now).1;
    assert after.usernames[AdminUsername] == AdminId;
  }

  /** With the counter moved past the admin, no registration, successful or
      not, changes the admin's hash or the entry of its name, so the admin
      is found by name before and after. */
  lemma AdminSurvivesRegistration(st: AppState, adminHash: string, start: string, username: Option<string>,
                                  password: Option<string>, passwordHash: string, now: string, t: string)
    requires UserByName(st, AdminUsername, start).None?
    ensures var a := InitAdminSpec(st, adminHash, start);
      var after := RegisterSpec(a, username, password, passwordHash, now).1;
      && a.counter >= 1
      && a.users[AdminId] == ToDict(AdminUser(adminHash, start)) && a.usernames[AdminUsername] == AdminId
      && after.users[AdminId] == a.users[AdminId] && after.usernames[AdminUsername] == AdminId
      && UserByName(after, AdminUsername, t) == UserByName(a, AdminUsername, t)
      && UserByName(a, AdminUsername, t).Some? && UserByName(a, AdminUsername, t).value.isAdmin
  {
    var a := InitAdminSpec(st, adminHash, start);
    var adminDict := ToDict(AdminUser(adminHash, start));
    assert adminDict["is_admin"] == "true";
    assert UserById(a, AdminId, t) == Some(FromDict(adminDict, t));
    var (r, after) := RegisterSpec(a, username, password, passwordHash, now);
    if r.Registered? {
      var name := Escape(username.value);
      assert UserByName(a, name, now).None?;
      assert name != AdminUsername;
      NatToStringNotOne(a.counter + 1);
      assert r.userId == NatToString(a.counter + 1) != AdminId;
    }
  }

  /** `save_message` of the application: the identifier is
      `"{user_id}:{timestamp}"` and the message joins the user's list. */
  function SaveMessageSpec(st: AppState, userId: string, role: string, content: string, sessionId: string,
                           stamp: string, now: string): AppState
  {
    var id := userId + ":" + stamp;
    var z := if userId in st.userMessages then st.userMessages[userId] else [];
    st.(messages := st.messages[id := Message(id, userId, role, content, now, sessionId)],
        userMessages := st.userMessages[userId := ZAdd(z, id)])
  }

  /** `get_user_messages`: the stored messages among the newest `limit`
      identifiers of the user, oldest first. */
  function UserMessagesSpec(st: AppState, userId: string, limit: int): seq<Message>
  {
    Present(st.messages, Newest(if userId in st.userMessages then st.userMessages[userId] else [], limit))
  }

  /** The same counter as the blueprints' `check_rate_limit`. */
  function RateLimitSpec(st: AppState, userId: string): (r: (bool, AppState))
  {
    var (allowed, entry) := RateStep(if userId in st.rateLimits then Some(st.rateLimits[userId]) else None);
    (allowed, st.(rateLimits := st.rateLimits[userId := entry]))
  }

  /** A message just saved is the newest one the user's read returns, and
      the user's list holds each identifier once if it did before. */
  lemma SavedMessageReadFirst(st: AppState, userId: string, role: string, content: string, sessionId: string,
                              stamp: string, now: string)
    requires userId in st.userMessages ==> NoDup(st.userMessages[userId])
    ensures var after := SaveMessageSpec(st, userId, role, content, sessionId, stamp, now);
      var id := userId + ":" + stamp;
      && userId in after.userMessages && NoDup(after.userMessages[userId])
      && UserMessagesSpec(after, userId, 1) == [Message(id, userId, role, content, now, sessionId)]
  {
    var z := if userId in st.userMessages then st.userMessages[userId] else [];
    var id := userId + ":" + stamp;
    ZAddNoDup(z, id);
    NewestAdded(z, id, st.messages[id := Message(id, userId, role, content, now, sessionId)]);
  }

  /** The application's keyspace. */
  class AppStore {
    var users: map<string, Hash>
    var usernames: map<string, string>
    var members: set<string>
    var counter: nat
    var userMessages: map<string, seq<string>>
    var messages: map<string, Message>
    var rateLimits: map<string, RateEntry>

    function State(): AppState
      reads this
    {
      AppState(users, usernames, members, counter, userMessages, messages, rateLimits)
    }

    constructor()
      ensures State() == AppState(map[], map[], {}, 0, map[], map[], map[])
    {
      users, usernames, members, counter := map[], map[], {}, 0;
      userMessages, messages, rateLimits := map[], map[], map[];
    }

    method SaveUser(u: User)
      modifies this
      ensures State() == SaveUserSpec(old(State()), u)
    {
      users := users[UserRecords.Str(u.id) := ToDict(u)];
      usernames := usernames[UserRecords.Str(u.username) := UserRecords.Str(u.id)];
      members := members + {UserRecords.Str(u.id)};
    }

    method Register(username: Option<string>, password: Option<string>, passwordHash: string, now: string)
      returns (outcome: RegisterOutcome)
      modifies this
      ensures (outcome, State()) == RegisterSpec(old(State()), username, password, passwordHash, now)
    {
      var name := SanitizeHtml(username);
      if name.None? {
        return Crashed("TypeError");
      }
      if |name.value| < 3 {
        return Rejected("Username must be at least 3 characters");
      }
      if password.None? {
        return Crashed("TypeError");
      }
      if |password.value| < 6 {
        return Rejected("Password must be at least 6 characters");
      }
      var existing := UserByName(State(), name.value, now);
      if existing.Some? {
        return Rejected("Username already exists");
      }
      counter := counter + 1;
      var userId := NatToString(counter);
      SaveUser(NewUser(Some(userId), name, Some(passwordHash), false, None, now));
      outcome := Registered(userId);
    }

    /** `init_admin`, with the counter moved past the admin's identifier
        (see `InitAdminAsWritten` for the code as it stands). */
    method InitAdmin(adminHash: string, now: string)
      modifies this
      ensures State() == InitAdminSpec(old(State()), adminHash, now)
    {
      var admin := UserByName(State(), AdminUsername, now);
      if admin.None? {
        if counter < 1 {
          counter := 1;
        }
        SaveUser(AdminUser(adminHash, now));
      }
    }

    method SaveMessage(userId: string, role: string, content: string, sessionId: string,
                       stamp: string, now: string)
      modifies this
      ensures State() == SaveMessageSpec(old(State()), userId, role, content, sessionId, stamp, now)
    {
      var id := userId + ":" + stamp;
      messages := messages[id := Message(id, userId, role, content, now, sessionId)];
      var z := if userId in userMessages then userMessages[userId] else [];
      userMessages := userMessages[userId := ZAdd(z, id)];
    }

    method GetUserMessages(userId: string, limit: int) returns (ms: seq<Message>)
      ensures ms == UserMessagesSpec(State(), userId, limit)
    {
      var z := if userId in userMessages then userMessages[userId] else [];
      ms := ReadNewest(z, messages, limit);
    }

    method CheckRateLimit(userId: string) returns (allowed: bool)
      modifies this
      ensures (allowed, State()) == RateLimitSpec(old(State()), userId)
    {
      var current := (if userId in rateLimits then rateLimits[userId].count else 0) + 1;
      var ttl := if userId in rateLimits then rateLimits[userId].ttl else None;
      if current == 1 {
        ttl := Some(RateLimitWindow);
      }
      rateLimits := rateLimits[userId := RateEntry(current, ttl)];
      allowed := current <= RateLimitMax;
    }
  }

  // ------------------------------------------------------------------ CSRF

  /** `validate_csrf_token`: the token is truthy, the session holds one,
      and they are equal. */
  function ValidCsrf(sessionToken: Option<string>, token: Option<string>): (ok: bool)
    ensures ok <==> token.Some? && token.value != "" && sessionToken == token
  {
    token.Some? && token.value != "" && sessionToken.Some? && sessionToken.value == token.value
  }

  /** The request methods the CSRF check applies to. */
  predicate ChangesState(httpMethod: string) {
    httpMethod == "POST" || httpMethod == "PUT" || httpMethod == "DELETE" || httpMethod == "PATCH"
  }

  /** `csrf_protect`: a state-changing request outside `/ws` and `/api/`
      is refused with 403 unless the form token, or when it is falsy the
      `X-CSRF-Token` header, matches the session's token. */
  function CsrfRefuses(httpMethod: string, path: string, formToken: Option<string>,
                       headerToken: Option<string>, sessionToken: Option<string>): bool
  {
    var token := if formToken.Some? && formToken.value != "" then formToken else headerToken;
    ChangesState(httpMethod) && !StartsWith(path, "/ws") && !StartsWith(path, "/api/")
      && !ValidCsrf(sessionToken, token)
  }

  /** A request carrying the session's own non-empty token in its form is
      never refused, and a state-changing page request without any token
      always is. */
  lemma CsrfGate(httpMethod: string, path: string, header: Option<string>, sessionToken: Option<string>)
    ensures sessionToken.Some? && sessionToken.value != "" ==>
      !CsrfRefuses(httpMethod, path, sessionToken, header, sessionToken)
    ensures ChangesState(httpMethod) && !StartsWith(path, "/ws") && !StartsWith(path, "/api/") ==>
      CsrfRefuses(httpMethod, path, None, None, sessionToken)
  {
  }

  /** The session of one browser, as far as the CSRF token goes. */
  class CsrfSession {
    var token: Option<string>

    constructor()
      ensures token.None?
    {
      token := None;
    }

    /** `generate_csrf_token`: `newToken` is the `secrets.token_hex(16)`
        value used when the session has no token yet. */
    method Generate(newToken: string) returns (t: string)
      modifies this
      ensures old(token).Some? ==> t == old(token).value
      ensures old(token).None? ==> t == newToken
      ensures token == Some(t)
    {
      if token.None? {
        token := Some(newToken);
      }
      t := token.value;
    }
  }

  /** The token a page was rendered with validates against the session
      that holds it, and no other token does. */
  lemma GeneratedTokenValidates(t: string)
    requires t != ""
    ensures ValidCsrf(Some(t), Some(t))
    ensures forall other :: other != t ==> !ValidCsrf(Some(t), Some(other))
  {
  }

  // ------------------------------------------------------------ generation

  /** `get_ai_response` of the application: the typing indicator, one
      `stream` message per `response` text up to the line whose `done` flag
      ends the loop, and the indicator's stop; the reply is the texts in
      order. Timeouts and other failures are not modelled. */
  method GetAiResponse(lines: seq<Bytes>, decode: LineDecoder) returns (full: string, events: seq<Event>)
    ensures var texts := Texts(decode, lines[..StopIndex(decode, lines)]);
      full == Concat(texts) && events == [TypingStart] + Streams(texts) + [TypingStop]
  {
    events := [TypingStart];
    var sent;
    full, sent := Accumulate(lines, decode);
    events := events + Streams(sent) + [TypingStop];
  }
}

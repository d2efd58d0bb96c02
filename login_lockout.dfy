/** The login form of the web interface: credentials are checked against the
    user table, an account with too many failed attempts is locked for a
    quarter of an hour, and a successful login clears the failure count.
    Time is a number of seconds. */
module LoginLockout {
  import opened Wrappers
  import opened Text

  /** Failures at which the account is locked. */
  const MaxAttempts: nat := 5

  /** `timedelta(minutes=15)`. */
  const LockSeconds: nat := 900

  const SecondsPerDay: nat := 86400

  /** A row of the `users` table, as far as login is concerned. */
  datatype Account = Account(
    id: nat,
    password: string,
    loginAttempts: nat,
    isLocked: bool,
    lockedUntil: Option<int>,
    lastLogin: Option<int>)

  /** How a login request ends. `LockedOut` carries the minutes reported;
      `Crashed` is an exception the handler does not catch. */
  datatype Outcome =
    | LoggedIn(userId: nat)
    | MissingCredentials
    | LockedOut(minutes: nat)
    | Invalid
    | Crashed(error: string)

  /** The message rendered on the login page, if any. */
  function Message(o: Outcome): Option<string> {
    match o
    case MissingCredentials => Some("Username and password are required")
    case Invalid => Some("Invalid username or password")
    case LockedOut(m) => Some("Account is locked. Try again in " + NatToString(m) + " minutes.")
    case _ => None
  }

  /** `remaining_time.seconds // 60`: the seconds field of a `timedelta`
      never counts whole days. */
  function RemainingMinutes(until: int, now: int): (m: nat)
    requires until > now
    ensures m < 24 * 60
  {
    ((until - now) % SecondsPerDay) / 60
  }

  /** The lock check of the handler. */
  predicate LockActive(a: Account, now: int) {
    a.isLocked && a.lockedUntil.Some? && a.lockedUntil.value > now
  }

  predicate Supplied(field: Option<string>) {
    field.Some? && field.value != ""
  }

  /** The account after one more failure: locked for fifteen minutes from
      now once the count reaches five. */
  function AfterFailure(a: Account, now: int): Account {
    var attempts := a.loginAttempts + 1;
    if attempts >= MaxAttempts then
      a.(loginAttempts := attempts, isLocked := true, lockedUntil := Some(now + LockSeconds))
    else a.(loginAttempts := attempts)
  }

  /** One login request, with the failure count stored as the lockout logic
      intends. The result is the outcome and the new table. */
  function Attempt(rows: map<string, Account>, username: Option<string>, password: Option<string>,
                   now: int): (Outcome, map<string, Account>)
  {
    if !Supplied(username) || !Supplied(password) then (MissingCredentials, rows)
    else if username.value !in rows then (Invalid, rows)
    else
      var a := rows[username.value];
      if a.isLocked && a.lockedUntil.None? then (Crashed("TypeError"), rows)
      else if LockActive(a, now) then (LockedOut(RemainingMinutes(a.lockedUntil.value, now)), rows)
      else if a.password == password.value then
        (LoggedIn(a.id), rows[username.value := a.(loginAttempts := 0, lastLogin := Some(now))])
      else (Invalid, rows[username.value := AfterFailure(a, now)])
  }

  /** The same request as the handler is written: the query selects no
      `login_attempts` column, so reading it after a wrong password raises
      `KeyError` before anything is stored. */
  function AttemptAsWritten(rows: map<string, Account>, username: Option<string>,
                            password: Option<string>, now: int): (Outcome, map<string, Account>)
  {
    if !Supplied(username) || !Supplied(password) then (MissingCredentials, rows)
    else if username.value !in rows then (Invalid, rows)
    else
      var a := rows[username.value];
      if a.isLocked && a.lockedUntil.None? then (Crashed("TypeError"), rows)
      else if LockActive(a, now) then (LockedOut(RemainingMinutes(a.lockedUntil.value, now)), rows)
      else if a.password == password.value then
        (LoggedIn(a.id), rows[username.value := a.(loginAttempts := 0, lastLogin := Some(now))])
      else (Crashed("KeyError: login_attempts"), rows)
  }

  /** The `users` table the handler reads and updates, keyed by user name. */
  class UserTable {
    var rows: map<string, Account>

    constructor(initial: map<string, Account>)
      ensures rows == initial
    {
      rows := initial;
    }

    /** `POST /login`. */
    method Login(username: Option<string>, password: Option<string>, now: int)
      returns (outcome: Outcome)
      modifies this
      ensures (outcome, rows) == Attempt(old(rows), username, password, now)
    {
      if username.None? || username.value == "" || password.None? || password.value == "" {
        return MissingCredentials;
      }
      var name := username.value;
      if name !in rows {
        return Invalid;
      }
      var user := rows[name];
      if user.isLocked && user.lockedUntil.None? {
        return Crashed("TypeError");
      }
      if user.isLocked && user.lockedUntil.value > now {
        return LockedOut(((user.lockedUntil.value - now) % 86400) / 60);
      }
      if user.password == password.value {
        rows := rows[name := user.(loginAttempts := 0, lastLogin := Some(now))];
        return LoggedIn(user.id);
      }
      var attempts := user.loginAttempts + 1;
      if attempts >= 5 {
        rows := rows[name := user.(loginAttempts := attempts, isLocked := true,
                                   lockedUntil := Some(now + 900))];
      } else {
        rows := rows[name := user.(loginAttempts := attempts)];
      }
      outcome := Invalid;
    }
  }

  /** A locked account whose lock has not run out is refused, even with the
      right password, and nothing is written. The minutes reported are those
      of `remaining_time.seconds // 60`, below a day and never more than the
      whole minutes left in the lock. */
  lemma LockedRefused(rows: map<string, Account>, name: string, password: string, now: int)
    requires name != "" && name in rows && LockActive(rows[name], now) && password != ""
    ensures var r := Attempt(rows, Some(name), Some(password), now);
      && r.0 == LockedOut(RemainingMinutes(rows[name].lockedUntil.value, now))
      && r.0.minutes < 24 * 60
      && r.0.minutes * 60 <= rows[name].lockedUntil.value - now
      && r.1 == rows
  {
    var d := rows[name].lockedUntil.value - now;
    assert d % SecondsPerDay <= d;
    assert (d % SecondsPerDay) / 60 * 60 <= d % SecondsPerDay;
  }

  /** A login with the right password on an account that is not locked
      signs the user in and clears the failure count; every other row and
      the lock fields stay as they were. */
  lemma SuccessResets(rows: map<string, Account>, name: string, now: int)
    requires name != "" && name in rows && !LockActive(rows[name], now) && rows[name].password != ""
    requires !rows[name].isLocked || rows[name].lockedUntil.Some?
    ensures var r := Attempt(rows, Some(name), Some(rows[name].password), now);
      && r.0 == LoggedIn(rows[name].id)
      && name in r.1 && r.1[name].loginAttempts == 0
      && r.1[name].isLocked == rows[name].isLocked
      && r.1[name].lockedUntil == rows[name].lockedUntil
      && forall other :: other in rows && other != name ==> other in r.1 && r.1[other] == rows[other]
  {
  }

  /** A wrong password on an account that is not locked counts one more
      failure and answers "Invalid username or password"; the account is
      locked for fifteen minutes exactly when the count reaches five. */
  lemma FailureCounts(rows: map<string, Account>, name: string, password: string, now: int)
    requires name != "" && name in rows && !LockActive(rows[name], now) && password != ""
    requires !rows[name].isLocked || rows[name].lockedUntil.Some?
    requires rows[name].password != password
    ensures var r := Attempt(rows, Some(name), Some(password), now);
      var a := rows[name];
      && r.0 == Invalid && Message(r.0) == Some("Invalid username or password")
      && name in r.1 && r.1[name].loginAttempts == a.loginAttempts + 1
      && (a.loginAttempts + 1 >= MaxAttempts ==>
            r.1[name].isLocked && r.1[name].lockedUntil == Some(now + LockSeconds))
      && (a.loginAttempts + 1 < MaxAttempts ==>
            r.1[name].isLocked == a.isLocked && r.1[name].lockedUntil == a.lockedUntil)
      && forall other :: other in rows && other != name ==> other in r.1 && r.1[other] == rows[other]
  {
  }

  /** A run of failed logins with one wrong password, at the given times. */
  function Failures(rows: map<string, Account>, name: string, wrong: string, times: seq<int>)
    : map<string, Account>
  {
    if times == [] then rows
    else Attempt(Failures(rows, name, wrong, times[..|times| - 1]), Some(name), Some(wrong),
                 times[|times| - 1]).1
  }

  /** From an unlocked account with no failures, each wrong password adds
      one failure and leaves it unlocked until the fifth, which locks it for
      fifteen minutes from that moment. */
  lemma {:induction false} FailuresAccumulate(rows: map<string, Account>, name: string, wrong: string,
                                              times: seq<int>)
    requires name != "" && name in rows && !rows[name].isLocked && rows[name].loginAttempts == 0
    requires wrong != "" && rows[name].password != wrong
    requires |times| <= MaxAttempts
    ensures var after := Failures(rows, name, wrong, times);
      && name in after
      && after[name].loginAttempts == |times|
      && after[name].password == rows[name].password
      && (|times| < MaxAttempts ==> !after[name].isLocked)
      && (|times| == MaxAttempts ==>
            after[name].isLocked && after[name].lockedUntil == Some(times[|times| - 1] + LockSeconds))
    decreases |times|
  {
    if times != [] {
      FailuresAccumulate(rows, name, wrong, times[..|times| - 1]);
      var before := Failures(rows, name, wrong, times[..|times| - 1]);
      FailureCounts(before, name, wrong, times[|times| - 1]);
    }
  }

  /** As written, no login request ever changes the lock fields or raises
      the failure count of any account: the lockout never engages. */
  lemma AsWrittenNeverLocks(rows: map<string, Account>, username: Option<string>,
                            password: Option<string>, now: int, other: string)
    requires other in rows
    ensures var r := AttemptAsWritten(rows, username, password, now);
      && other in r.1
      && r.1[other].isLocked == rows[other].isLocked
      && r.1[other].lockedUntil == rows[other].lockedUntil
      && r.1[other].loginAttempts <= rows[other].loginAttempts
  {
  }

  /** An account one failure short of the lock: the intended handler locks
      it on a wrong password, the handler as written raises `KeyError`. */
  lemma AsWrittenCrashesOnWrongPassword()
    ensures var rows := map["alice" := Account(1, "secret", 4, false, None, None)];
      && AttemptAsWritten(rows, Some("alice"), Some("guess"), 1000).0 == Crashed("KeyError: login_attempts")
      && AttemptAsWritten(rows, Some("alice"), Some("guess"), 1000).1 == rows
      && Attempt(rows, Some("alice"), Some("guess"), 1000).1["alice"].isLocked
      && Attempt(rows, Some("alice"), Some("guess"), 1000).1["alice"].lockedUntil == Some(1900)
  {
  }
}

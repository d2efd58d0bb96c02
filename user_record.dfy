/** The user record of the quart application and its Redis hash form:
    `User.to_dict` writes every field as text, the admin flag as `"true"`
    or `"false"`, and `User.from_dict` reads them back. */
module UserRecords {
  import opened Wrappers
  import opened Text

  /** A Redis hash: field names to text. */
  type Hash = map<string, string>

  /** A user. The identifier, name and password hash may be `None`; the
      creation time is always a text, because the constructor replaces a
      missing one. */
  datatype User = User(
    id: Option<string>,
    username: Option<string>,
    passwordHash: Option<string>,
    isAdmin: bool,
    createdAt: string)

  /** `User(...)`: `created_at or datetime.utcnow().isoformat()`, where
      `now` is the text of the current time. */
  function NewUser(id: Option<string>, username: Option<string>, passwordHash: Option<string>,
                   isAdmin: bool, createdAt: Option<string>, now: string): (u: User)
    ensures u.id == id && u.username == username && u.passwordHash == passwordHash
    ensures u.isAdmin == isAdmin
    ensures createdAt.Some? && createdAt.value != "" ==> u.createdAt == createdAt.value
    ensures createdAt.None? || createdAt.value == "" ==> u.createdAt == now
  {
    User(id, username, passwordHash, isAdmin,
         if createdAt.Some? && createdAt.value != "" then createdAt.value else now)
  }

  /** `str(v)` for a text or `None`. */
  function Str(v: Option<string>): string {
    match v
    case None => "None"
    case Some(s) => s
  }

  /** `str(b).lower()`. */
  function BoolText(b: bool): (t: string)
    ensures Lower(t) == "true" <==> b
  {
    if b then "true" else "false"
  }

  /** `dict.get(key)`. */
  function Get(d: Hash, key: string): (v: Option<string>)
    ensures v.Some? <==> key in d
    ensures v.Some? ==> v.value == d[key]
  {
    if key in d then Some(d[key]) else None
  }

  const UserFields: set<string> := {"id", "username", "password_hash", "is_admin", "created_at"}

  /** The `auth_id` property: `str(self.id)`. */
  function AuthId(u: User): string {
    Str(u.id)
  }

  /** `User.to_dict`: the five fields, each as text. */
  function ToDict(u: User): (d: Hash)
    ensures d.Keys == UserFields
    ensures d["is_admin"] == "true" || d["is_admin"] == "false"
  {
    map["id" := Str(u.id), "username" := Str(u.username), "password_hash" := Str(u.passwordHash),
        "is_admin" := BoolText(u.isAdmin), "created_at" := u.createdAt]
  }

  /** `User.from_dict`: missing fields are `None`, a missing admin flag
      reads as `"false"`, and the flag is set when its text, lowered, is
      `"true"`. */
  function FromDict(d: Hash, now: string): (u: User)
    ensures u.isAdmin <==> "is_admin" in d && Lower(d["is_admin"]) == "true"
    ensures "is_admin" !in d ==> !u.isAdmin
  {
    NewUser(Get(d, "id"), Get(d, "username"), Get(d, "password_hash"),
            Lower(if "is_admin" in d then d["is_admin"] else "false") == "true",
            Get(d, "created_at"), now)
  }

  /** Writing a user and reading it back gives the same user whenever its
      identifier, name and password hash are set and its creation time is
      not empty. */
  lemma RoundTrip(u: User, now: string)
    requires u.id.Some? && u.username.Some? && u.passwordHash.Some? && u.createdAt != ""
    ensures FromDict(ToDict(u), now) == u
  {
    var d := ToDict(u);
    assert Get(d, "id") == u.id && Get(d, "username") == u.username;
    assert Get(d, "password_hash") == u.passwordHash && Get(d, "created_at") == Some(u.createdAt);
  }

  /** A field that is `None` is written as the text `"None"` and read back
      as that text: the round trip does not restore it. */
  lemma NoneIsWrittenAsText(u: User, now: string)
    requires u.id.None?
    ensures FromDict(ToDict(u), now).id == Some("None")
    ensures AuthId(FromDict(ToDict(u), now)) == AuthId(u)
  {
    assert Get(ToDict(u), "id") == Some("None");
  }
}

/** The user schema: its validators, the defaults of a new document, the
    pre-save hook that hashes the password and the password check. bcrypt's
    `hash` and `compare` are parameters. */
module UserModel {
  import opened Util
  import opened Errors
  import opened Records

  /** A user as queries return it: `select: false` leaves `password` out, and
      `getToken` deletes it from the document it returns. */
  datatype PublicUser = PublicUser(
    id: Id,
    name: string,
    email: string,
    role: Role,
    gender: Option<Gender>,
    avatar: Option<string>,
    age: Option<int>,
    favouriteArticles: seq<Id>,
    myArticles: seq<Id>,
    createdAt: int)
  {
    /** The document this view was taken from, given its password back. */
    function WithPassword(password: Option<string>): User {
      User(name, email, password, role, gender, avatar, age, favouriteArticles, myArticles, createdAt)
    }
  }

  /** The public view of a stored user: only the password is lost, everything
      else of the document survives. */
  function Strip(id: Id, u: User): (p: PublicUser)
    ensures p.id == id
    ensures p.WithPassword(u.password) == u
  {
    PublicUser(id, u.name, u.email, u.role, u.gender, u.avatar, u.age,
               u.favouriteArticles, u.myArticles, u.createdAt)
  }

  /** The `minlength` of `password`. */
  const MinPasswordLength: nat := 6

  function MinLengthMessage(value: string): string {
    "Path `password` (`" + value + "`) is shorter than the minimum allowed length (6)."
  }

  /** A `required` validator on a string path: a missing or empty value fails
      with the path's own message. */
  function RequiredFailures(path: string, message: string, value: string): (r: seq<PathError>)
    ensures r == [] <==> value != ""
    ensures forall e :: e in r ==> e.path == path && e.message == message
  {
    if value == "" then [PathError(path, message)] else []
  }

  const NameRequired := "Please add username"
  const EmailRequired := "Please add an email"

  /** The `minlength` validator of `password`; an absent password is not checked. */
  function PasswordFailures(password: Option<string>): (r: seq<PathError>)
    ensures r == [] <==> password.None? || |password.value| >= MinPasswordLength
  {
    if password.Some? && |password.value| < MinPasswordLength then
      [PathError("password", MinLengthMessage(password.value))]
    else []
  }

  /** Validation of a new document before it is saved: every failing path, in
      schema order, in one `User validation failed` error. */
  function ValidateUser(u: User): (r: Outcome)
    ensures r.Pass? <==> u.name != "" && u.email != ""
                          && (u.password.None? || |u.password.value| >= MinPasswordLength)
    ensures r.Fail? ==> r.error.name == "ValidationError" && r.error.status.None?
  {
    var failures := RequiredFailures("name", NameRequired, u.name) + RequiredFailures("email", EmailRequired, u.email) + PasswordFailures(u.password);
    if failures == [] then Pass else Fail(ValidationError("User validation failed", failures))
  }

  /** A new document with the schema defaults: role USER, no optional fields,
      empty article lists. */
  function NewUser(name: string, email: string, password: Option<string>, now: int): (u: User)
    ensures u.role == USER
    ensures u.favouriteArticles == [] && u.myArticles == []
    ensures u.gender.None? && u.avatar.None? && u.age.None?
    ensures u.name == name && u.email == email && u.password == password && u.createdAt == now
  {
    User(name, email, password, USER, None, None, None, [], [], now)
  }

  /** The pre-save hook on a new document: the stored password is the hash of
      the supplied one; every other field is kept. */
  function HashOnSave(u: User, hash: string -> string): (r: User)
    ensures r.password.Some? <==> u.password.Some?
    ensures u.password.Some? ==> r.password.value == hash(u.password.value)
    ensures r.(password := u.password) == u
  {
    if u.password.Some? then u.(password := Some(hash(u.password.value))) else u
  }

  /** `matchPassword`: a user without a stored password (or with an empty one)
      accepts any entered password; otherwise bcrypt decides. */
  function MatchPassword(stored: Option<string>, entered: string, compare: (string, string) -> bool): (ok: bool)
    ensures stored.None? || stored.value == "" ==> ok
    ensures stored.Some? && stored.value != "" ==> ok == compare(entered, stored.value)
  {
    if stored.Some? && stored.value != "" then compare(entered, stored.value) else true
  }

  /** A saved password is checked against its hash: when bcrypt accepts a
      password against its own hash, the password given at sign-up matches. */
  lemma {:induction false} SavedPasswordMatches(u: User, hash: string -> string, compare: (string, string) -> bool)
    requires u.password.Some?
    requires compare(u.password.value, hash(u.password.value))
    ensures MatchPassword(HashOnSave(u, hash).password, u.password.value, compare)
  {
  }

  /** Without a stored password every entered password is accepted, whatever bcrypt would say. */
  lemma {:induction false} PasswordlessAcceptsAnything(u: User, hash: string -> string, entered: string, compare: (string, string) -> bool)
    requires u.password.None?
    ensures MatchPassword(HashOnSave(u, hash).password, entered, compare)
  {
  }
}

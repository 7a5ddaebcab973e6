/** The auth service: sign-up stores a new user with a lower-cased email and a
    hashed password; sign-in finds a user by email or name and checks the
    password. bcrypt and JWT signing are parameters: `hash`, `compare` and
    `sign` stand for whatever those libraries compute. */
module AuthService {
  import opened Util
  import opened Errors
  import opened Records
  import opened Store
  import UserModel

  datatype AuthType = SIGNIN | SIGNUP

  /** The payload signed into a token. */
  datatype Claims = Claims(id: Id, role: Role)

  datatype AuthResult = AuthResult(user: UserModel.PublicUser, token: string, authType: AuthType)

  /** The sign-up request: the name, the email as typed and the password. */
  datatype SignUpInput = SignUpInput(name: string, email: string, password: Option<string>)

  /** `getToken`: a token signed over the id and role, and the stripped user. */
  function GetToken(id: Id, u: User, authType: AuthType, sign: Claims -> string): (r: AuthResult)
    ensures r.user.WithPassword(u.password) == u && r.user.id == id
    ensures r.token == sign(Claims(id, u.role))
    ensures r.authType == authType
  {
    AuthResult(UserModel.Strip(id, u), sign(Claims(id, u.role)), authType)
  }

  /** What a caller receives does not depend on the stored password. */
  lemma {:induction false} TokenIgnoresPassword(id: Id, u: User, q: Option<string>, authType: AuthType, sign: Claims -> string)
    ensures GetToken(id, u, authType, sign) == GetToken(id, u.(password := q), authType, sign)
  {
    assert UserModel.Strip(id, u) == UserModel.Strip(id, u.(password := q));
  }

  // ---------------------------------------------------------------------------
  // SignUp
  // ---------------------------------------------------------------------------

  predicate NameTaken(users: map<Id, User>, name: string) {
    exists k :: k in users && users[k].name == name
  }

  predicate EmailTaken(users: map<Id, User>, email: string) {
    exists k :: k in users && users[k].email == email
  }

  /** The document `User.create` builds from the request, email lower-cased. */
  function SignUpDocument(input: SignUpInput, now: int): (u: User)
    ensures u.email == ToLower(input.email) && u.name == input.name && u.password == input.password
    ensures u.role == USER && u.myArticles == [] && u.favouriteArticles == []
  {
    UserModel.NewUser(input.name, ToLower(input.email), input.password, now)
  }

  /** `SignUp`: validation first, then the pre-save hook hashes the password,
      then the unique indexes on `name` and `email` may reject the insert. On
      success the user is stored under a new id and a SIGNUP token returned. */
  function SignUpStep(s: DbState, input: SignUpInput, hash: string -> string, sign: Claims -> string, now: int): (out: (DbState, Result<AuthResult>))
    ensures out.1.Failure? ==> out.0 == s
    ensures out.1.Success? <==>
              && UserModel.ValidateUser(SignUpDocument(input, now)).Pass?
              && !NameTaken(s.users, input.name)
              && !EmailTaken(s.users, ToLower(input.email))
    ensures UserModel.ValidateUser(SignUpDocument(input, now)).Fail? ==>
              out.1 == Failure(UserModel.ValidateUser(SignUpDocument(input, now)).error)
    ensures UserModel.ValidateUser(SignUpDocument(input, now)).Pass? && NameTaken(s.users, input.name) ==>
              out.1 == Failure(DuplicateKeyError(["name"]))
    ensures (UserModel.ValidateUser(SignUpDocument(input, now)).Pass? && !NameTaken(s.users, input.name)
             && EmailTaken(s.users, ToLower(input.email))) ==>
              out.1 == Failure(DuplicateKeyError(["email"]))
    ensures out.1.Success? ==>
              var id := s.nextId;
              && id in out.0.users
              && out.0 == s.(users := s.users[id := out.0.users[id]], nextId := id + 1)
              && out.0.users[id].email == ToLower(input.email)
              && out.0.users[id].name == input.name
              && out.0.users[id].role == USER
              && (input.password.Some? ==> out.0.users[id].password == Some(hash(input.password.value)))
              && (input.password.None? ==> out.0.users[id].password.None?)
              && out.1.value.user == UserModel.Strip(id, out.0.users[id])
              && out.1.value.token == sign(Claims(id, USER))
              && out.1.value.authType == SIGNUP
  {
    var doc := SignUpDocument(input, now);
    var valid := UserModel.ValidateUser(doc);
    if valid.Fail? then (s, Failure(valid.error))
    else if NameTaken(s.users, doc.name) then (s, Failure(DuplicateKeyError(["name"])))
    else if EmailTaken(s.users, doc.email) then (s, Failure(DuplicateKeyError(["email"])))
    else
      var stored := UserModel.HashOnSave(doc, hash);
      var id := s.nextId;
      (s.(users := s.users[id := stored], nextId := id + 1), Success(GetToken(id, stored, SIGNUP, sign)))
  }

  method SignUp(db: Db, input: SignUpInput, hash: string -> string, sign: Claims -> string, now: int) returns (r: Result<AuthResult>)
    modifies db
    ensures (db.State(), r) == SignUpStep(old(db.State()), input, hash, sign, now)
  {
    var doc := SignUpDocument(input, now);
    var valid := UserModel.ValidateUser(doc);
    if valid.Fail? {
      return Failure(valid.error);
    }
    if NameTaken(db.users, doc.name) {
      return Failure(DuplicateKeyError(["name"]));
    }
    if EmailTaken(db.users, doc.email) {
      return Failure(DuplicateKeyError(["email"]));
    }
    var stored := UserModel.HashOnSave(doc, hash);
    var id := db.CreateUser(stored);
    r := Success(GetToken(id, stored, SIGNUP, sign));
  }

  /** Sign-up keeps the store consistent: the unique indexes keep names and
      emails distinct. */
  lemma {:induction false} SignUpKeepsConsistent(s: DbState, input: SignUpInput, hash: string -> string, sign: Claims -> string, now: int)
    requires Consistent(s)
    ensures Consistent(SignUpStep(s, input, hash, sign, now).0)
  {
    var out := SignUpStep(s, input, hash, sign, now);
    if out.1.Success? {
      var r := out.0;
      var id := s.nextId;
      assert id !in s.users;
      assert UniqueKeys(r.users) by {
        forall a, b | a in r.users && b in r.users && a != b
          ensures r.users[a].name != r.users[b].name && r.users[a].email != r.users[b].email
        {
          if a == id {
            assert !NameTaken(s.users, input.name) && !EmailTaken(s.users, ToLower(input.email));
            assert b in s.users;
          } else if b == id {
            assert !NameTaken(s.users, input.name) && !EmailTaken(s.users, ToLower(input.email));
            assert a in s.users;
          }
        }
      }
      assert Fresh(r);
    }
  }

  // ---------------------------------------------------------------------------
  // SignIn
  // ---------------------------------------------------------------------------

  /** The users `findOne({ $or: [{ email: lower-cased input }, { name: input }] })`
      can match: the email compares lower-cased, the name exactly as typed. */
  function SignInMatches(users: map<Id, User>, email: string): (m: set<Id>)
    ensures forall k :: k in m <==> k in users && (users[k].email == ToLower(email) || users[k].name == email)
  {
    set k | k in users && (users[k].email == ToLower(email) || users[k].name == email)
  }

  function NotRegistered(): ErrorRecord {
    ErrorResponse("\U{0415}he user is not registered", Some(401), "email")
  }

  function InvalidPassword(): ErrorRecord {
    ErrorResponse("Invalid password", Some(401), "password")
  }

  /** `SignIn`: `findOne` returns the first match in natural order; no match
      is a 401 on `email`, a password `matchPassword` rejects a 401 on
      `password`, otherwise a SIGNIN token for that user. */
  function SignIn(s: DbState, email: string, password: string, compare: (string, string) -> bool, sign: Claims -> string): (r: Result<AuthResult>)
    ensures SignInMatches(s.users, email) == {} <==> r == Failure(NotRegistered())
    ensures SignInMatches(s.users, email) != {} ==>
              var k := First(SignInMatches(s.users, email), NaturalKey());
              && (forall j :: j in SignInMatches(s.users, email) ==> k <= j)
              && (UserModel.MatchPassword(s.users[k].password, password, compare) ==>
                    r == Success(GetToken(k, s.users[k], SIGNIN, sign)))
              && (!UserModel.MatchPassword(s.users[k].password, password, compare) ==>
                    r == Failure(InvalidPassword()))
  {
    var matches := SignInMatches(s.users, email);
    if matches == {} then Failure(NotRegistered())
    else
      var k := First(matches, NaturalKey());
      if UserModel.MatchPassword(s.users[k].password, password, compare) then
        Success(GetToken(k, s.users[k], SIGNIN, sign))
      else Failure(InvalidPassword())
  }

  /** A user who signed up can sign in with the same password and an email `e`
      equal to the one given in any letter case the lower-casing folds,
      provided no earlier user is named `e` and bcrypt accepts a password
      against its own hash. */
  lemma {:induction false} SignUpThenSignIn(s: DbState, input: SignUpInput, e: string, hash: string -> string,
                                            compare: (string, string) -> bool, sign: Claims -> string, now: int)
    requires Consistent(s)
    requires SignUpStep(s, input, hash, sign, now).1.Success?
    requires input.password.Some? && compare(input.password.value, hash(input.password.value))
    requires ToLower(e) == ToLower(input.email) && !NameTaken(s.users, e)
    ensures var s' := SignUpStep(s, input, hash, sign, now).0;
            var r := SignIn(s', e, input.password.value, compare, sign);
            && r.Success? && r.value.user.id == s.nextId && r.value.authType == SIGNIN
            && r.value.token == sign(Claims(s.nextId, USER))
  {
    var s' := SignUpStep(s, input, hash, sign, now).0;
    var id := s.nextId;
    var m := SignInMatches(s'.users, e);
    assert forall k :: k in s.users ==> s.users[k].email != ToLower(e) && s.users[k].name != e;
    assert m == {id};
    assert First(m, NaturalKey()) == id;
  }

  /** The name branch of the lookup can shadow an email: when an earlier user
      is named exactly like another user's email, signing in with that email
      checks the password of the earlier user. */
  lemma {:induction false} NameShadowsEmail(s: DbState, named: Id, owner: Id, email: string, password: string,
                                            compare: (string, string) -> bool, sign: Claims -> string)
    requires Consistent(s)
    requires named in s.users && owner in s.users && named < owner
    requires s.users[named].name == email && s.users[owner].email == ToLower(email)
    ensures SignIn(s, email, password, compare, sign).Success? ==>
              SignIn(s, email, password, compare, sign).value.user.id != owner
  {
    var m := SignInMatches(s.users, email);
    assert named in m;
    var k := First(m, NaturalKey());
    assert k <= named;
  }

  /** A user stored without a password signs in with any password. */
  lemma {:induction false} PasswordlessSignIn(s: DbState, email: string, password: string, compare: (string, string) -> bool,
                                              sign: Claims -> string)
    requires SignInMatches(s.users, email) != {}
    requires s.users[First(SignInMatches(s.users, email), NaturalKey())].password.None?
    ensures SignIn(s, email, password, compare, sign).Success?
    ensures SignIn(s, email, password, compare, sign).value.authType == SIGNIN
  {
  }
}

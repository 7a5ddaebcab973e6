/** The user service: reading a profile and updating one's own profile. The
    update `$set`s the request body as it came, so every schema path in it is
    written; `PermittedUpdateStep` is the update restricted to the four fields
    the input type declares, with the email lower-cased as sign-up stores it. */
module UserService {
  import opened Util
  import opened Errors
  import opened Records
  import opened Store
  import UserModel
  import AuthService

  function UserNotFound(): ErrorRecord {
    ErrorResponse("User not found", Some(404), "")
  }

  function NameExists(): ErrorRecord {
    ErrorResponse("User with that name already exists!", None, "")
  }

  /** `GetUserById`: the stored user without its password, or 404. */
  function GetUserById(s: DbState, id: Id): (r: Result<UserModel.PublicUser>)
    ensures r.Success? <==> id in s.users
    ensures r.Failure? ==> r.error == UserNotFound()
    ensures r.Success? ==> r.value.id == id && r.value.WithPassword(s.users[id].password) == s.users[id]
  {
    if id in s.users then Success(UserModel.Strip(id, s.users[id])) else Failure(UserNotFound())
  }

  // ---------------------------------------------------------------------------
  // UpdateUserData
  // ---------------------------------------------------------------------------

  /** The request body of a profile update: any schema path may be present. */
  datatype UserPatch = UserPatch(
    name: Option<string>,
    email: Option<string>,
    password: Option<string>,
    role: Option<Role>,
    gender: Option<Gender>,
    avatar: Option<string>,
    age: Option<int>,
    favouriteArticles: Option<seq<Id>>,
    myArticles: Option<seq<Id>>)

  /** `$set` of the patch: every present path overwrites, every absent one keeps. */
  function Apply(u: User, p: UserPatch): (r: User)
    ensures r.name == p.name.GetOr(u.name) && r.email == p.email.GetOr(u.email)
    ensures r.password == (if p.password.Some? then p.password else u.password)
    ensures r.role == p.role.GetOr(u.role)
    ensures r.gender == (if p.gender.Some? then p.gender else u.gender)
    ensures r.avatar == (if p.avatar.Some? then p.avatar else u.avatar)
    ensures r.age == (if p.age.Some? then p.age else u.age)
    ensures r.favouriteArticles == p.favouriteArticles.GetOr(u.favouriteArticles)
    ensures r.myArticles == p.myArticles.GetOr(u.myArticles)
    ensures r.createdAt == u.createdAt
  {
    u.(name := p.name.GetOr(u.name),
       email := p.email.GetOr(u.email),
       password := if p.password.Some? then p.password else u.password,
       role := p.role.GetOr(u.role),
       gender := if p.gender.Some? then p.gender else u.gender,
       avatar := if p.avatar.Some? then p.avatar else u.avatar,
       age := if p.age.Some? then p.age else u.age,
       favouriteArticles := p.favouriteArticles.GetOr(u.favouriteArticles),
       myArticles := p.myArticles.GetOr(u.myArticles))
  }

  /** The update validators (`runValidators`) on the paths the patch sets. */
  function PatchFailures(p: UserPatch): (r: seq<PathError>)
    ensures r == [] <==> (p.name.Some? ==> p.name.value != "") && (p.email.Some? ==> p.email.value != "")
                         && (p.password.None? || |p.password.value| >= UserModel.MinPasswordLength)
  {
    (if p.name.Some? then UserModel.RequiredFailures("name", UserModel.NameRequired, p.name.value) else [])
    + (if p.email.Some? then UserModel.RequiredFailures("email", UserModel.EmailRequired, p.email.value) else [])
    + UserModel.PasswordFailures(p.password)
  }

  predicate NameHolder(users: map<Id, User>, name: string) {
    exists k :: k in users && users[k].name == name
  }

  /** Another user than `id` has this email. */
  predicate EmailHeldByOther(users: map<Id, User>, id: Id, email: string) {
    exists k :: k in users && k != id && users[k].email == email
  }

  /** `UpdateUserData` for the caller whose snapshot has id `currentId` and name
      `currentName`: the caller must be found by name (404); a non-empty new
      name must not be held by anyone, the caller included; the update
      validators run; the unique email index rejects another user's email; a
      caller whose id has gone is not updated and nothing is returned. */
  function UpdateUserDataStep(s: DbState, currentId: Id, currentName: string, p: UserPatch): (out: (DbState, Result<Option<UserModel.PublicUser>>))
    ensures out.1.Failure? || out.1 == Success(None) ==> out.0 == s
    ensures !NameHolder(s.users, currentName) ==> out.1 == Failure(UserNotFound())
    ensures NameHolder(s.users, currentName) && p.name.Some? && p.name.value != "" && NameHolder(s.users, p.name.value) ==>
              out.1 == Failure(NameExists())
    ensures NameHolder(s.users, currentName) && !(p.name.Some? && p.name.value != "" && NameHolder(s.users, p.name.value)) ==>
              && (PatchFailures(p) != [] ==> out.1 == Failure(ValidationError("Validation failed", PatchFailures(p))))
              && (PatchFailures(p) == [] && currentId !in s.users ==> out.1 == Success(None))
              && (PatchFailures(p) == [] && currentId in s.users && p.email.Some? && EmailHeldByOther(s.users, currentId, p.email.value)
                  ==> out.1 == Failure(DuplicateKeyError(["email"])))
    ensures out.1.Success? ==> PatchFailures(p) == []
    ensures out.1.Success? && out.1.value.Some? <==>
              && NameHolder(s.users, currentName)
              && !(p.name.Some? && p.name.value != "" && NameHolder(s.users, p.name.value))
              && PatchFailures(p) == []
              && currentId in s.users
              && !(p.email.Some? && EmailHeldByOther(s.users, currentId, p.email.value))
    ensures out.1.Success? && out.1.value.Some? ==>
              && out.0 == s.(users := s.users[currentId := Apply(s.users[currentId], p)])
              && out.1.value.value == UserModel.Strip(currentId, Apply(s.users[currentId], p))
  {
    if !NameHolder(s.users, currentName) then (s, Failure(UserNotFound()))
    else if p.name.Some? && p.name.value != "" && NameHolder(s.users, p.name.value) then (s, Failure(NameExists()))
    else if PatchFailures(p) != [] then (s, Failure(ValidationError("Validation failed", PatchFailures(p))))
    else if currentId !in s.users then (s, Success(None))
    else if p.email.Some? && EmailHeldByOther(s.users, currentId, p.email.value) then
      (s, Failure(DuplicateKeyError(["email"])))
    else
      var u := Apply(s.users[currentId], p);
      (s.(users := s.users[currentId := u]), Success(Some(UserModel.Strip(currentId, u))))
  }

  method UpdateUserData(db: Db, currentId: Id, currentName: string, p: UserPatch) returns (r: Result<Option<UserModel.PublicUser>>)
    modifies db
    ensures (db.State(), r) == UpdateUserDataStep(old(db.State()), currentId, currentName, p)
  {
    if !NameHolder(db.users, currentName) {
      return Failure(UserNotFound());
    }
    if p.name.Some? && p.name.value != "" && NameHolder(db.users, p.name.value) {
      return Failure(NameExists());
    }
    var failures := PatchFailures(p);
    if failures != [] {
      return Failure(ValidationError("Validation failed", failures));
    }
    if currentId !in db.users {
      return Success(None);
    }
    if p.email.Some? && EmailHeldByOther(db.users, currentId, p.email.value) {
      return Failure(DuplicateKeyError(["email"]));
    }
    var u := Apply(db.users[currentId], p);
    db.UpdateUser(currentId, u);
    r := Success(Some(UserModel.Strip(currentId, u)));
  }

  /** The update keeps the store consistent: names and emails stay unique. */
  lemma {:induction false} UpdateKeepsConsistent(s: DbState, currentId: Id, currentName: string, p: UserPatch)
    requires Consistent(s)
    ensures Consistent(UpdateUserDataStep(s, currentId, currentName, p).0)
  {
    var out := UpdateUserDataStep(s, currentId, currentName, p);
    if out.1.Success? && out.1.value.Some? {
      var r := out.0;
      var u := Apply(s.users[currentId], p);
      assert UniqueKeys(r.users) by {
        forall a, b | a in r.users && b in r.users && a != b
          ensures r.users[a].name != r.users[b].name && r.users[a].email != r.users[b].email
        {
          if a == currentId || b == currentId {
            var other := if a == currentId then b else a;
            assert other in s.users && other != currentId;
            if p.name.Some? {
              assert !NameHolder(s.users, p.name.value);
            }
            if p.email.Some? {
              assert !EmailHeldByOther(s.users, currentId, p.email.value);
            }
          }
        }
      }
    }
  }

  /** Renaming oneself to one's own current name is refused: the name check
      does not exclude the caller. */
  lemma {:induction false} SameNameRefused(s: DbState, currentId: Id, p: UserPatch)
    requires currentId in s.users && s.users[currentId].name != ""
    requires p.name == Some(s.users[currentId].name)
    ensures UpdateUserDataStep(s, currentId, s.users[currentId].name, p) == (s, Failure(NameExists()))
  {
    assert NameHolder(s.users, s.users[currentId].name);
  }

  /** An empty patch stores the caller's document unchanged. */
  lemma {:induction false} EmptyPatchKeepsUser(s: DbState, currentId: Id)
    requires Consistent(s) && currentId in s.users
    ensures var p := UserPatch(None, None, None, None, None, None, None, None, None);
            UpdateUserDataStep(s, currentId, s.users[currentId].name, p).0 == s
  {
    var p := UserPatch(None, None, None, None, None, None, None, None, None);
    assert NameHolder(s.users, s.users[currentId].name);
    assert Apply(s.users[currentId], p) == s.users[currentId];
    assert s.users[currentId := s.users[currentId]] == s.users;
  }

  // ---------------------------------------------------------------------------
  // What the update does as written, and the update restricted to its input type
  // ---------------------------------------------------------------------------

  /** A patch carrying `role` makes its sender an administrator: nothing keeps
      the body to the declared fields. The defect is latent while the API does
      not mount the `/user` router. */
  lemma {:induction false} PatchGrantsAdmin(s: DbState, currentId: Id)
    requires Consistent(s) && currentId in s.users && s.users[currentId].role == USER
    ensures var p := UserPatch(None, None, None, Some(ADMIN), None, None, None, None, None);
            var out := UpdateUserDataStep(s, currentId, s.users[currentId].name, p);
            out.1.Success? && out.0.users[currentId].role == ADMIN
  {
    var p := UserPatch(None, None, None, Some(ADMIN), None, None, None, None, None);
    assert NameHolder(s.users, s.users[currentId].name);
    assert PatchFailures(p) == [];
  }

  /** A password set through the update is stored as sent: the pre-save hook
      that hashes it does not run on `findByIdAndUpdate`. */
  lemma {:induction false} PatchStoresRawPassword(s: DbState, currentId: Id, password: string)
    requires Consistent(s) && currentId in s.users && |password| >= UserModel.MinPasswordLength
    ensures var p := UserPatch(None, None, Some(password), None, None, None, None, None, None);
            var out := UpdateUserDataStep(s, currentId, s.users[currentId].name, p);
            out.1.Success? && out.0.users[currentId].password == Some(password)
  {
    var p := UserPatch(None, None, Some(password), None, None, None, None, None, None);
    assert NameHolder(s.users, s.users[currentId].name);
    assert PatchFailures(p) == [];
  }

  /** An email set with capitals is stored with them, so signing in with it
      (which lower-cases) no longer finds the user by email. */
  lemma {:induction false} CapitalisedEmailLocksOut(s: DbState, currentId: Id, email: string, password: string,
                                                    compare: (string, string) -> bool, sign: AuthService.Claims -> string)
    requires Consistent(s) && currentId in s.users
    requires email != "" && ToLower(email) != email
    requires forall k :: k in s.users ==>
               s.users[k].name != email && s.users[k].email != email && s.users[k].email != ToLower(email)
    ensures var p := UserPatch(None, Some(email), None, None, None, None, None, None, None);
            var out := UpdateUserDataStep(s, currentId, s.users[currentId].name, p);
            out.1.Success? && AuthService.SignIn(out.0, email, password, compare, sign).Failure?
  {
    var p := UserPatch(None, Some(email), None, None, None, None, None, None, None);
    assert NameHolder(s.users, s.users[currentId].name);
    assert PatchFailures(p) == [];
    assert !EmailHeldByOther(s.users, currentId, email);
    var r := UpdateUserDataStep(s, currentId, s.users[currentId].name, p).0;
    assert r.users[currentId].email == email;
    assert AuthService.SignInMatches(r.users, email) == {};
  }

  /** The patch the input type declares: name, email (lower-cased, as sign-up
      stores it), gender and age; every other path is dropped. */
  function Permitted(p: UserPatch): (q: UserPatch)
    ensures q.password.None? && q.role.None? && q.avatar.None?
    ensures q.favouriteArticles.None? && q.myArticles.None?
    ensures q.name == p.name && q.gender == p.gender && q.age == p.age
    ensures q.email.Some? <==> p.email.Some?
    ensures p.email.Some? ==> q.email.value == ToLower(p.email.value)
  {
    UserPatch(p.name, if p.email.Some? then Some(ToLower(p.email.value)) else None,
              None, None, p.gender, None, p.age, None, None)
  }

  /** The update as evidently intended: the as-written update of the permitted patch. */
  function PermittedUpdateStep(s: DbState, currentId: Id, currentName: string, p: UserPatch): (out: (DbState, Result<Option<UserModel.PublicUser>>))
    ensures out.1.Failure? || out.1 == Success(None) ==> out.0 == s
    ensures out.1.Success? && out.1.value.Some? ==>
              && currentId in s.users
              && out.0.users.Keys == s.users.Keys
              && (forall k :: k in s.users && k != currentId ==> out.0.users[k] == s.users[k])
              && out.0.users[currentId].role == s.users[currentId].role
              && out.0.users[currentId].password == s.users[currentId].password
              && out.0.users[currentId].avatar == s.users[currentId].avatar
              && out.0.users[currentId].myArticles == s.users[currentId].myArticles
              && out.0.users[currentId].favouriteArticles == s.users[currentId].favouriteArticles
              && (p.email.Some? ==> out.0.users[currentId].email == ToLower(p.email.value))
              && (p.email.None? ==> out.0.users[currentId].email == s.users[currentId].email)
  {
    UpdateUserDataStep(s, currentId, currentName, Permitted(p))
  }

  /** After the permitted update with a new email, signing in with that email,
      as typed, reaches the caller, provided no user is named like it. */
  lemma {:induction false} PermittedEmailSignsIn(s: DbState, currentId: Id, email: string, password: string,
                                                 compare: (string, string) -> bool, sign: AuthService.Claims -> string)
    requires currentId in s.users
    requires forall k :: k in s.users ==> s.users[k].name != email
    ensures var p := UserPatch(None, Some(email), None, None, None, None, None, None, None);
            var out := PermittedUpdateStep(s, currentId, s.users[currentId].name, p);
            var r := AuthService.SignIn(out.0, email, password, compare, sign);
            out.1.Success? && out.1.value.Some? ==>
              r != Failure(AuthService.NotRegistered()) && (r.Success? ==> r.value.user.id == currentId)
  {
    var p := UserPatch(None, Some(email), None, None, None, None, None, None, None);
    var out := PermittedUpdateStep(s, currentId, s.users[currentId].name, p);
    if out.1.Success? && out.1.value.Some? {
      assert !EmailHeldByOther(s.users, currentId, ToLower(email));
      var m := AuthService.SignInMatches(out.0.users, email);
      assert out.0.users[currentId].email == ToLower(email);
      assert m == {currentId} by {
        assert currentId in m;
        assert forall k :: k in out.0.users && k != currentId ==> out.0.users[k] == s.users[k];
        assert forall k :: k in out.0.users && k != currentId ==> out.0.users[k].email != ToLower(email);
      }
    }
  }
}

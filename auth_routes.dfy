/**
 * The user routes (routes/authRoutes.js): register, login, profile read,
 * partial update, delete and the full listing over the user collection.
 * bcrypt is a key-derivation function `kdf` fixed per store, with the salt
 * it would draw at random passed in by the caller.
 */
module AuthRoutes {
  import opened Wrappers
  import opened Store

  type Salt = string

  /** A stored password: the salt and the key derived from the password with it. */
  datatype Digest = Digest(salt: Salt, key: string)

  /** A user document: the password field holds a digest, never the password itself. */
  datatype User = User(email: string, password: Digest, role: string)

  /** `bcrypt.compare(password, digest)`: re-derive the key with the stored salt. */
  predicate Verify(kdf: (string, Salt) -> string, password: string, d: Digest)
  {
    kdf(password, d.salt) == d.key
  }

  /** `bcrypt.hash(password, 10)`: the digest under `salt`; comparing the same password succeeds. */
  function Hash(kdf: (string, Salt) -> string, password: string, salt: Salt): (d: Digest)
    ensures d.salt == salt
    ensures Verify(kdf, password, d)
    ensures forall other :: Verify(kdf, other, d) <==> kdf(other, salt) == kdf(password, salt)
  {
    Digest(salt, kdf(password, salt))
  }

  /** `role || 'student'` */
  function RoleOrDefault(role: string): (r: string)
    ensures r != ""
    ensures role != "" ==> r == role
  {
    if role != "" then role else "student"
  }

  /** `if (email) …; if (role) …; if (password) …`: only the non-empty fields are written. */
  function Patch(kdf: (string, Salt) -> string, u: User, email: string, password: string, role: string, salt: Salt): User
  {
    User(
      if email != "" then email else u.email,
      if password != "" then Hash(kdf, password, salt) else u.password,
      if role != "" then role else u.role)
  }

  /** A patch with no field given changes nothing. */
  lemma PatchNothing(kdf: (string, Salt) -> string, u: User, salt: Salt)
    ensures Patch(kdf, u, "", "", "", salt) == u
  {
  }

  /** Applying the same patch twice is applying it once. */
  lemma PatchIdempotent(kdf: (string, Salt) -> string, u: User, email: string, password: string, role: string, salt: Salt)
    ensures Patch(kdf, Patch(kdf, u, email, password, role, salt), email, password, role, salt)
         == Patch(kdf, u, email, password, role, salt)
  {
  }

  /** After a patch, a new password verifies; without one, every password that verified before still does. */
  lemma PatchPassword(kdf: (string, Salt) -> string, u: User, email: string, password: string, role: string, salt: Salt, old_password: string)
    ensures password != "" ==> Verify(kdf, password, Patch(kdf, u, email, password, role, salt).password)
    ensures password == "" ==> (Verify(kdf, old_password, Patch(kdf, u, email, password, role, salt).password)
                                <==> Verify(kdf, old_password, u.password))
  {
  }

  /** Reply of a successful registration. */
  datatype Registered = Registered(message: string, userId: Id, role: string)

  /** Reply of a successful login. */
  datatype Session = Session(userId: Id, role: string)

  /** Reply of a profile read: no password digest. */
  datatype Profile = Profile(email: string, role: string, userId: Id)

  /** Reply of a successful update. */
  datatype Updated = Updated(message: string, userId: Id, role: string)

  const UserExists := "User already exists"
  const InvalidCredentials := "Invalid credentials"
  const UserNotFound := "User not found"
  const ServerFailure := "Server error"

  /** The user collection. */
  class UserStore {
    var users: map<Id, User>
    var nextId: Id
    const kdf: (string, Salt) -> string

    ghost predicate Valid()
      reads this
    {
      IdsBelow(users, nextId)
    }

    /** An empty collection. */
    constructor(kdf: (string, Salt) -> string)
      ensures Valid()
      ensures users == map[] && this.kdf == kdf
    {
      users := map[];
      nextId := 0;
      this.kdf := kdf;
    }

    /** `User.findOne({ email })`: the first user in insertion order with that email. */
    function FindByEmail(email: string): (r: Option<Id>)
      reads this
      ensures r.Some? ==> r.value in users && users[r.value].email == email
      ensures r.Some? ==> forall id :: id in users && id < r.value ==> users[id].email != email
      ensures r.None? && Valid() ==> forall id :: id in users ==> users[id].email != email
    {
      First(users, nextId, (u: User) => u.email == email)
    }

    /**
     * POST /register: 400 when the email is taken, with nothing stored; a 500
     * when the body has no password, which bcrypt refuses to hash; otherwise a
     * new user with the hashed password and the role defaulted to `'student'`.
     */
    method Register(email: string, password: Option<string>, role: string, salt: Salt) returns (r: Response<Registered>)
      requires Valid()
      modifies this
      ensures Valid()
      ensures old(FindByEmail(email)).Some? ==>
                r == BadRequest(UserExists) && users == old(users) && nextId == old(nextId)
      ensures old(FindByEmail(email)).None? && password.None? ==>
                r == ServerError(ServerFailure) && users == old(users) && nextId == old(nextId)
      ensures old(FindByEmail(email)).None? && password.Some? ==>
                && old(nextId) !in old(users)
                && FindByEmail(email) == Some(old(nextId))
                && users == old(users)[old(nextId) := User(email, Hash(kdf, password.value, salt), RoleOrDefault(role))]
                && r == Created(Registered("User registered successfully", old(nextId), RoleOrDefault(role)))
    {
      var existing := FindByEmail(email);
      if existing.Some? {
        return BadRequest(UserExists);
      }
      if password.None? {
        return ServerError(ServerFailure);
      }
      var hashed := Hash(kdf, password.value, salt);
      var id := nextId;
      FirstAfterInsert(users, id, User(email, hashed, RoleOrDefault(role)), (u: User) => u.email == email);
      users := users[id := User(email, hashed, RoleOrDefault(role))];
      nextId := nextId + 1;
      r := Created(Registered("User registered successfully", id, RoleOrDefault(role)));
    }

    /**
     * POST /login: the first user with the email, if the password verifies
     * against its digest; one and the same 400 for an unknown email or a wrong
     * password; a 500 when the email is known and the body has no password,
     * which bcrypt refuses to compare.
     */
    function Login(email: string, password: Option<string>): (r: Response<Session>)
      reads this
      ensures r.Ok? <==> FindByEmail(email).Some? && password.Some?
                         && Verify(kdf, password.value, users[FindByEmail(email).value].password)
      ensures r.Ok? ==> r.body.userId == FindByEmail(email).value && r.body.role == users[r.body.userId].role
      ensures FindByEmail(email).Some? && password.None? ==> r == ServerError(ServerFailure)
      ensures !r.Ok? && (FindByEmail(email).None? || password.Some?) ==> r == BadRequest(InvalidCredentials)
    {
      var found := FindByEmail(email);
      if found.None? then BadRequest(InvalidCredentials)
      else if password.None? then ServerError(ServerFailure)
      else if !Verify(kdf, password.value, users[found.value].password) then BadRequest(InvalidCredentials)
      else Ok(Session(found.value, users[found.value].role))
    }

    /** GET /:userId: the email, role and id, or 404. */
    function Get(id: Id): (r: Response<Profile>)
      reads this
      ensures r.Ok? <==> id in users
      ensures r.Ok? ==> r.body == Profile(users[id].email, users[id].role, id)
      ensures !r.Ok? ==> r == NotFound(UserNotFound)
    {
      if id in users then Ok(Profile(users[id].email, users[id].role, id)) else NotFound(UserNotFound)
    }

    /**
     * PUT /:userId: 404 for a missing user; otherwise the non-empty fields
     * among email, role and password are written, the password re-hashed.
     */
    method Update(id: Id, email: string, password: string, role: string, salt: Salt) returns (r: Response<Updated>)
      requires Valid()
      modifies this
      ensures Valid() && nextId == old(nextId)
      ensures id !in old(users) ==> r == NotFound(UserNotFound) && users == old(users)
      ensures id in old(users) ==>
                && users == old(users)[id := Patch(kdf, old(users)[id], email, password, role, salt)]
                && r == Ok(Updated("User updated successfully", id, users[id].role))
    {
      if id !in users {
        return NotFound(UserNotFound);
      }
      var user := users[id];
      if email != "" {
        user := user.(email := email);
      }
      if role != "" {
        user := user.(role := role);
      }
      if password != "" {
        user := user.(password := Hash(kdf, password, salt));
      }
      users := users[id := user];
      r := Ok(Updated("User updated successfully", id, user.role));
    }

    /** DELETE /:userId: 404 for a missing user; otherwise exactly that user is removed. */
    method Delete(id: Id) returns (r: Response<string>)
      requires Valid()
      modifies this
      ensures Valid() && nextId == old(nextId)
      ensures id !in old(users) ==> r == NotFound(UserNotFound) && users == old(users)
      ensures id in old(users) ==> r == Ok("User deleted successfully") && users == old(users) - {id}
    {
      if id !in users {
        return NotFound(UserNotFound);
      }
      users := users - {id};
      r := Ok("User deleted successfully");
    }

    /** GET /: every user document, digests included, in insertion order. */
    function List(): (r: seq<Doc<User>>)
      reads this
      requires Valid()
      ensures forall i :: 0 <= i < |r| ==> r[i].id in users && users[r[i].id] == r[i].data
      ensures forall id :: id in users ==> Doc(id, users[id]) in r
      ensures forall i, j :: 0 <= i < j < |r| ==> r[i].id < r[j].id
    {
      InIdOrder(users, nextId)
    }
  }

  /** Logging in right after registering, with the same email and password, returns the new id and role. */
  method RegisterThenLogin(store: UserStore, email: string, password: string, role: string, salt: Salt)
    returns (registered: Response<Registered>, login: Response<Session>)
    requires store.Valid()
    modifies store
    ensures registered.Created? ==> login == Ok(Session(registered.body.userId, registered.body.role))
    ensures registered.BadRequest? ==> registered.message == UserExists
  {
    registered := store.Register(email, Some(password), role, salt);
    login := store.Login(email, Some(password));
  }

  /** In any store, an unknown email and a known email with a wrong password get the same reply. */
  lemma FailuresLookAlike(store: UserStore, unknown: string, known: string, password: string)
    requires store.FindByEmail(unknown).None? && store.FindByEmail(known).Some?
    requires !Verify(store.kdf, password, store.users[store.FindByEmail(known).value].password)
    ensures store.Login(unknown, Some(password)) == store.Login(known, Some(password)) == BadRequest(InvalidCredentials)
  {
  }
}

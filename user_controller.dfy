/**
 * The request handlers of the user controller over an in-memory user
 * collection. The collection maps document ids to User documents; Mongoose's
 * unique indexes on username and email are the collection's invariant.
 * signup, updateUser and deleteUser change the collection and are methods of
 * UserCollection; login (getUserByRoleEmailAndPassword), getUserById and
 * getAllUsers only read it and are functions of the map.
 */
module UserController {
  import opened Wrappers
  import opened Bcrypt
  import opened UserSchema
  import PasswordPolicy

  /** A document id (an ObjectId in MongoDB). */
  type Id = nat

  /** No two documents share a username, and no two share an email: the unique indexes. */
  predicate UniqueKeys(users: map<Id, User>)
  {
    && (forall i, j :: i in users && j in users && users[i].username == users[j].username ==> i == j)
    && (forall i, j :: i in users && j in users && users[i].email == users[j].email ==> i == j)
  }

  // ---------------------------------------------------------------- signup

  /** The fields signup reads from the request body. */
  datatype SignupRequest = SignupRequest(
    username: string,
    email: string,
    password: string,
    fullName: string,
    dateOfBirth: Date,
    gender: string)

  datatype SignupOutcome =
    | AlreadyInUse   // 400 "Username or email is already in use"
    | SaveFailed     // 500 "Internal server error": the document failed validation
    | Registered     // 201 "User registered successfully"

  /** The signup guard's query finds a document with the username or with the email. */
  predicate InUse(users: map<Id, User>, username: string, email: string)
  {
    exists id :: id in users && (users[id].username == username || users[id].email == email)
  }

  /** The document signup builds: the request's fields with the password replaced by its hash. */
  function NewRecord(req: SignupRequest, hashed: string): (u: User)
    ensures u.password == hashed
    ensures u.username == req.username && u.email == req.email && u.fullName == req.fullName
    ensures u.dateOfBirth == req.dateOfBirth && u.gender == req.gender
  {
    User(req.username, req.email, hashed, req.fullName, req.dateOfBirth, req.gender)
  }

  // ----------------------------------------------------------------- login

  /** A user document as login returns it: every field except the password. */
  datatype Profile = Profile(
    id: Id,
    username: string,
    email: string,
    fullName: string,
    dateOfBirth: Date,
    gender: string)

  /** The stored document with its password field removed, as login returns it. */
  function WithoutPassword(id: Id, u: User): Profile
  {
    Profile(id, u.username, u.email, u.fullName, u.dateOfBirth, u.gender)
  }

  datatype LoginOutcome =
    | InvalidCredentials        // 401 "Invalid credentials"
    | LoggedIn(profile: Profile)

  /** Login's query for the document with an email; the unique index on email makes the match unique. */
  function FindByEmail(users: map<Id, User>, email: string): (r: Option<Id>)
    requires UniqueKeys(users)
    ensures r.None? <==> forall id :: id in users ==> users[id].email != email
    ensures r.Some? ==> r.value in users && users[r.value].email == email
  {
    if exists id :: id in users && users[id].email == email then
      var id :| id in users && users[id].email == email;
      Some(id)
    else
      None
  }

  /**
   * getUserByRoleEmailAndPassword: the same InvalidCredentials whether no
   * document has the email or the password does not match it; on success
   * the document without its password.
   */
  function Login(users: map<Id, User>, h: Hasher, email: string, password: string): (r: LoginOutcome)
    requires UniqueKeys(users)
    ensures r.LoggedIn? <==>
              exists id :: id in users && users[id].email == email && h.compare(password, users[id].password)
    ensures r.LoggedIn? ==>
              exists id :: id in users && users[id].email == email && r.profile == WithoutPassword(id, users[id])
    ensures (forall id :: id in users ==> users[id].email != email) ==> r == InvalidCredentials
  {
    match FindByEmail(users, email)
    case None => InvalidCredentials
    case Some(id) =>
      if !ComparePassword(h, users[id], password) then InvalidCredentials
      else LoggedIn(WithoutPassword(id, users[id]))
  }

  // ----------------------------------------------------------- read by id

  datatype LookupOutcome =
    | UserNotFound   // 404 "User not found"
    | Found(user: User)

  /** getUserById: the stored document, password field included, or not found. */
  function GetUserById(users: map<Id, User>, id: Id): (r: LookupOutcome)
    ensures r.UserNotFound? <==> id !in users
    ensures r.Found? ==> id in users && r.user == users[id]
  {
    if id in users then Found(users[id]) else UserNotFound
  }

  /** A document together with its id, as the query for all users returns it. */
  datatype Document = Document(id: Id, user: User)

  /** getAllUsers: every stored document, each once. */
  function GetAllUsers(users: map<Id, User>): (r: set<Document>)
    ensures forall d :: d in r <==> d.id in users && users[d.id] == d.user
  {
    set id | id in users :: Document(id, users[id])
  }

  // ---------------------------------------------------------------- update

  /**
   * An update body made of plain schema fields only, each written with `$set`;
   * fields outside the schema are dropped. Bodies carrying update operators or
   * `_id` are not covered.
   */
  datatype Patch = Patch(
    username: Option<string>,
    email: Option<string>,
    password: Option<string>,
    fullName: Option<string>,
    dateOfBirth: Option<Date>,
    gender: Option<string>)

  function Pick<T>(field: Option<T>, current: T): T
  {
    match field
    case Some(v) => v
    case None => current
  }

  /** `$set` of the body's fields: supplied fields replace the stored ones verbatim. */
  function ApplyPatch(u: User, p: Patch): (r: User)
    ensures p.password.Some? ==> r.password == p.password.value
    ensures p.password.None? ==> r.password == u.password
    ensures p.email.Some? ==> r.email == p.email.value
    ensures p.email.None? ==> r.email == u.email
    ensures p.username.Some? ==> r.username == p.username.value
    ensures p.username.None? ==> r.username == u.username
    ensures p.fullName.Some? ==> r.fullName == p.fullName.value
    ensures p.fullName.None? ==> r.fullName == u.fullName
    ensures p.dateOfBirth.Some? ==> r.dateOfBirth == p.dateOfBirth.value
    ensures p.dateOfBirth.None? ==> r.dateOfBirth == u.dateOfBirth
    ensures p.gender.Some? ==> r.gender == p.gender.value
    ensures p.gender.None? ==> r.gender == u.gender
  {
    User(Pick(p.username, u.username), Pick(p.email, u.email), Pick(p.password, u.password),
         Pick(p.fullName, u.fullName), Pick(p.dateOfBirth, u.dateOfBirth), Pick(p.gender, u.gender))
  }

  /** The updated document would share a username or an email with another document. */
  predicate ClashesWithOthers(users: map<Id, User>, id: Id, u: User)
  {
    exists other :: other in users && other != id &&
      (users[other].username == u.username || users[other].email == u.email)
  }

  datatype UpdateOutcome =
    | UpdateNotFound      // 404 "User not found"
    | DuplicateKey        // 400: the unique index refused the update
    | Updated(user: User) // the document after the update

  // ---------------------------------------------------------------- delete

  datatype DeleteOutcome =
    | DeleteNotFound      // 404 "User not found"
    | Deleted             // "User deleted successfully"

  // ------------------------------------------------------- the collection

  /** The users collection, with the hasher the controller calls. */
  class UserCollection {
    var users: map<Id, User>
    /** The next id to hand out: ids of stored documents are all below it. */
    var nextId: Id
    const hasher: Hasher

    ghost predicate Valid()
      reads this
    {
      && Sound(hasher)
      && UniqueKeys(users)
      && (forall id :: id in users ==> id < nextId)
    }

    constructor (h: Hasher)
      requires Sound(h)
      ensures Valid() && users == map[] && hasher == h
    {
      users := map[];
      nextId := 0;
      hasher := h;
    }

    /**
     * signup: refuse a request whose username or email is taken; otherwise
     * hash the password with the given salt, build the document and save it,
     * which fails when a schema validator refuses the document. No password
     * policy is applied.
     */
    method Signup(req: SignupRequest, salt: Salt) returns (res: SignupOutcome)
      requires Valid()
      modifies this
      ensures Valid()
      ensures res == AlreadyInUse <==> InUse(old(users), req.username, req.email)
      ensures res == SaveFailed <==>
                && !InUse(old(users), req.username, req.email)
                && !IsValidDocument(NewRecord(req, hasher.hash(req.password, salt)))
      ensures res == Registered ==>
                && old(nextId) !in old(users)
                && users == old(users)[old(nextId) := NewRecord(req, hasher.hash(req.password, salt))]
      ensures res != Registered ==> users == old(users)
    {
      if InUse(users, req.username, req.email) {
        return AlreadyInUse;
      }
      var hashed := hasher.hash(req.password, salt);
      var doc := NewRecord(req, hashed);
      if !IsValidDocument(doc) {
        return SaveFailed;
      }
      InsertKeepsUniqueKeys(users, nextId, doc);
      users := users[nextId := doc];
      nextId := nextId + 1;
      res := Registered;
    }

    /**
     * updateUser: not found when no document has the id; refused when the
     * unique indexes reject the result; otherwise the supplied fields are
     * written as given (no validators run, a password is not hashed) and the
     * updated document is returned.
     */
    method UpdateUser(id: Id, patch: Patch) returns (res: UpdateOutcome)
      requires Valid()
      modifies this
      ensures Valid() && nextId == old(nextId)
      ensures res.UpdateNotFound? <==> id !in old(users)
      ensures res.DuplicateKey? <==>
                id in old(users) && ClashesWithOthers(old(users), id, ApplyPatch(old(users)[id], patch))
      ensures res.Updated? ==>
                && id in old(users)
                && res.user == ApplyPatch(old(users)[id], patch)
                && users == old(users)[id := res.user]
      ensures !res.Updated? ==> users == old(users)
    {
      if id !in users {
        return UpdateNotFound;
      }
      var updated := ApplyPatch(users[id], patch);
      if ClashesWithOthers(users, id, updated) {
        return DuplicateKey;
      }
      ReplaceKeepsUniqueKeys(users, id, updated);
      users := users[id := updated];
      res := Updated(updated);
    }

    /** deleteUser: removes the document with the id, or reports that there is none. */
    method DeleteUser(id: Id) returns (res: DeleteOutcome)
      requires Valid()
      modifies this
      ensures Valid() && nextId == old(nextId)
      ensures res == DeleteNotFound <==> id !in old(users)
      ensures users == old(users) - {id}
    {
      if id !in users {
        res := DeleteNotFound;
      } else {
        res := Deleted;
      }
      users := users - {id};
    }
  }

  // ---------------------------------------------------------------- lemmas

  /** Adding a document whose username and email are both unused keeps the unique indexes. */
  lemma InsertKeepsUniqueKeys(users: map<Id, User>, id: Id, u: User)
    requires UniqueKeys(users) && id !in users
    requires !InUse(users, u.username, u.email)
    ensures UniqueKeys(users[id := u])
  {
  }

  /** Replacing a document by one that clashes with no other keeps the unique indexes. */
  lemma ReplaceKeepsUniqueKeys(users: map<Id, User>, id: Id, u: User)
    requires UniqueKeys(users)
    requires !ClashesWithOthers(users, id, u)
    ensures UniqueKeys(users[id := u])
  {
  }

  /**
   * After a signup stores a document, logging in with the same email and
   * password succeeds and returns that document without its password.
   */
  lemma SignupThenLogin(users: map<Id, User>, h: Hasher, id: Id, req: SignupRequest, salt: Salt)
    requires Sound(h) && UniqueKeys(users) && id !in users
    requires !InUse(users, req.username, req.email)
    ensures UniqueKeys(users[id := NewRecord(req, h.hash(req.password, salt))])
    ensures var doc := NewRecord(req, h.hash(req.password, salt));
            Login(users[id := doc], h, req.email, req.password) == LoggedIn(WithoutPassword(id, doc))
  {
    var doc := NewRecord(req, h.hash(req.password, salt));
    var users' := users[id := doc];
    InsertKeepsUniqueKeys(users, id, doc);
    assert users'[id].email == req.email;
    var found := FindByEmail(users', req.email);
    assert found == Some(id);
  }

  /**
   * The document signup would save passes validation or not regardless of
   * the password: any two passwords, hashed with any salts, give the same
   * answer. Signup applies no password policy.
   */
  lemma SignupValidityIgnoresPassword(h: Hasher, req: SignupRequest, other: string, s1: Salt, s2: Salt)
    requires Sound(h)
    ensures IsValidDocument(NewRecord(req, h.hash(req.password, s1)))
        <==> IsValidDocument(NewRecord(req.(password := other), h.hash(other, s2)))
  {
    assert h.hash(req.password, s1) != [] && h.hash(other, s2) != [];
  }

  /**
   * A password the policy refuses, even the empty one, is registered by
   * signup when the username and email are free and the other fields valid.
   */
  lemma SignupAcceptsEmptyPassword(h: Hasher, salt: Salt)
    requires Sound(h)
    ensures var req := SignupRequest("alice", "alice@example.com", "", "Alice", 0, "Female");
            && PasswordPolicy.ValidatePassword(req.password) == PasswordPolicy.Rejected(PasswordPolicy.TooShort)
            && !InUse(map[], req.username, req.email)
            && IsValidDocument(NewRecord(req, h.hash(req.password, salt)))
  {
    var req := SignupRequest("alice", "alice@example.com", "", "Alice", 0, "Female");
    assert PasswordPolicy.ValidatePassword(req.password) == PasswordPolicy.Rejected(PasswordPolicy.TooShort) by {
      assert |req.password| < PasswordPolicy.MinLength;
    }
    assert IsValidDocument(NewRecord(req, h.hash(req.password, salt))) by {
      SampleEmailValid();
      assert h.hash(req.password, salt) != [];
    }
  }

  /**
   * An update that supplies a password stores it as given: a later login with
   * that password succeeds only if bcrypt.compare accepts the plaintext as its
   * own hash.
   */
  lemma LoginAfterPasswordUpdate(users: map<Id, User>, h: Hasher, id: Id, patch: Patch)
    requires UniqueKeys(users) && id in users && patch.password.Some?
    requires !ClashesWithOthers(users, id, ApplyPatch(users[id], patch))
    ensures var u := ApplyPatch(users[id], patch);
            && UniqueKeys(users[id := u])
            && u.password == patch.password.value
            && (Login(users[id := u], h, u.email, patch.password.value).LoggedIn?
                <==> h.compare(patch.password.value, patch.password.value))
  {
    var u := ApplyPatch(users[id], patch);
    ReplaceKeepsUniqueKeys(users, id, u);
    var users' := users[id := u];
    assert users'[id].email == u.email;
    var found := FindByEmail(users', u.email);
    assert found == Some(id);
  }

  /**
   * Login cannot tell an unknown email from a wrong password: both give the
   * one InvalidCredentials outcome, and it carries nothing.
   */
  lemma LoginFailuresIndistinguishable(users: map<Id, User>, h: Hasher, known: string, unknown: string, password: string)
    requires UniqueKeys(users)
    requires forall id :: id in users ==> users[id].email != unknown
    requires forall id :: id in users && users[id].email == known ==> !h.compare(password, users[id].password)
    ensures Login(users, h, unknown, password) == Login(users, h, known, password) == InvalidCredentials
  {
  }
}

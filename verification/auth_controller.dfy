/**
 * Registration and login (src/controllers/auth.controller.js). Password
 * hashing (`bcrypt.hash`), hash comparison (`bcrypt.compare`) and token
 * signing (`jwt.sign`) are the parameters `hash`, `compare` and `sign`.
 */
module AuthController {
  import opened Outcomes
  import opened Models
  import opened Collections
  import opened Store
  import opened AuthMiddleware

  /** `User.findOne({ username })`: the first user in natural order with that username. */
  function FindByUsername(users: map<Id, User>, bound: nat, name: string): (r: Option<Id>)
    ensures r.Some? ==> r.value < bound && r.value in users && users[r.value].username == name
    ensures r.None? ==> forall id :: id in users && id < bound ==> users[id].username != name
    ensures r.Some? ==> forall id :: id < r.value && id in users ==> users[id].username != name
  {
    var ids := Select(users, (id: nat, u: User) => u.username == name, 0, bound);
    if ids == [] then None else Some(ids[0])
  }

  /**
   * What `register` does to the users collection, `newId` being the id the
   * new document gets: a taken username is a 400; a user the schema rejects
   * (empty username or hash, a role outside the enum) makes `save` throw, a
   * 500; otherwise exactly one user is added, holding the hash of the password.
   */
  function RegisterOutcome(users: map<Id, User>, newId: Id, username: string, password: string, role: string,
                           hash: string -> string, now: Timestamp): (out: (Result<()>, map<Id, User>))
    ensures FindByUsername(users, newId, username).Some? ==> out == (Err(BadRequest("Username already exists")), users)
    ensures out.0.Ok? <==> FindByUsername(users, newId, username).None? && username != "" && hash(password) != ""
                           && ParseRole(role).Some?
    ensures out.0.Err? ==> out.1 == users
    ensures FindByUsername(users, newId, username).None? && out.0.Err? ==> out.0 == Err(ServerError("Error registering user"))
    ensures out.0.Ok? ==> out.1.Keys == users.Keys + {newId} && (forall id :: id in users && id != newId ==> out.1[id] == users[id])
    ensures out.0.Ok? ==> var u := out.1[newId];
      u.username == username && u.password == hash(password) && RoleName(u.role) == role
      && u.points == 0 && u.following == [] && u.followers == [] && u.answeredQuestions == [] && ValidUser(u)
    ensures Below(users, newId) && UniqueUsernames(users) ==> UniqueUsernames(out.1)
  {
    if FindByUsername(users, newId, username).Some? then (Err(BadRequest("Username already exists")), users)
    else
      var hashed := hash(password);
      var parsed := ParseRole(role);
      if username == "" || hashed == "" || parsed.None? then (Err(ServerError("Error registering user")), users)
      else (Ok(()), users[newId := NewUser(username, hashed, parsed.value, now)])
  }

  /** `register`, step by step against the store. */
  method Register(db: Database, username: string, password: string, role: string,
                  hash: string -> string, now: Timestamp) returns (r: Result<()>)
    requires db.Valid()
    modifies db
    ensures db.Valid()
    ensures (r, db.users) == RegisterOutcome(old(db.users), old(db.nextId), username, password, role, hash, now)
    ensures db.nextId == if r.Ok? then old(db.nextId) + 1 else old(db.nextId)
    ensures db.questions == old(db.questions) && db.categories == old(db.categories)
  {
    var existing := FindByUsername(db.users, db.nextId, username);
    if existing.Some? {
      return Err(BadRequest("Username already exists"));
    }
    var hashed := hash(password);
    var parsed := ParseRole(role);
    if username == "" || hashed == "" || parsed.None? {
      return Err(ServerError("Error registering user"));
    }
    db.users := db.users[db.nextId := NewUser(username, hashed, parsed.value, now)];
    db.nextId := db.nextId + 1;
    r := Ok(());
  }

  /** The body of a successful login. */
  datatype LoginReply = LoginReply(token: string, id: Id, username: string, role: Role)

  /**
   * `login`: an unknown username and a password that does not match the
   * stored hash are both 400s; otherwise the token signs the user's id and role.
   */
  function Login(users: map<Id, User>, bound: nat, username: string, password: string,
                 compare: (string, string) -> bool, sign: Claims -> string): (r: Result<LoginReply>)
    ensures FindByUsername(users, bound, username).None? ==> r == Err(BadRequest("User not found"))
    ensures r.Ok? <==> FindByUsername(users, bound, username).Some?
                       && compare(password, users[FindByUsername(users, bound, username).value].password)
    ensures r.Err? ==> Status(r.failure) == 400
    ensures FindByUsername(users, bound, username).Some?
            && !compare(password, users[FindByUsername(users, bound, username).value].password)
            ==> r == Err(BadRequest("Invalid password"))
    ensures r.Ok? ==> r.value.id == FindByUsername(users, bound, username).value
    ensures r.Ok? ==> r.value.id in users && r.value.username == username
                      && users[r.value.id].username == username && r.value.role == users[r.value.id].role
                      && r.value.token == sign(Claims(r.value.id, RoleName(r.value.role)))
  {
    match FindByUsername(users, bound, username)
    case None => Err(BadRequest("User not found"))
    case Some(id) =>
      var user := users[id];
      if !compare(password, user.password) then Err(BadRequest("Invalid password"))
      else Ok(LoginReply(sign(Claims(id, RoleName(user.role))), id, user.username, user.role))
  }

  /**
   * Registering and then logging in with the same password succeeds and
   * reports the new user, provided the hash comparison accepts the hash of
   * that password (what bcrypt promises).
   */
  lemma {:induction false} RegisterThenLogin(users: map<Id, User>, newId: Id, username: string, password: string,
                                             role: string, hash: string -> string, now: Timestamp,
                                             compare: (string, string) -> bool, sign: Claims -> string)
    requires Below(users, newId)
    requires compare(password, hash(password))
    requires RegisterOutcome(users, newId, username, password, role, hash, now).0.Ok?
    ensures var users' := RegisterOutcome(users, newId, username, password, role, hash, now).1;
      Login(users', newId + 1, username, password, compare, sign)
        == Ok(LoginReply(sign(Claims(newId, role)), newId, username, ParseRole(role).value))
  {
    var users' := RegisterOutcome(users, newId, username, password, role, hash, now).1;
    var found := FindByUsername(users', newId + 1, username);
    assert users'[newId].username == username;
    assert found.Some?;
  }

  /**
   * A token from a successful login, presented as `Bearer <token>` to a
   * verifier that accepts what `sign` signs, gets through the gate of a
   * role exactly when the logged-in user has that role.
   */
  lemma {:induction false} LoginTokenPassesGuard(users: map<Id, User>, bound: nat, username: string, password: string,
                                                 compare: (string, string) -> bool, sign: Claims -> string,
                                                 verify: string -> Option<Claims>, role: Role)
    requires Login(users, bound, username, password, compare, sign).Ok?
    requires var t := Login(users, bound, username, password, compare, sign).value.token;
      t != "" && ' ' !in t
    requires forall c :: verify(sign(c)) == Some(c)
    ensures var reply := Login(users, bound, username, password, compare, sign).value;
      Guard(Some("Bearer " + reply.token), verify, role).Next? <==> users[reply.id].role == role
  {
    var reply := Login(users, bound, username, password, compare, sign).value;
    var claims := Claims(reply.id, RoleName(reply.role));
    assert verify(sign(claims)) == Some(claims);
    GuardAdmits(reply.token, verify, claims, role);
    assert RoleName(reply.role) == RoleName(role) <==> reply.role == role;
  }
}

/**
 * The profile handlers (src/controllers/user.controller.js): reading the
 * caller's or another user's profile without the password, overwriting
 * fields of the caller's record, and listing the follow relations.
 */
module UserController {
  import opened Outcomes
  import opened Models
  import opened Store

  /** `getProfile`: the caller's record without its password; `None` (a JSON null) when the caller has no document. */
  function GetProfile(users: map<Id, User>, caller: Id): (r: Option<Profile>)
    ensures r.Some? <==> caller in users
    ensures r.Some? ==> r.value.id == caller && WithPassword(r.value, users[caller].password) == users[caller]
  {
    if caller in users then Some(ProfileOf(caller, users[caller])) else None
  }

  /** `getUserProfile`: any user's record without its password, or 404. */
  function GetUserProfile(users: map<Id, User>, id: Id): (r: Result<Profile>)
    ensures r.Ok? <==> id in users
    ensures r.Ok? ==> r.value.id == id && WithPassword(r.value, users[id].password) == users[id]
    ensures r.Err? ==> r.failure == NotFound("User not found")
  {
    if id in users then Ok(ProfileOf(id, users[id])) else Err(NotFound("User not found"))
  }

  /** A profile update body: each field present is set by `$set` (the store runs no validators on updates). */
  datatype UserPatch = UserPatch(
    username: Option<string>,
    password: Option<string>,
    role: Option<Role>,
    points: Option<int>,
    following: Option<seq<Id>>,
    followers: Option<seq<Id>>,
    answeredQuestions: Option<seq<AnsweredEntry>>,
    createdAt: Option<Timestamp>)

  /** A user with the fields present in the patch overwritten and every other field as it was. */
  function PatchUser(u: User, p: UserPatch): (r: User)
    ensures p.username.Some? ==> r.username == p.username.value
    ensures p.username.None? ==> r.username == u.username
    ensures p.password.Some? ==> r.password == p.password.value
    ensures p.password.None? ==> r.password == u.password
    ensures p.role.Some? ==> r.role == p.role.value
    ensures p.role.None? ==> r.role == u.role
    ensures p.points.Some? ==> r.points == p.points.value
    ensures p.points.None? ==> r.points == u.points
    ensures p.following.Some? ==> r.following == p.following.value
    ensures p.following.None? ==> r.following == u.following
    ensures p.followers.Some? ==> r.followers == p.followers.value
    ensures p.followers.None? ==> r.followers == u.followers
    ensures p.answeredQuestions.Some? ==> r.answeredQuestions == p.answeredQuestions.value
    ensures p.answeredQuestions.None? ==> r.answeredQuestions == u.answeredQuestions
    ensures p.createdAt.Some? ==> r.createdAt == p.createdAt.value
    ensures p.createdAt.None? ==> r.createdAt == u.createdAt
  {
    User(Override(p.username, u.username), Override(p.password, u.password), Override(p.role, u.role), Override(p.points, u.points),
         Override(p.following, u.following), Override(p.followers, u.followers),
         Override(p.answeredQuestions, u.answeredQuestions), Override(p.createdAt, u.createdAt))
  }

  /** Whether a user other than `caller` already has the username the patch sets (the unique index refuses it). */
  predicate UsernameTaken(users: map<Id, User>, caller: Id, p: UserPatch)
  {
    p.username.Some? && exists other :: other in users && other != caller && users[other].username == p.username.value
  }

  /**
   * `updateProfile`: a username another user holds is a 400 with no change;
   * a caller without a document gets null and nothing changes; otherwise
   * the caller's record is patched and sent back without its password.
   */
  function ProfileUpdate(users: map<Id, User>, caller: Id, p: UserPatch): (out: (Result<Option<Profile>>, map<Id, User>))
    ensures caller !in users ==> out == (Ok(None), users)
    ensures caller in users && UsernameTaken(users, caller, p) ==> out.0.Err? && Status(out.0.failure) == 400 && out.1 == users
    ensures out.0.Err? ==> out.1 == users
    ensures out.1.Keys == users.Keys
    ensures forall id :: id in users && id != caller ==> out.1[id] == users[id]
    ensures caller in users && !UsernameTaken(users, caller, p) ==>
      out.1[caller] == PatchUser(users[caller], p) && out.0 == Ok(Some(ProfileOf(caller, out.1[caller])))
    ensures out.0.Ok? && out.0.value.Some? ==> WithPassword(out.0.value.value, out.1[caller].password) == out.1[caller]
    ensures UniqueUsernames(users) ==> UniqueUsernames(out.1)
  {
    if caller !in users then (Ok(None), users)
    else if UsernameTaken(users, caller, p) then (Err(BadRequest("E11000 duplicate key error")), users)
    else
      var u' := PatchUser(users[caller], p);
      (Ok(Some(ProfileOf(caller, u'))), users[caller := u'])
  }

  /** `updateProfile`, step by step against the store. */
  method UpdateProfile(db: Database, caller: Id, p: UserPatch) returns (r: Result<Option<Profile>>)
    requires db.Valid()
    modifies db
    ensures db.Valid()
    ensures (r, db.users) == ProfileUpdate(old(db.users), caller, p)
    ensures db.questions == old(db.questions) && db.categories == old(db.categories) && db.nextId == old(db.nextId)
  {
    if caller !in db.users {
      return Ok(None);
    }
    if UsernameTaken(db.users, caller, p) {
      return Err(BadRequest("E11000 duplicate key error"));
    }
    var updated := PatchUser(db.users[caller], p);
    db.users := db.users[caller := updated];
    r := Ok(Some(ProfileOf(caller, updated)));
  }

  /**
   * `populate` of a list of ids: the records of the ids that still exist;
   * ids with no document are dropped.
   */
  function Populate(users: map<Id, User>, ids: seq<Id>): (r: seq<(Id, User)>)
    ensures |r| <= |ids|
    ensures forall i :: 0 <= i < |r| ==> r[i].0 in ids && r[i].0 in users && r[i].1 == users[r[i].0]
    ensures forall id :: id in ids && id in users ==> (id, users[id]) in r
  {
    if ids == [] then []
    else
      var rest := Populate(users, ids[1..]);
      if ids[0] in users then [(ids[0], users[ids[0]])] + rest else rest
  }

  /** `getFollowing`: the records (password included) of the users the caller follows; 500 without a caller document. */
  function GetFollowing(users: map<Id, User>, caller: Id): (r: Result<seq<(Id, User)>>)
    ensures caller !in users ==> r.Err? && Status(r.failure) == 500
    ensures caller in users ==> r.Ok? && forall id :: id in users ==>
      ((id, users[id]) in r.value <==> id in users[caller].following)
    ensures r.Ok? ==> forall i :: 0 <= i < |r.value| ==>
      r.value[i].0 in users[caller].following && r.value[i].0 in users && r.value[i].1 == users[r.value[i].0]
  {
    if caller !in users then Err(ServerError(NullUser("following")))
    else Ok(Populate(users, users[caller].following))
  }

  /** `getFollowers`: the records (password included) of the caller's followers; 500 without a caller document. */
  function GetFollowers(users: map<Id, User>, caller: Id): (r: Result<seq<(Id, User)>>)
    ensures caller !in users ==> r.Err? && Status(r.failure) == 500
    ensures caller in users ==> r.Ok? && forall id :: id in users ==>
      ((id, users[id]) in r.value <==> id in users[caller].followers)
    ensures r.Ok? ==> forall i :: 0 <= i < |r.value| ==>
      r.value[i].0 in users[caller].followers && r.value[i].0 in users && r.value[i].1 == users[r.value[i].0]
  {
    if caller !in users then Err(ServerError(NullUser("followers")))
    else Ok(Populate(users, users[caller].followers))
  }
}

# Quiz game backend — a Dafny model of its bookkeeping rules

This project models the rules of a quiz-game REST backend. Designers
write questions and categories. Players answer questions and earn points,
read a leaderboard and follow one another. A bearer-token middleware
guards every route by role.

The HTTP layer is gone. Each handler becomes a Dafny operation over an
in-memory document store, and it returns an explicit `Result` (a 2xx
body, or a `Failure` whose constructor fixes the HTTP status) instead of
writing a response.

Layout, one module per source file or concern:

- `outcomes.dfy` (`Outcomes`): `Option`, `Result` and the `Failure` kinds, with `Status` giving the HTTP code.
- `models.dfy` (`Models`): the `User`, `Question` and `Category` records. It also holds the role enum, the schema validators as predicates, and the views without `correctAnswer` or `password`.
- `collections.dfy` (`Collections`): what the store's operators do to a list: `$addToSet`, `$pull`, a natural-order scan, `.limit`, and the random reordering.
- `store.dfy` (`Store`): the class `Database`. It holds the three collections as maps from id to record, plus the counter that hands out ids. Ascending id is insertion order. Its invariant says every key is below the counter and no two users share a username.
- `auth_middleware.dfy` (`AuthMiddleware`): `verifyToken`, `isDesigner` and `isPlayer`.
- `auth_controller.dfy` (`AuthController`): `register` and `login`.
- `player_controller.dfy` (`PlayerController`): scoring, answer submission, the player queries, the leaderboard and follow/unfollow.
- `designer_controller.dfy` (`DesignerController`): owner-scoped question and category CRUD.
- `user_controller.dfy` (`UserController`): profile reads, profile update, and the follow lists.

Handlers that write are methods on a `Database` (`modifies db`). Where
several calls must be reasoned about together (submissions, follows,
registration, profile updates), a pure function gives the new users
collection. The method's postcondition equates its effect with that
function, and the lemmas prove the promised properties of the function.
Handlers that only read are functions of the collections. Their `bound`
argument is the store's id counter, and they scan ids below it in
ascending order, which is the store's natural order.

Opaque collaborators are parameters:
- password hashing `hash` (bcrypt.hash) and its comparison `compare` (bcrypt.compare);
- token signing `sign` (jwt.sign) and verification `verify` (jwt.verify);
- the random draws `picks` behind the shuffle (Math.random);
- the clock `now` (Date.now).

The model follows the code as written; in particular:
- a user may follow themself;
- the random-question handler returns up to ten questions in random order;
- the player question query leaves out the questions the caller has answered;
- a duplicate username at registration is a 400;
- a `correctAnswer` outside the option list is accepted;
- a non-numeric `difficulty` filter makes the player question query fail with a 500.

Two consequences of the store running no validators on updates are
modelled as they are. A question update may set a difficulty outside
1..5 or hand the question to another creator. A profile update may
overwrite `points`, `answeredQuestions`, the follow lists or the password
(stored as given, unhashed). So "no question answered twice" and "follows
are mirrored" are proved to be kept by the submission and follow
operations, not by every operation of the store.

## Model

| member | source | states |
|---|---|---|
| `Models.ParseRole` | src/models/user.model.js:6 | a role is accepted exactly when it is "designer" or "player", and the stored role prints back as that string |
| `Models.HideAnswer` | src/controllers/player.controller.js:38-41 | the view sent to players keeps every field but `correctAnswer`: putting the answer back restores the question |
| `Models.ProfileOf` | src/controllers/user.controller.js:6 | a profile keeps every field of the user but `password`: putting the password back restores the user |
| `Collections.AddToSet` | src/controllers/player.controller.js:140-147 | `$addToSet` leaves exactly the old members plus the new one, changes nothing when already present, and keeps a duplicate-free list duplicate-free |
| `Collections.Pull` | src/controllers/player.controller.js:186-193 | `$pull` leaves exactly the old members other than the one removed, never grows, and keeps a duplicate-free list duplicate-free |
| `Collections.Select` | src/controllers/designer.controller.js:8 | a filtered scan returns exactly the matching ids below the bound, in ascending order |
| `Collections.Limit` | src/controllers/player.controller.js:41 | `.limit(n)` returns a prefix of at most n, and everything when there are fewer than n |
| `Collections.Shuffle` | src/controllers/player.controller.js:70-72 | whatever the random draws, the shuffled list is a permutation of the input |
| `AuthMiddleware.Split` | src/middlewares/auth.middleware.js:5 | `split(" ")` yields at least one field and no field contains a space |
| `AuthMiddleware.JoinSplit` | src/middlewares/auth.middleware.js:5 | splitting loses nothing: joining the fields with spaces gives the header back |
| `AuthMiddleware.BearerToken` | src/middlewares/auth.middleware.js:5-11 | a token is found only in a present header, is non-empty, contains no space, and is the second space-separated field (the first field has no space) |
| `AuthMiddleware.BearerHeader` | src/middlewares/auth.middleware.js:5 | a header `<scheme> <token>` yields exactly that token |
| `AuthMiddleware.BearerHeaderWithRest` | src/middlewares/auth.middleware.js:5 | a header `<scheme> <token> <anything>` still yields exactly that token |
| `AuthMiddleware.VerifyToken` | src/middlewares/auth.middleware.js:4-20 | the request goes on exactly when a token is present and verifies, carrying the decoded claims as its user; otherwise 401 |
| `AuthMiddleware.IsDesigner` | src/middlewares/auth.middleware.js:22-29 | passes exactly when the role claim is "designer", leaving the user as it was; otherwise 403 |
| `AuthMiddleware.IsPlayer` | src/middlewares/auth.middleware.js:31-36 | passes exactly when the role claim is "player", leaving the user as it was; otherwise 403 |
| `AuthMiddleware.GuardAdmits` | src/middlewares/auth.middleware.js:4-36 | a verifiable `Bearer` token gets through a role's gate exactly when its claims carry that role, and the claims reach the handler |
| `AuthController.FindByUsername` | src/controllers/auth.controller.js:12 | the lookup finds the first user in natural order with that username (none with a smaller id has it), or there is none below the bound |
| `AuthController.RegisterOutcome` | src/controllers/auth.controller.js:7-35 | a taken username is a 400 with no change; a free username the schema rejects is a 500 "Error registering user" with no change; otherwise exactly one user is added, under the new id, with the username and role given, the password's hash, 0 points and empty lists; usernames stay unique |
| `AuthController.Register` | src/controllers/auth.controller.js:7-35 | the store's users change exactly as `RegisterOutcome` says, the id counter advances only on success, and the store invariant is kept |
| `AuthController.Login` | src/controllers/auth.controller.js:38-75 | unknown username: 400 "User not found"; wrong password: 400 "Invalid password"; success exactly when the user exists and the password matches its hash, returning the id of the user the lookup found, with its username and role, and a token signed over its id and role |
| `AuthController.RegisterThenLogin` | src/controllers/auth.controller.js:18-59 | after a successful registration, logging in with the same password succeeds and reports the new user's id and role |
| `AuthController.LoginTokenPassesGuard` | src/controllers/auth.controller.js:55-59 | the token a login issues passes the gate of a role exactly when the user has that role |
| `PlayerController.CalculatePoints` | src/controllers/player.controller.js:5-8 | a difficulty of 1 to 5 earns one of 10, 20, 30, 40, 50 points, and any positive difficulty earns a positive amount |
| `PlayerController.Grade` | src/controllers/player.controller.js:97-98 | correct exactly when the answer equals `correctAnswer`; earns 10 × difficulty when correct and 0 otherwise, so one of 0, 10, …, 50 for difficulty 1..5 |
| `PlayerController.AnsweredIds` | src/controllers/player.controller.js:20-22 | the answered ids are the question ids of the history, in order |
| `PlayerController.SubmitOutcome` | src/controllers/player.controller.js:80-118 | unknown question: 404 with no change; already answered: 400 with no change; otherwise the reply is the grade, the caller's points grow by exactly the points earned and one entry `{question, wasCorrect, now}` is appended; no other user changes; afterwards the question counts as answered and a duplicate-free history stays duplicate-free |
| `PlayerController.SubmitAnswer` | src/controllers/player.controller.js:80-118 | the users change exactly as `SubmitOutcome` says; questions, categories and the id counter do not change |
| `PlayerController.SubmitTwice` | src/controllers/player.controller.js:88-108 | resubmitting an answered question is refused with "Question already answered", and the points changed only once |
| `PlayerController.SubmitKeepsBookkeeping` | src/controllers/player.controller.js:88-108 | one submission keeps every history duplicate-free and every user's points equal to what their history earned |
| `PlayerController.RunKeepsBookkeeping` | src/controllers/player.controller.js:88-108 | any sequence of submissions, by any players, never puts a question twice in a history and keeps points equal to what the history earned |
| `PlayerController.CategoryNamed` | src/controllers/player.controller.js:28-33 | the category lookup finds the first category in natural order with that name (none with a smaller id has it), or there is none |
| `PlayerController.Page` | src/controllers/player.controller.js:24-41 | at most ten ids, ascending, each unanswered and matching the category and difficulty filters; all matching ones when fewer than ten; a matching id left out means ten are kept and every kept id is smaller, so the page is the first ten in natural order |
| `PlayerController.PlayerQuestions` | src/controllers/player.controller.js:11-47 | at most ten questions, none answered by the caller, each matching the filters and sent without its answer; an unknown category name is a 404; then a `NaN` difficulty is a 500 (the store's cast error); a caller without a document is a 500; otherwise the result is exactly the first page of matching questions |
| `PlayerController.EmptyPageMeansAllAnswered` | src/controllers/player.controller.js:59-67 | the unfiltered query is empty exactly when every stored question has been answered |
| `PlayerController.RandomQuestions` | src/controllers/player.controller.js:49-78 | 404 exactly when no unanswered question is left; success exactly when the caller has a document and some question is unanswered, with 1 to 10 unanswered questions without answers, a permutation of the first ten unanswered ones |
| `PlayerController.RandomIsReorderedQuery` | src/controllers/player.controller.js:59-74 | the random handler returns the same questions as the unfiltered query, reordered |
| `PlayerController.PlayerStandings` | src/controllers/player.controller.js:122 | the rows are exactly the players' ids, usernames and points, each player once, in id order |
| `PlayerController.SortByPoints` | src/controllers/player.controller.js:123 | the sort is a permutation in non-increasing order of points |
| `PlayerController.TopOfRanking` | src/controllers/player.controller.js:123-124 | the first ten of a ranking come from the ranked rows, and a row left out ranks no higher than any kept |
| `PlayerController.TopPlayers` | src/controllers/player.controller.js:122-124 | the first ten of a ranking of the players are players, still ranked, and a player left out has no more points than any of them, and is left out only when ten are listed |
| `PlayerController.Leaderboard` | src/controllers/player.controller.js:120-130 | at most ten rows, players only, in non-increasing order of points, each player at most once (the rows are a sub-multiset of the players' rows); a player left out has no more points than anyone listed and is left out only when ten are listed |
| `PlayerController.AddFollow` | src/controllers/player.controller.js:140-147 | the two `$addToSet` writes touch only the caller's `following` and the target's `followers`, keep every other field and every other user, and keep usernames unique |
| `PlayerController.RemoveFollow` | src/controllers/player.controller.js:186-193 | the two `$pull` writes touch only the caller's `following` and the target's `followers`, keep every other field and every other user, and keep usernames unique |
| `PlayerController.FollowOutcome` | src/controllers/player.controller.js:132-176 | a missing target or one of the other role is a 404 with no change; otherwise only the caller's `following` (target added as a set) and the target's `followers` (caller added as a set) change; self-follow is allowed |
| `PlayerController.UnfollowOutcome` | src/controllers/player.controller.js:178-222 | the same target check; otherwise the target leaves the caller's `following` and the caller leaves the target's `followers`, nothing else changes |
| `PlayerController.Follow` | src/controllers/player.controller.js:132-176 | the two writes change the users exactly as `FollowOutcome` says and nothing else |
| `PlayerController.Unfollow` | src/controllers/player.controller.js:178-222 | the two writes change the users exactly as `UnfollowOutcome` says and nothing else |
| `PlayerController.FollowIdempotent` | src/controllers/player.controller.js:140-147 | following again after a successful follow changes nothing |
| `PlayerController.SelfFollow` | src/controllers/player.controller.js:155-175 | a user following themself succeeds and ends up in their own `following` and `followers` |
| `PlayerController.FollowTwiceUnfollowOnce` | src/controllers/player.controller.js:132-222 | following twice then unfollowing once leaves no membership on either side |
| `PlayerController.FollowKeepsLinksMirrored` | src/controllers/player.controller.js:139-147 | if every `followers` entry had its `following` counterpart before a follow, that still holds after it |
| `PlayerController.UnfollowKeepsLinksMirrored` | src/controllers/player.controller.js:185-193 | the same for unfollow |
| `DesignerController.OwnedQuestions` | src/controllers/designer.controller.js:6-15 | exactly the caller's questions, in id order, without their answers |
| `DesignerController.GetQuestion` | src/controllers/designer.controller.js:45-59 | the whole question exactly when it exists and the caller created it, else 404 "Question not found" |
| `DesignerController.BuildQuestion` | src/controllers/designer.controller.js:17-43 | the new question takes the body's fields with the caller as creator and is accepted exactly when the schema's validators pass (text, answer and difficulty present, difficulty 1..5, every option a non-empty string); otherwise 400 |
| `DesignerController.CreateQuestion` | src/controllers/designer.controller.js:17-43 | on success exactly one question is added under a new id, owned by the caller and listed among the caller's questions; on failure nothing changes |
| `DesignerController.PatchQuestion` | src/controllers/designer.controller.js:63-67 | the fields present in the update body are overwritten and every other field is kept |
| `DesignerController.UpdateQuestion` | src/controllers/designer.controller.js:61-76 | only a question the caller owns is patched; otherwise 404 and no change; no question of another creator changes |
| `DesignerController.DeleteQuestion` | src/controllers/designer.controller.js:78-92 | removes exactly the caller's question with that id; otherwise 404 and no change |
| `DesignerController.OwnedCategories` | src/controllers/designer.controller.js:95-102 | exactly the caller's categories, in id order |
| `DesignerController.CreateCategory` | src/controllers/designer.controller.js:104-116 | adds one category under a new id with the given name and the caller as creator |
| `DesignerController.UpdateCategory` | src/controllers/designer.controller.js:118-133 | renames only a category the caller owns, changing nothing but its name; otherwise 404 and no change |
| `DesignerController.DeleteCategory` | src/controllers/designer.controller.js:135-149 | removes exactly the caller's category with that id, otherwise 404; questions are never touched |
| `UserController.GetProfile` | src/controllers/user.controller.js:4-11 | the caller's record without the password, or null when the caller has no document |
| `UserController.GetUserProfile` | src/controllers/user.controller.js:26-36 | the record without the password, or 404 "User not found" for an unknown id |
| `UserController.PatchUser` | src/controllers/user.controller.js:15-19 | the fields present in the body are overwritten and every other field is kept |
| `UserController.ProfileUpdate` | src/controllers/user.controller.js:13-24 | patches only the caller's record and sends it back without the password; a username held by another user is a 400 with no change; usernames stay unique |
| `UserController.UpdateProfile` | src/controllers/user.controller.js:13-24 | the users change exactly as `ProfileUpdate` says and the store invariant is kept |
| `UserController.Populate` | src/controllers/user.controller.js:40 | the populated list holds exactly the records of the listed ids that still exist |
| `UserController.GetFollowing` | src/controllers/user.controller.js:38-45 | every existing user in the caller's `following` is listed with its current record, and every listed entry is such a user's current record; 500 without a caller document |
| `UserController.GetFollowers` | src/controllers/user.controller.js:47-54 | every existing user in the caller's `followers` is listed with its current record, and every listed entry is such a user's current record; 500 without a caller document |

## Left out

- HTTP wiring, Swagger comments, `app.js` and the connection bootstrap are not modelled. Which middleware guards which route appears only as `AuthMiddleware.Guard` (token check, then role gate).
- The related-question routes point at handlers that the designer controller does not define, so they are not modelled.
- `insertQuestions.js` is a seeding script driven by random numbers and database I/O, so it is not modelled.
- Password hashing, hash comparison, token signing and token verification are opaque parameters. Token expiry (24h) is whatever `verify` decides.
- The shuffle's distribution is not modelled. The random draws are a parameter, and only "a permutation" is proved.
- `populate` of a question's category is not modelled: the player and designer question lists carry the category id instead of its name, and `getQuestion` (`DesignerController.GetQuestion`) returns the question with the category id instead of the whole category document.
- Leaderboard ties: the store leaves their order open. The model sorts stably, so among equal points the earlier-created player comes first.
- Concurrency is not modelled: the check-then-write race in `submitAnswer` and the two non-atomic writes of a follow. The model runs requests one at a time.
- Malformed ids (cast errors) and store failures (the generic 500 of each `catch`) are not modelled, because ids are plain numbers and the model store never fails. The one exception is the TypeError a handler throws when the caller's user document is missing; that is modelled.
- Numeric fields (`points`, `difficulty`, `correctAnswer`) are integers, so fractional JSON numbers are not modelled.
- `DesignerController.UpdateQuestion`: the update body is typed, so a body the store cannot cast (such as a non-numeric `difficulty`) or one that touches `_id` is not expressible. The source answers it with a 400 from its `catch` and changes nothing; the model's only error is the 404.
- A profile update body is typed, so the model cannot express a `role` string outside the enum, an `_id` in the body, or unknown fields. The store would accept such a role because it runs no validators on updates.
- The category model file is not part of this model. `Category` is taken from the way the designer handlers build one, and a category name is not validated.
- A registration request with no `username` at all is not modelled, nor one with no `password` (hashing then throws, a 500): the store drops an undefined filter value, which would match any user.
- `AuthController.Login`: a body without `username` is not expressible. The store drops the undefined filter value, so the lookup finds the first user in natural order, and a password matching that user's hash logs the request in as that user. A body without `password` is not expressible either; there the hash comparison throws and the handler answers 500 "Error logging in". The model's errors are the two 400s only.
- `DesignerController.BuildQuestion` reports every schema validation failure with one fixed message, not the store's detailed one.
- `UserController.ProfileUpdate` reports a duplicate-key failure with one fixed message, not the store's full text.

/**
 * The stored records: users (src/models/user.model.js), questions
 * (src/models/question.model.js) and categories (shape taken from the way
 * the designer handlers build them), with the projections the handlers send.
 */
module Models {
  import opened Outcomes

  /** A document id (a Mongo ObjectId); ids are handed out in increasing order. */
  type Id = nat

  /** A `Date.now` reading. */
  type Timestamp = int

  /** The `role` enum of the user schema. */
  datatype Role = Designer | Player

  /** The string the schema stores for a role, and the one the token carries. */
  function RoleName(r: Role): string
  {
    match r
    case Designer => "designer"
    case Player => "player"
  }

  /** Enum validation of the `role` field: only the two names are accepted. */
  function ParseRole(s: string): (r: Option<Role>)
    ensures r.Some? <==> s == "designer" || s == "player"
    ensures r.Some? ==> RoleName(r.value) == s
  {
    if s == "designer" then Some(Designer)
    else if s == "player" then Some(Player)
    else None
  }

  /** One `answeredQuestions` entry: which question, whether it was right, when. */
  datatype AnsweredEntry = AnsweredEntry(question: Id, wasCorrect: bool, timestamp: Timestamp)

  /** One field of a `$set`-style update: the new value when the body holds one, else the current value. */
  function Override<T>(patch: Option<T>, current: T): T
  {
    if patch.Some? then patch.value else current
  }

  /** A user document; `password` holds the hash that registration stored. */
  datatype User = User(
    username: string,
    password: string,
    role: Role,
    points: int,
    following: seq<Id>,
    followers: seq<Id>,
    answeredQuestions: seq<AnsweredEntry>,
    createdAt: Timestamp)

  /** A user as the schema creates it: 0 points, no follows, no answers. */
  function NewUser(username: string, passwordHash: string, role: Role, now: Timestamp): User
  {
    User(username, passwordHash, role, 0, [], [], [], now)
  }

  /** The schema's `required` checks on a user (an empty string fails `required`). */
  predicate ValidUser(u: User)
  {
    |u.username| > 0 && |u.password| > 0
  }

  /** A question document. */
  datatype Question = Question(
    text: string,
    options: seq<string>,
    correctAnswer: int,
    category: Option<Id>,
    difficulty: int,
    creator: Id,
    relatedQuestions: seq<Id>,
    createdAt: Timestamp)

  /** The question schema's validators: required text, required option strings, difficulty within [1, 5]. */
  predicate ValidQuestion(q: Question)
  {
    |q.text| > 0
    && (forall i :: 0 <= i < |q.options| ==> |q.options[i]| > 0)
    && 1 <= q.difficulty <= 5
  }

  /** A category document. */
  datatype Category = Category(name: string, creator: Id)

  /** A question as sent by `.select("-correctAnswer")`: every field but the answer. */
  datatype QuestionView = QuestionView(
    id: Id,
    text: string,
    options: seq<string>,
    category: Option<Id>,
    difficulty: int,
    creator: Id,
    relatedQuestions: seq<Id>,
    createdAt: Timestamp)

  /** Puts an answer back into a view, giving a full question. */
  function WithAnswer(v: QuestionView, correctAnswer: int): Question
  {
    Question(v.text, v.options, correctAnswer, v.category, v.difficulty, v.creator, v.relatedQuestions, v.createdAt)
  }

  /** Drops `correctAnswer`; nothing else is lost. */
  function HideAnswer(id: Id, q: Question): (v: QuestionView)
    ensures v.id == id && WithAnswer(v, q.correctAnswer) == q
  {
    QuestionView(id, q.text, q.options, q.category, q.difficulty, q.creator, q.relatedQuestions, q.createdAt)
  }

  /** The questions of a list of ids, each without its answer. */
  function Views(questions: map<Id, Question>, ids: seq<Id>): (vs: seq<QuestionView>)
    requires forall i :: 0 <= i < |ids| ==> ids[i] in questions
    ensures |vs| == |ids| && forall i :: 0 <= i < |ids| ==> vs[i] == HideAnswer(ids[i], questions[ids[i]])
  {
    seq(|ids|, i requires 0 <= i < |ids| => HideAnswer(ids[i], questions[ids[i]]))
  }

  /** A user as sent by `.select("-password")`: every field but the password. */
  datatype Profile = Profile(
    id: Id,
    username: string,
    role: Role,
    points: int,
    following: seq<Id>,
    followers: seq<Id>,
    answeredQuestions: seq<AnsweredEntry>,
    createdAt: Timestamp)

  /** Puts a password back into a profile, giving a full user. */
  function WithPassword(p: Profile, password: string): User
  {
    User(p.username, password, p.role, p.points, p.following, p.followers, p.answeredQuestions, p.createdAt)
  }

  /** Drops `password`; nothing else is lost. */
  function ProfileOf(id: Id, u: User): (p: Profile)
    ensures p.id == id && WithPassword(p, u.password) == u
  {
    Profile(id, u.username, u.role, u.points, u.following, u.followers, u.answeredQuestions, u.createdAt)
  }
}
